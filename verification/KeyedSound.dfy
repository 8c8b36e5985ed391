// What a message that is keyed on and off sounds like to a receiver: a train of pulses and
// gaps, once for every copy.

module KeyedSounds {
  import opened Basics
  import opened Reception
  import opened PulseTrains
  import opened Sums
  import Activity
  import S = Synthesis
  import W = Waveform
  import P = Program
  import M = Modulations

  // --------------------------------------------------- what the symbols sound like

  /** How many samples each symbol sounds. */
  function Counts(rate: real, symbols: seq<W.Symbol>): (lens: seq<nat>)
    requires 0.0 <= rate && W.SaneSymbols(symbols)
    ensures |lens| == |symbols|
    ensures forall k :: 0 <= k < |symbols| ==>
              W.SaneSymbol(symbols[k]) && lens[k] == S.SymbolSamples(symbols[k].us, rate)
    decreases |symbols|
  {
    if symbols == [] then []
    else
      var lens := Counts(rate, Activity.Front(symbols));
      assert W.SaneSymbol(Activity.Last(symbols));
      lens + [S.SymbolSamples(Activity.Last(symbols).us, rate)]
  }

  lemma {:induction false} TotalSnoc(rate: real, symbols: seq<W.Symbol>, last: W.Symbol)
    requires 0.0 <= rate && W.SaneSymbols(symbols) && W.SaneSymbol(last)
    ensures W.SaneSymbols(symbols + [last])
    ensures W.TotalSamples(rate, symbols + [last]) == W.TotalSamples(rate, symbols) + S.SymbolSamples(last.us, rate)
    decreases |symbols|
  {
    hide S.SymbolSamples;
    if symbols == [] {
      assert ([] + [last])[1..] == [];
    } else {
      assert W.SaneSymbol(symbols[0]);
      assert (symbols + [last])[1..] == symbols[1..] + [last];
      TotalSnoc(rate, symbols[1..], last);
    }
  }

  lemma {:induction false} AmpSnoc(rate: real, symbols: seq<W.Symbol>, last: W.Symbol, k: nat)
    requires 0.0 <= rate && W.SaneSymbols(symbols) && W.SaneSymbol(last)
    requires W.SaneSymbols(symbols + [last]) && k < W.TotalSamples(rate, symbols + [last])
    ensures W.AmpAt(rate, symbols + [last], k) ==
            if k < W.TotalSamples(rate, symbols) then W.AmpAt(rate, symbols, k) else last.set_.value
    decreases |symbols|
  {
    hide S.SymbolSamples;
    TotalSnoc(rate, symbols, last);
    if symbols == [] {
      assert ([] + [last])[1..] == [];
    } else {
      assert W.SaneSymbol(symbols[0]);
      assert (symbols + [last])[1..] == symbols[1..] + [last];
      var n := S.SymbolSamples(symbols[0].us, rate);
      if n <= k {
        TotalSnoc(rate, symbols[1..], last);
        AmpSnoc(rate, symbols[1..], last, k - n);
      }
    }
  }

  lemma NoCounts(rate: real)
    requires 0.0 <= rate
    ensures W.SaneSymbols([]) && Sum(Counts(rate, [])) == 0 && W.TotalSamples(rate, []) == 0
  {
  }

  lemma CountsOfSnoc(rate: real, front: seq<W.Symbol>, last: W.Symbol)
    requires 0.0 <= rate && W.SaneSymbols(front + [last])
    ensures W.SaneSymbols(front) && W.SaneSymbol(last)
    ensures Counts(rate, front + [last]) == Counts(rate, front) + [S.SymbolSamples(last.us, rate)]
  {
    hide S.SymbolSamples, W.SaneSymbol;
    var whole := front + [last];
    assert W.SaneSymbol(whole[|front|]);
    assert Activity.Front(whole) == front && Activity.Last(whole) == last;
    forall k | 0 <= k < |front|
      ensures W.SaneSymbol(front[k])
    {
      assert W.SaneSymbol(whole[k]);
    }
  }

  lemma CountsSnoc(rate: real, symbols: seq<W.Symbol>)
    requires 0.0 <= rate && W.SaneSymbols(symbols) && symbols != []
    ensures W.SaneSymbols(Activity.Front(symbols)) && W.SaneSymbol(Activity.Last(symbols))
    ensures Activity.Front(symbols) + [Activity.Last(symbols)] == symbols
    ensures Sum(Counts(rate, symbols)) ==
            Sum(Counts(rate, Activity.Front(symbols))) + S.SymbolSamples(Activity.Last(symbols).us, rate)
  {
    hide S.SymbolSamples, Sum, Activity.Front, Activity.Last;
    var front, last := Activity.Front(symbols), Activity.Last(symbols);
    FrontAndLast(symbols);
    CountsOfSnoc(rate, front, last);
    SumAppend(Counts(rate, front), S.SymbolSamples(last.us, rate));
  }

  lemma {:induction false} CountsAddUp(rate: real, symbols: seq<W.Symbol>)
    requires 0.0 <= rate && W.SaneSymbols(symbols)
    ensures Sum(Counts(rate, symbols)) == W.TotalSamples(rate, symbols)
    decreases |symbols|
  {
    hide S.SymbolSamples, W.TotalSamples, W.SaneSymbols, Counts, Sum;
    if symbols == [] {
      NoCounts(rate);
    } else {
      CountsSnoc(rate, symbols);
      CountsAddUp(rate, Activity.Front(symbols));
      TotalSnoc(rate, Activity.Front(symbols), Activity.Last(symbols));
    }
  }

  /** Symbols that are keyed on and off in turns. */
  ghost predicate Alternating(symbols: seq<W.Symbol>) {
    forall k :: 0 <= k < |symbols| ==>
      symbols[k].set_.SetAmp? && (symbols[k].set_.value != 0.0 <==> k % 2 == 0)
  }

  /** From position `lead` to the end of the stream, exactly the samples that are keyed
      on are above the threshold. */
  ghost predicate KeyedBy<Iq>(rate: real, symbols: seq<W.Symbol>, lead: nat, hist: seq<Sample<Iq>>)
    requires 0.0 <= rate && W.SaneSymbols(symbols)
  {
    && |hist| == lead + W.TotalSamples(rate, symbols)
    && forall k :: 0 <= k < W.TotalSamples(rate, symbols) ==>
         (hist[lead + k].above <==> W.AmpAt(rate, symbols, k) != 0.0)
  }

  /** Without its last symbol, and without the samples of that symbol. */
  lemma KeyedByFront<Iq>(rate: real, symbols: seq<W.Symbol>, lead: nat, hist: seq<Sample<Iq>>)
    requires 0.0 <= rate && W.SaneSymbols(symbols) && symbols != [] && KeyedBy(rate, symbols, lead, hist)
    ensures W.SaneSymbols(Activity.Front(symbols))
    ensures var n := Activity.Last(Counts(rate, symbols));
            && n <= |hist| && KeyedBy(rate, Activity.Front(symbols), lead, hist[..|hist| - n])
            && AllAre(hist[|hist| - n..], Activity.Last(symbols).set_.value != 0.0)
  {
    hide S.SymbolSamples, W.AmpAt, W.TotalSamples;
    var front, last := Activity.Front(symbols), Activity.Last(symbols);
    assert W.SaneSymbol(last) && symbols == front + [last];
    TotalSnoc(rate, front, last);
    var total, cut := W.TotalSamples(rate, symbols), W.TotalSamples(rate, front);
    forall k | 0 <= k < total
      ensures hist[lead + k].above <==> (if k < cut then W.AmpAt(rate, front, k) else last.set_.value) != 0.0
    {
      AmpSnoc(rate, front, last, k);
    }
    var tail := hist[lead + cut..];
    forall p | 0 <= p < |tail|
      ensures tail[p].above <==> last.set_.value != 0.0
    {
      AmpSnoc(rate, front, last, cut + p);
      assert hist[lead + (cut + p)].above <==> W.AmpAt(rate, symbols, cut + p) != 0.0;
    }
  }

  /** A message that has just been heard is a train of pulses and gaps. */
  lemma {:induction false} SymbolsKeyTheStream<Iq>(
      rate: real, symbols: seq<W.Symbol>, lead: nat, hist: seq<Sample<Iq>>)
    requires 0.0 <= rate && W.SaneSymbols(symbols) && Alternating(symbols) && KeyedBy(rate, symbols, lead, hist)
    ensures Keyed(Counts(rate, symbols), lead, hist)
    decreases |symbols|
  {
    hide S.SymbolSamples, W.AmpAt, AllAre, Keyed;
    if symbols == [] {
      assert Keyed([], lead, hist) by { NoPulses(lead, hist); }
    } else {
      var front := Activity.Front(symbols);
      KeyedByFront(rate, symbols, lead, hist);
      var n := Activity.Last(Counts(rate, symbols));
      SymbolsKeyTheStream(rate, front, lead, hist[..|hist| - n]);
      KeyedSnoc(Counts(rate, front), n, lead, hist);
    }
  }

  lemma NoPulses<Iq>(lead: nat, hist: seq<Sample<Iq>>)
    requires |hist| == lead
    ensures Keyed([], lead, hist)
  {
  }

  // ------------------------------------------------------- what a message sounds like

  /** At this amplitude no phase sounds like silence. */
  ghost predicate Audible(env: S.Env, amp: real) {
    forall phase: real :: S.Point(env, amp, phase) != S.Iq(0, 0)
  }

  lemma AudibleIsNotZero(env: S.Env, amp: real)
    requires Audible(env, amp)
    ensures amp != 0.0
  {
    assert S.Point(env, amp, 0.0) != S.Iq(0, 0);
  }

  /** Exactly the samples of the sound that are not silent are above the threshold, and
      the sound stands between two silences. */
  ghost predicate Heard<Iq>(sound: seq<S.Iq>, lead: nat, hist: seq<Sample<Iq>>) {
    && lead + |sound| <= |hist|
    && AllAre(hist[..lead], false) && AllAre(hist[lead + |sound|..], false)
    && HeardAt(sound, lead, hist[..lead + |sound|])
  }

  ghost predicate HeardAt<Iq>(sound: seq<S.Iq>, lead: nat, hist: seq<Sample<Iq>>) {
    && |hist| == lead + |sound|
    && forall k :: 0 <= k < |sound| ==> (hist[lead + k].above <==> sound[k] != S.Iq(0, 0))
  }

  lemma {:induction false} AmpIsOneOfTwo(rate: real, symbols: seq<W.Symbol>, amp: real, k: nat)
    requires 0.0 <= rate && W.SaneSymbols(symbols) && k < W.TotalSamples(rate, symbols)
    requires forall i :: 0 <= i < |symbols| ==> symbols[i].set_ == S.SetAmp(amp) || symbols[i].set_ == S.SetAmp(0.0)
    ensures W.AmpAt(rate, symbols, k) == amp || W.AmpAt(rate, symbols, k) == 0.0
    decreases |symbols|
  {
    hide S.SymbolSamples;
    assert W.SaneSymbol(symbols[0]);
    var n := S.SymbolSamples(symbols[0].us, rate);
    if n <= k {
      AmpIsOneOfTwo(rate, symbols[1..], amp, k - n);
    }
  }

  /** How many samples the pulse, or the gap, of a bit sounds. */
  function PulseCount(pulse: M.Pulse, rate: real, bit: bool): nat
    requires 0.0 <= pulse.bit0 && 0.0 <= pulse.bit1 && 0.0 <= rate
  {
    S.SymbolSamples(Trunc(if bit then pulse.bit1 else pulse.bit0) as real, rate)
  }

  /** The pulse of a bit sounds for its time, less a fraction of a microsecond and of a
      sample. */
  lemma PulseLasts(pulse: M.Pulse, rate: real, bit: bool)
    requires 0.0 <= pulse.bit0 && 0.0 <= pulse.bit1 && 0.0 <= rate
    ensures var n, us := PulseCount(pulse, rate, bit), if bit then pulse.bit1 else pulse.bit0;
            n as real * 1000000.0 <= us * rate < (n + 1) as real * 1000000.0 + rate
  {
    hide S.SymbolSamples, Trunc;
    if bit {
      WholeMicrosecondsLast(pulse.bit1, rate);
    } else {
      WholeMicrosecondsLast(pulse.bit0, rate);
    }
  }

  lemma WholeMicrosecondsLast(us: real, rate: real)
    requires 0.0 <= us && 0.0 <= rate
    ensures 0.0 <= Trunc(us) as real
    ensures var n := S.SymbolSamples(Trunc(us) as real, rate);
            n as real * 1000000.0 <= us * rate < (n + 1) as real * 1000000.0 + rate
  {
    TruncIsTowardZero(us);
    S.SymbolLasts(Trunc(us) as real, rate);
    var n := S.SymbolSamples(Trunc(us) as real, rate);
    LastsAlmost(us, Trunc(us) as real, rate, n as real * 1000000.0, (n + 1) as real * 1000000.0);
  }

  lemma LastsAlmost(us: real, whole: real, rate: real, low: real, high: real)
    requires us - 1.0 <= whole <= us && 0.0 <= rate
    requires low <= whole * rate < high
    ensures low <= us * rate < high + rate
  {
    var d := us - whole;
    PartOf(d, rate);
    assert us == whole + d;
    var w, p := whole * rate, d * rate;
    assert us * rate == w + p;
  }

  lemma PartOf(d: real, rate: real)
    requires 0.0 <= d <= 1.0 && 0.0 <= rate
    ensures 0.0 <= d * rate <= rate
  {
    assert 0.0 <= (1.0 - d) * rate;
  }

  function StopCount(s: M.Scheme, rate: real): nat
    requires s.Ook? && M.ValidScheme(s) && 0.0 <= rate
  {
    S.SymbolSamples(s.stop, rate)
  }

  function PulseOf(s: M.Scheme, k: nat): M.Pulse
    requires s.Ook?
  {
    if k % 2 == 0 then s.on else s.off
  }

  /** The lengths of a message: its pulses and gaps, and the stop symbol. */
  function LengthsOf(s: M.Scheme, bits: seq<bool>, amp: real, rate: real): (lens: seq<nat>)
    requires s.Ook? && M.ValidScheme(s) && 0.0 <= rate
    ensures |lens| == |bits| + 1
    ensures forall k :: 0 <= k < |bits| ==> lens[k] == PulseCount(PulseOf(s, k), rate, bits[k])
    ensures lens[|bits|] == StopCount(s, rate)
  {
    hide S.SymbolSamples;
    M.SymbolsSane(s, bits, amp);
    var symbols := M.OokSymbols(s, bits, amp);
    assert forall k :: 0 <= k < |bits| ==> symbols[k] == M.OokSymbol(s, k, bits[k], amp);
    Counts(rate, symbols)
  }

  lemma SymbolsAlternate(s: M.Scheme, bits: seq<bool>, amp: real)
    requires s.Ook? && amp != 0.0
    ensures Alternating(M.OokSymbols(s, bits, amp))
    ensures var symbols := M.OokSymbols(s, bits, amp);
            forall i :: 0 <= i < |symbols| ==> symbols[i].set_ == S.SetAmp(amp) || symbols[i].set_ == S.SetAmp(0.0)
  {
    var symbols := M.OokSymbols(s, bits, amp);
    forall i | 0 <= i < |symbols|
      ensures symbols[i].set_ == S.SetAmp(if i % 2 == 0 then amp else 0.0)
    {
      if i < |bits| {
        assert symbols[i] == M.OokSymbol(s, i, bits[i], amp);
      }
    }
  }

  /** One pass over a message keys a train of its lengths. */
  lemma WaveIsKeyed<Iq>(
      env: S.Env, s: M.Scheme, bits: seq<bool>, phy: M.Phy, amp: real, lead: nat, hist: seq<Sample<Iq>>)
    requires s.Ook? && M.ValidScheme(s) && 0.0 < phy.sampleRate && Audible(env, amp)
    requires HeardAt(M.MessageWave(env, s, bits, phy, amp), lead, hist)
    ensures Keyed(LengthsOf(s, bits, amp, phy.sampleRate), lead, hist)
    ensures |M.MessageWave(env, s, bits, phy, amp)| == Sum(LengthsOf(s, bits, amp, phy.sampleRate))
  {
    hide M.MessageWave, M.OokSymbols, W.TotalSamples, W.AmpAt, W.PhaseAt, S.Point, Keyed, Counts, Sum, W.SaneSymbols;
    var rate, symbols, wave := phy.sampleRate, M.OokSymbols(s, bits, amp), M.MessageWave(env, s, bits, phy, amp);
    AudibleIsNotZero(env, amp);
    M.SymbolsSane(s, bits, amp);
    SymbolsAlternate(s, bits, amp);
    WaveTotal(env, s, bits, phy, amp);
    CountsAddUp(rate, symbols);
    forall k | 0 <= k < W.TotalSamples(rate, symbols)
      ensures hist[lead + k].above <==> W.AmpAt(rate, symbols, k) != 0.0
    {
      SampleIsSilent(env, s, bits, phy, amp, k);
      assert hist[lead + k].above <==> wave[k] != S.Iq(0, 0);
    }
    SymbolsKeyTheStream(rate, symbols, lead, hist);
  }

  lemma WaveTotal(env: S.Env, s: M.Scheme, bits: seq<bool>, phy: M.Phy, amp: real)
    requires s.Ook? && M.ValidScheme(s) && 0.0 < phy.sampleRate
    ensures W.SaneSymbols(M.OokSymbols(s, bits, amp))
    ensures |M.MessageWave(env, s, bits, phy, amp)| == W.TotalSamples(phy.sampleRate, M.OokSymbols(s, bits, amp))
  {
    hide W.Wave, W.TotalSamples, P.SetAll, M.HeaderOf, M.OokSymbols, M.MessageWave, W.SaneSymbols;
    M.WaveOfMessage(env, s, bits, phy, amp);
    W.WaveLength(env, P.SetAll(M.BLANK, M.HeaderOf(s, phy, amp)), M.SymbolsOf(s, bits, amp));
  }

  lemma SampleIsSilent(env: S.Env, s: M.Scheme, bits: seq<bool>, phy: M.Phy, amp: real, k: nat)
    requires s.Ook? && M.ValidScheme(s) && 0.0 < phy.sampleRate && Audible(env, amp)
    requires W.SaneSymbols(M.OokSymbols(s, bits, amp)) && k < W.TotalSamples(phy.sampleRate, M.OokSymbols(s, bits, amp))
    ensures k < |M.MessageWave(env, s, bits, phy, amp)|
    ensures M.MessageWave(env, s, bits, phy, amp)[k] != S.Iq(0, 0) <==>
            W.AmpAt(phy.sampleRate, M.OokSymbols(s, bits, amp), k) != 0.0
  {
    hide M.MessageWave, W.TotalSamples, W.AmpAt, W.PhaseAt, M.OokSymbols, W.SaneSymbols;
    AudibleIsNotZero(env, amp);
    SymbolsAlternate(s, bits, amp);
    M.OokKeysOneCarrier(env, s, bits, phy, amp, k);
    AmpIsOneOfTwo(phy.sampleRate, M.OokSymbols(s, bits, amp), amp, k);
  }

  lemma {:induction false} CopiesSnoc(wave: seq<S.Iq>, copies: nat)
    requires copies > 0
    ensures P.Copies(wave, copies) == P.Copies(wave, copies - 1) + wave
  {
    if copies > 1 {
      CopiesSnoc(wave, copies - 1);
      assert wave + (P.Copies(wave, copies - 2) + wave) == (wave + P.Copies(wave, copies - 2)) + wave;
    }
  }

  lemma HeardSplits<Iq>(front: seq<S.Iq>, wave: seq<S.Iq>, lead: nat, hist: seq<Sample<Iq>>)
    requires HeardAt(front + wave, lead, hist)
    ensures HeardAt(front, lead, hist[..lead + |front|]) && HeardAt(wave, lead + |front|, hist)
  {
    forall k | 0 <= k < |front|
      ensures hist[lead + k].above <==> front[k] != S.Iq(0, 0)
    {
      assert (front + wave)[k] == front[k];
    }
    forall k | 0 <= k < |wave|
      ensures hist[lead + |front| + k].above <==> wave[k] != S.Iq(0, 0)
    {
      assert (front + wave)[|front| + k] == wave[k] && hist[lead + (|front| + k)] == hist[lead + |front| + k];
    }
  }

  /** The repetitions of a message key its train over and over. */
  lemma {:induction false} SoundIsKeyed<Iq>(
      env: S.Env, s: M.Scheme, bits: seq<bool>, copies: nat, phy: M.Phy, amp: real, lead: nat, hist: seq<Sample<Iq>>)
    requires s.Ook? && M.ValidScheme(s) && 0.0 < phy.sampleRate && Audible(env, amp)
    requires HeardAt(P.Copies(M.MessageWave(env, s, bits, phy, amp), copies), lead, hist)
    ensures KeyedCopies(LengthsOf(s, bits, amp, phy.sampleRate), copies, lead, hist)
    ensures |hist| == lead + Times(Sum(LengthsOf(s, bits, amp, phy.sampleRate)), copies)
    decreases copies
  {
    hide M.MessageWave, HeardAt, LengthsOf, Keyed, Sum, Audible, P.Copies;
    var wave, lens := M.MessageWave(env, s, bits, phy, amp), LengthsOf(s, bits, amp, phy.sampleRate);
    if copies == 0 {
      NothingHeard(wave, lead, hist);
    } else {
      CopiesSnoc(wave, copies);
      var front := P.Copies(wave, copies - 1);
      HeardLength(front + wave, lead, hist);
      HeardSplits(front, wave, lead, hist);
      SoundIsKeyed(env, s, bits, copies - 1, phy, amp, lead, hist[..lead + |front|]);
      WaveIsKeyed(env, s, bits, phy, amp, lead + |front|, hist);
    }
  }

  lemma NothingHeard<Iq>(wave: seq<S.Iq>, lead: nat, hist: seq<Sample<Iq>>)
    requires HeardAt(P.Copies(wave, 0), lead, hist)
    ensures |hist| == lead
  {
  }

  lemma HeardLength<Iq>(sound: seq<S.Iq>, lead: nat, hist: seq<Sample<Iq>>)
    requires HeardAt(sound, lead, hist)
    ensures |hist| == lead + |sound|
  {
  }

  /** What the transmitter has played after `n` samples were asked for, whatever its
      oscillator held before. */
  function Played(
      env: S.Env, s: M.Scheme, bits: seq<bool>, repeat: nat, phy: M.Phy, amp: real, a: S.Analog, n: nat)
    : (sound: seq<S.Iq>)
    requires M.ValidScheme(s) && 0.0 < phy.sampleRate && 0.0 <= a.rate
    ensures |M.MessageSound(env, s, bits, repeat, phy, amp)| <= n ==>
              sound == M.MessageSound(env, s, bits, repeat, phy, amp)
  {
    M.PreparedMessageEmitsItsSound(env, s, bits, repeat, phy, amp, a);
    var cmds := P.Compiled(M.HeaderOf(s, phy, amp), M.SymbolsOf(s, bits, amp), repeat);
    S.Gen(env, W.At(cmds, a, 0, 0), n).samples
  }
}
