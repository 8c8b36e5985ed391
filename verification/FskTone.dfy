// What a message sounds like in frequency-shift keying: one tone for each bit, with a
// phase that never jumps, and silence at the end.

module FskTones {
  import opened Slots
  import opened Synthesis
  import opened Waveform
  import opened Program
  import opened Modulations

  function ToneOf(s: Scheme, bit: bool): real
    requires s.Fsk?
  {
    CentralFrequency(s) + if bit then s.spacing / 2.0 else -s.spacing / 2.0
  }

  /** How many samples the tone of a bit sounds. */
  function BitSamples(s: Scheme, rate: real): nat
    requires s.Fsk? && ValidScheme(s) && 0.0 <= rate
  {
    SymbolSamples(FskUs(s), rate)
  }

  /** The bit that is sent with sample `k`. */
  function BitAt(bits: seq<bool>, n: nat, k: nat): bool
    requires k < |bits| * n
  {
    BitExists(|bits|, n, k);
    bits[k / n]
  }

  lemma BitExists(m: nat, n: nat, k: nat)
    requires k < m * n
    ensures 0 < n && k / n < m
  {
    assert m * 0 == 0;
    if m <= k / n {
      MulMono(m, k / n, n);
      assert false;
    }
  }

  /** The phase of sample `k`: every sample moves it on by the step of its own bit's tone. */
  function FskPhase(env: Env, s: Scheme, bits: seq<bool>, phy: Phy, n: nat, k: nat): real
    requires s.Fsk? && 0.0 < phy.sampleRate && k <= |bits| * n
    decreases k
  {
    if k == 0 then 0.0
    else
      FskPhase(env, s, bits, phy, n, k - 1) +
      2.0 * env.pi * (phy.centralFreq - ToneOf(s, BitAt(bits, n, k - 1))) / phy.sampleRate
  }

  lemma NextBit(bits: seq<bool>, n: nat, k: nat)
    requires bits != []
    ensures |bits| * n == n + |bits[1..]| * n
    ensures k < n ==> BitAt(bits, n, k) == bits[0]
    ensures n <= k < |bits| * n ==> BitAt(bits, n, k) == BitAt(bits[1..], n, k - n)
  {
    assert |bits| * n == (|bits| - 1) * n + n by { Distribute(|bits|, 1, n); }
    MulMono(0, |bits| - 1, n);
    if k < n {
      DivModUnique(k, 0, k, n);
    } else if k < |bits| * n {
      BitExists(|bits|, n, k);
      assert k == k / n * n + k % n;
      Distribute(k / n, 1, n);
      DivModUnique(k - n, k / n - 1, k % n, n);
    }
  }

  lemma SymbolsCons(s: Scheme, bits: seq<bool>)
    requires s.Fsk? && ValidScheme(s)
    ensures bits == [] ==> FskSymbols(s, bits) == [Symbol(SetAmp(0.0), 100.0)]
    ensures bits != [] ==> FskSymbols(s, bits) == [FskSymbol(s, bits[0])] + FskSymbols(s, bits[1..])
    ensures SaneSymbols(FskSymbols(s, bits))
  {
    SymbolsSane(s, bits, 0.0);
    if bits != [] {
      assert FskTones(s, bits) == [FskSymbol(s, bits[0])] + FskTones(s, bits[1..]);
    }
  }

  /** The tones of the bits come first. */
  lemma {:induction false} TonesFit(s: Scheme, bits: seq<bool>, rate: real)
    requires s.Fsk? && ValidScheme(s) && 0.0 <= rate
    ensures SaneSymbols(FskSymbols(s, bits))
    ensures |bits| * BitSamples(s, rate) <= TotalSamples(rate, FskSymbols(s, bits))
    decreases |bits|
  {
    hide FskSymbols, SaneSymbols, FskUs, SymbolSamples;
    SymbolsCons(s, bits);
    if bits != [] {
      var n := BitSamples(s, rate);
      TonesFit(s, bits[1..], rate);
      NextBit(bits, n, 0);
      TotalCons(rate, FskSymbol(s, bits[0]), FskSymbols(s, bits[1..]));
    }
  }

  lemma TotalCons(rate: real, first: Symbol, rest: seq<Symbol>)
    requires 0.0 <= rate && SaneSymbols([first] + rest) && SaneSymbols(rest) && 0.0 <= first.us
    ensures TotalSamples(rate, [first] + rest) == SymbolSamples(first.us, rate) + TotalSamples(rate, rest)
  {
    assert ([first] + rest)[1..] == rest;
  }

  lemma RegistersCons(a: Analog, first: Symbol, rest: seq<Symbol>, k: nat)
    requires 0.0 < a.rate && SaneSymbols([first] + rest) && SaneSymbols(rest) && SaneSymbol(first)
    requires k < TotalSamples(a.rate, [first] + rest)
    ensures var n := SymbolSamples(first.us, a.rate);
            && (n <= k ==> k - n < TotalSamples(a.rate, rest))
            && RegistersAt(a, [first] + rest, k) ==
               if k < n then SetRegister(a, first.set_) else RegistersAt(SetRegister(a, first.set_), rest, k - n)
  {
    hide SymbolSamples;
    assert ([first] + rest)[1..] == rest;
  }

  /** Which tone sounds with sample `k`, and that silence follows. */
  lemma {:induction false} TonesAt(s: Scheme, bits: seq<bool>, a: Analog, k: nat)
    requires s.Fsk? && ValidScheme(s) && 0.0 < a.rate
    requires SaneSymbols(FskSymbols(s, bits)) && k < TotalSamples(a.rate, FskSymbols(s, bits))
    ensures var n, there := BitSamples(s, a.rate), RegistersAt(a, FskSymbols(s, bits), k);
            if k < |bits| * n then there == a.(freq := ToneOf(s, BitAt(bits, n, k))) else there.amp == 0.0
    decreases |bits|
  {
    hide FskSymbols, SaneSymbols, FskUs, SymbolSamples, TotalSamples, RegistersAt, BitAt;
    SymbolsCons(s, bits);
    var n := BitSamples(s, a.rate);
    if bits == [] {
      SilenceAt(a, k);
    } else {
      var first, rest := FskSymbol(s, bits[0]), FskSymbols(s, bits[1..]);
      SymbolsCons(s, bits[1..]);
      RegistersCons(a, first, rest, k);
      NextBit(bits, n, k);
      if n <= k {
        TonesAt(s, bits[1..], a.(freq := ToneOf(s, bits[0])), k - n);
      }
    }
  }

  lemma SilenceAt(a: Analog, k: nat)
    requires 0.0 < a.rate && SaneSymbols([Symbol(SetAmp(0.0), 100.0)])
    requires k < TotalSamples(a.rate, [Symbol(SetAmp(0.0), 100.0)])
    ensures RegistersAt(a, [Symbol(SetAmp(0.0), 100.0)], k).amp == 0.0
  {
    hide SymbolSamples;
    var stop := [Symbol(SetAmp(0.0), 100.0)];
    assert TotalSamples(a.rate, stop[1..]) == 0;
  }

  lemma StepOfTone(env: Env, a: Analog, tone: real)
    requires a.rate != 0.0
    ensures RadianStep(env, a.(freq := tone)) == 2.0 * env.pi * (a.carrier - tone) / a.rate
  {
  }

  lemma {:induction false} PhaseOfTones(env: Env, s: Scheme, bits: seq<bool>, phy: Phy, a: Analog, k: nat)
    requires s.Fsk? && ValidScheme(s) && 0.0 < a.rate == phy.sampleRate && a.carrier == phy.centralFreq
    requires a.phase == 0.0 && k <= |bits| * BitSamples(s, a.rate)
    ensures SaneSymbols(FskSymbols(s, bits)) && k <= TotalSamples(a.rate, FskSymbols(s, bits))
    ensures PhaseSum(env, a, FskSymbols(s, bits), k) == FskPhase(env, s, bits, phy, BitSamples(s, a.rate), k)
    decreases k
  {
    hide FskSymbols, SaneSymbols, BitSamples, TotalSamples, RegistersAt, BitAt, ToneOf, RadianStep;
    TonesFit(s, bits, a.rate);
    if k > 0 {
      PhaseOfTones(env, s, bits, phy, a, k - 1);
      TonesAt(s, bits, a, k - 1);
      StepOfTone(env, a, ToneOf(s, BitAt(bits, BitSamples(s, a.rate), k - 1)));
    }
  }

  /** Frequency-shift keying: sample `k` of a message is a point at the phase that the
      tones of its bits have reached, without a jump where the tone changes; the stop
      symbol is silent. */
  lemma FskKeysTones(env: Env, s: Scheme, bits: seq<bool>, phy: Phy, amp: real, k: nat)
    requires s.Fsk? && ValidScheme(s) && 0.0 < phy.sampleRate && k < |MessageWave(env, s, bits, phy, amp)|
    ensures var n := BitSamples(s, phy.sampleRate);
            MessageWave(env, s, bits, phy, amp)[k] ==
              if k < |bits| * n then Point(env, amp, FskPhase(env, s, bits, phy, n, k)) else Iq(0, 0)
  {
    hide Wave, FskSymbols, SaneSymbols, BitSamples, TotalSamples, RegistersAt, SetAll, MessageWave, PhaseSum, FskPhase;
    WaveOfMessage(env, s, bits, phy, amp);
    HeaderSets(s, phy, amp, BLANK);
    var a, symbols := SetAll(BLANK, HeaderOf(s, phy, amp)), SymbolsOf(s, bits, amp);
    WaveLength(env, a, symbols);
    PhaseIsContinuous(env, a, symbols, k);
    TonesAt(s, bits, a, k);
    if k < |bits| * BitSamples(s, phy.sampleRate) {
      PhaseOfTones(env, s, bits, phy, a, k);
    }
  }
}
