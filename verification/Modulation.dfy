// The two compilers for the command machine, on-off keying and frequency-shift
// keying, and the resumable interpreter that fills buffers.

module Modulations {
  import opened Basics
  import opened Synthesis
  import opened Waveform
  import opened Program

  datatype Phy = Phy(centralFreq: real, sampleRate: real, ifBw: real, gain: real)

  /** The lengths, in microseconds, that stand for a zero and for a one. */
  datatype Pulse = Pulse(bit0: real, bit1: real)

  datatype Scheme =
    | Ook(centralFreq: real, on: Pulse, off: Pulse, stop: real)
    | Fsk(centralFreq: real, bauds: real, spacing: real, bps: nat)

  /** Symbol times that can be converted to sample counts. */
  predicate ValidScheme(s: Scheme) {
    match s
    case Ook(_, on, off, stop) => 0.0 <= on.bit0 && 0.0 <= on.bit1 && 0.0 <= off.bit0 && 0.0 <= off.bit1 && 0.0 <= stop
    case Fsk(_, bauds, _, bps) => 0.0 < bauds && 0 < bps
  }

  const BLANK: Analog := Analog(0.0, 0.0, 0.0, 0.0, 0.0)

  function CentralFrequency(s: Scheme): real {
    s.centralFreq
  }

  const CHANNEL_WIDTH: real := 20000.0

  predicate CheckPhyParameters(s: Scheme, phy: Phy) {
    !(CentralFrequency(s) + CHANNEL_WIDTH / 2.0 > phy.centralFreq + phy.sampleRate / 2.0 ||
      CentralFrequency(s) - CHANNEL_WIDTH / 2.0 < phy.centralFreq - phy.sampleRate / 2.0)
  }

  // ----------------------------------------------------------- on-off keying

  /** Pulse number `k` of a message: on, off, on, ... A pulse time is cut to whole
      microseconds, the stop pulse is not. */
  function OokSymbol(s: Scheme, k: nat, bit: bool, amp: real): Symbol
    requires s.Ook?
  {
    var pulse := if k % 2 == 0 then s.on else s.off;
    Symbol(SetAmp(if k % 2 == 0 then amp else 0.0), Trunc(if bit then pulse.bit1 else pulse.bit0) as real)
  }

  function OokPulses(s: Scheme, bits: seq<bool>, amp: real): (pulses: seq<Symbol>)
    requires s.Ook?
    ensures |pulses| == |bits|
  {
    seq(|bits|, k requires 0 <= k < |bits| => OokSymbol(s, k, bits[k], amp))
  }

  function OokSymbols(s: Scheme, bits: seq<bool>, amp: real): seq<Symbol>
    requires s.Ook?
  {
    OokPulses(s, bits, amp) + [Symbol(SetAmp(if |bits| % 2 == 0 then amp else 0.0), s.stop)]
  }

  function OokHeader(s: Scheme, phy: Phy): seq<Command> {
    [SetFreq(s.centralFreq), SetCarrierFreq(phy.centralFreq), SetSampleRate(phy.sampleRate), SetPhase(0.0)]
  }

  // --------------------------------------------------- frequency-shift keying

  lemma QuotientNotNegative(a: real, b: real)
    requires 0.0 <= a && 0.0 < b
    ensures 0.0 <= a / b
  {
  }

  function FskUs(s: Scheme): (us: real)
    requires s.Fsk? && ValidScheme(s)
    ensures 0.0 <= us
  {
    QuotientNotNegative(1000000.0, s.bauds);
    QuotientNotNegative(1000000.0 / s.bauds, s.bps as real);
    Trunc(1000000.0 / s.bauds / s.bps as real) as real
  }

  function FskSymbol(s: Scheme, bit: bool): Symbol
    requires s.Fsk? && ValidScheme(s)
  {
    Symbol(SetFreq(s.centralFreq + if bit then s.spacing / 2.0 else -s.spacing / 2.0), FskUs(s))
  }

  function FskTones(s: Scheme, bits: seq<bool>): (tones: seq<Symbol>)
    requires s.Fsk? && ValidScheme(s)
    ensures |tones| == |bits|
  {
    seq(|bits|, k requires 0 <= k < |bits| => FskSymbol(s, bits[k]))
  }

  function FskSymbols(s: Scheme, bits: seq<bool>): seq<Symbol>
    requires s.Fsk? && ValidScheme(s)
  {
    FskTones(s, bits) + [Symbol(SetAmp(0.0), 100.0)]
  }

  function FskHeader(phy: Phy, amp: real): seq<Command> {
    [SetCarrierFreq(phy.centralFreq), SetSampleRate(phy.sampleRate), SetPhase(0.0), SetAmp(amp)]
  }

  // -------------------------------------------------------------- both schemes

  function HeaderOf(s: Scheme, phy: Phy, amp: real): seq<Command> {
    if s.Ook? then OokHeader(s, phy) else FskHeader(phy, amp)
  }

  function SymbolsOf(s: Scheme, bits: seq<bool>, amp: real): seq<Symbol>
    requires ValidScheme(s)
  {
    if s.Ook? then OokSymbols(s, bits, amp) else FskSymbols(s, bits)
  }

  /** A message the scheme can send: anything but several bits per FSK symbol. */
  predicate Sendable(s: Scheme, bits: seq<bool>) {
    ValidScheme(s) && (s.Fsk? ==> s.bps == 1 || bits == [])
  }

  lemma SymbolsSane(s: Scheme, bits: seq<bool>, amp: real)
    requires ValidScheme(s)
    ensures SaneSymbols(SymbolsOf(s, bits, amp))
  {
    hide FskUs;
    var symbols := SymbolsOf(s, bits, amp);
    forall i | 0 <= i < |symbols|
      ensures SaneSymbol(symbols[i])
    {
      if i < |bits| {
        assert symbols[i] == if s.Ook? then OokSymbol(s, i, bits[i], amp) else FskSymbol(s, bits[i]);
      }
    }
  }

  lemma HeaderSets(s: Scheme, phy: Phy, amp: real, a: Analog)
    requires 0.0 < phy.sampleRate
    ensures SaneHeader(HeaderOf(s, phy, amp))
    ensures SetAll(a, HeaderOf(s, phy, amp)) ==
            if s.Ook? then Analog(s.centralFreq, 0.0, a.amp, phy.centralFreq, phy.sampleRate)
            else Analog(a.freq, 0.0, amp, phy.centralFreq, phy.sampleRate)
  {
    var header := HeaderOf(s, phy, amp);
    FourSettings(a, header[0], header[1], header[2], header[3]);
    assert header == [header[0], header[1], header[2], header[3]];
  }

  lemma SetAllCons(a: Analog, c: Command, rest: seq<Command>)
    ensures SetAll(a, [c] + rest) == SetAll(SetRegister(a, c), rest)
  {
    assert ([c] + rest)[1..] == rest;
  }

  lemma FourSettings(a: Analog, c0: Command, c1: Command, c2: Command, c3: Command)
    ensures SetAll(a, [c0, c1, c2, c3]) == SetRegister(SetRegister(SetRegister(SetRegister(a, c0), c1), c2), c3)
  {
    var a1 := SetRegister(a, c0);
    var a2 := SetRegister(a1, c1);
    var a3 := SetRegister(a2, c2);
    assert SetAll(SetRegister(a3, c3), []) == SetRegister(a3, c3);
    hide SetRegister, SetAll;
    SetAllCons(a, c0, [c1, c2, c3]);
    SetAllCons(a1, c1, [c2, c3]);
    SetAllCons(a2, c2, [c3]);
    SetAllCons(a3, c3, []);
    assert [c0] + [c1, c2, c3] == [c0, c1, c2, c3] && [c1] + [c2, c3] == [c1, c2, c3];
    assert [c2] + [c3] == [c2, c3] && [c3] + [] == [c3];
  }

  lemma FirstSymbol(s: Scheme, bits: seq<bool>, amp: real)
    requires ValidScheme(s)
    ensures var symbols := SymbolsOf(s, bits, amp);
            && symbols != []
            && (s.Ook? ==> symbols[0].set_.SetAmp?)
            && (s.Fsk? && bits != [] ==> symbols[0].set_.SetFreq?)
            && (s.Fsk? && bits == [] ==> |symbols| == 1 && symbols[0].set_ == SetAmp(0.0))
  {
  }

  /** The waveform of one pass over a message. */
  function MessageWave(env: Env, s: Scheme, bits: seq<bool>, phy: Phy, amp: real): seq<Iq>
    requires ValidScheme(s) && 0.0 < phy.sampleRate
  {
    HeaderSets(s, phy, amp, BLANK);
    SymbolsSane(s, bits, amp);
    Wave(env, SetAll(BLANK, HeaderOf(s, phy, amp)), SymbolsOf(s, bits, amp))
  }

  /** What a message sounds like with its repetitions. */
  function MessageSound(env: Env, s: Scheme, bits: seq<bool>, repeat: nat, phy: Phy, amp: real): seq<Iq>
    requires ValidScheme(s) && 0.0 < phy.sampleRate
  {
    Copies(MessageWave(env, s, bits, phy, amp), repeat + 1)
  }

  /** Either the first symbol overwrites the one register that the header leaves
      alone, or the only symbol is silent. */
  lemma SameSound(env: Env, a: Analog, b: Analog, symbols: seq<Symbol>)
    requires 0.0 < a.rate == b.rate && symbols != [] && SaneSymbols(symbols)
    requires || SetRegister(a, symbols[0].set_) == SetRegister(b, symbols[0].set_)
             || (|symbols| == 1 && symbols[0].set_ == SetAmp(0.0))
    ensures Wave(env, a, symbols) == Wave(env, b, symbols)
  {
    assert SaneSymbol(symbols[0]);
    WaveCons(env, a, symbols);
    WaveCons(env, b, symbols);
    hide Wave, PhaseAt, RadianStep, SymbolSamples;
    var n := SymbolSamples(symbols[0].us, a.rate);
    if SetRegister(a, symbols[0].set_) != SetRegister(b, symbols[0].set_) {
      var ta, tb := Tone(env, SetRegister(a, symbols[0].set_), n), Tone(env, SetRegister(b, symbols[0].set_), n);
      assert ta == tb;
      WaveNil(env, Sounded(env, SetRegister(a, symbols[0].set_), n), symbols[1..]);
      WaveNil(env, Sounded(env, SetRegister(b, symbols[0].set_), n), symbols[1..]);
    }
  }

  lemma WaveNil(env: Env, a: Analog, symbols: seq<Symbol>)
    requires 0.0 < a.rate && symbols == []
    ensures Wave(env, a, symbols) == []
  {
  }

  lemma MessageRestarts(env: Env, s: Scheme, bits: seq<bool>, phy: Phy, amp: real)
    requires ValidScheme(s) && 0.0 < phy.sampleRate
    ensures Restarts(env, HeaderOf(s, phy, amp), SymbolsOf(s, bits, amp), MessageWave(env, s, bits, phy, amp))
  {
    hide Wave, SetAll, HeaderOf, SymbolsOf, SaneSymbols, MessageWave;
    var header, symbols := HeaderOf(s, phy, amp), SymbolsOf(s, bits, amp);
    SymbolsSane(s, bits, amp);
    FirstSymbol(s, bits, amp);
    WaveOfMessage(env, s, bits, phy, amp);
    HeaderSets(s, phy, amp, BLANK);
    forall a: Analog | 0.0 <= a.rate
      ensures 0.0 < SetAll(a, header).rate
      ensures Wave(env, SetAll(a, header), symbols) == MessageWave(env, s, bits, phy, amp)
    {
      HeaderSets(s, phy, amp, a);
      SameSound(env, SetAll(a, header), SetAll(BLANK, header), symbols);
    }
  }

  lemma WaveOfMessage(env: Env, s: Scheme, bits: seq<bool>, phy: Phy, amp: real)
    requires ValidScheme(s) && 0.0 < phy.sampleRate
    ensures SetAll(BLANK, HeaderOf(s, phy, amp)).rate == phy.sampleRate && SaneSymbols(SymbolsOf(s, bits, amp))
    ensures s.Ook? ==>
              SetAll(BLANK, HeaderOf(s, phy, amp)) ==
              Analog(s.centralFreq, 0.0, 0.0, phy.centralFreq, phy.sampleRate)
    ensures MessageWave(env, s, bits, phy, amp) ==
            Wave(env, SetAll(BLANK, HeaderOf(s, phy, amp)), SymbolsOf(s, bits, amp))
  {
    hide Wave, SetAll, HeaderOf, SymbolsOf, SaneSymbols;
    HeaderSets(s, phy, amp, BLANK);
    SymbolsSane(s, bits, amp);
  }

  /** Compile and run: a prepared message emits its waveform R + 1 times, whatever the
      oscillator held before; its length is R + 1 times the sum of the symbol lengths. */
  lemma PreparedMessageEmitsItsSound(
      env: Env, s: Scheme, bits: seq<bool>, repeat: nat, phy: Phy, amp: real, a: Analog)
    requires ValidScheme(s) && 0.0 < phy.sampleRate && 0.0 <= a.rate
    ensures Emits(env, At(Compiled(HeaderOf(s, phy, amp), SymbolsOf(s, bits, amp), repeat), a, 0, 0),
                  MessageSound(env, s, bits, repeat, phy, amp))
    ensures SaneSymbols(SymbolsOf(s, bits, amp))
    ensures |MessageSound(env, s, bits, repeat, phy, amp)| ==
            (repeat + 1) * TotalSamples(phy.sampleRate, SymbolsOf(s, bits, amp))
  {
    MessageRestarts(env, s, bits, phy, amp);
    HeaderSets(s, phy, amp, BLANK);
    var wave := MessageWave(env, s, bits, phy, amp);
    CompiledEmitsCopies(env, HeaderOf(s, phy, amp), SymbolsOf(s, bits, amp), repeat, wave, a);
    CopiesLength(wave, repeat + 1);
    WaveLength(env, SetAll(BLANK, HeaderOf(s, phy, amp)), SymbolsOf(s, bits, amp));
  }

  /** How long bit `k` of a message sounds, in whole microseconds: on-off keying uses its
      two pairs of times in turns, and frequency-shift keying gives every bit the same. */
  function BitTime(s: Scheme, k: nat, bit: bool): int
    requires ValidScheme(s)
  {
    match s
    case Ook(_, on, off, _) =>
      (match (k % 2 == 0, bit)
       case (true, false) => on.bit0
       case (true, true) => on.bit1
       case (false, false) => off.bit0
       case (false, true) => off.bit1).Floor
    case Fsk(_, bauds, _, bps) => (1000000.0 / bauds / bps as real).Floor
  }

  function BitsTime(s: Scheme, bits: seq<bool>): int
    requires ValidScheme(s)
  {
    if bits == [] then 0 else BitsTime(s, bits[..|bits| - 1]) + BitTime(s, |bits| - 1, bits[|bits| - 1])
  }

  /** The time of one pass over a message, in microseconds. */
  function MessageTime(s: Scheme, bits: seq<bool>): real
    requires ValidScheme(s)
  {
    BitsTime(s, bits) as real + if s.Ook? then s.stop else 100.0
  }

  lemma SymbolTime(s: Scheme, k: nat, bit: bool, amp: real)
    requires ValidScheme(s)
    ensures s.Ook? ==> OokSymbol(s, k, bit, amp).us == BitTime(s, k, bit) as real
    ensures s.Fsk? ==> FskSymbol(s, bit).us == BitTime(s, k, bit) as real
  {
    if s.Fsk? {
      hide FskUs;
      ToneTime(s);
    }
  }

  lemma ToneTime(s: Scheme)
    requires s.Fsk? && ValidScheme(s)
    ensures FskUs(s) == (1000000.0 / s.bauds / s.bps as real).Floor as real
  {
    QuotientNotNegative(1000000.0, s.bauds);
    QuotientNotNegative(1000000.0 / s.bauds, s.bps as real);
  }

  lemma {:induction false} TimeOfPulses(s: Scheme, bits: seq<bool>, amp: real)
    requires ValidScheme(s)
    ensures TimeOf(if s.Ook? then OokPulses(s, bits, amp) else FskTones(s, bits)) == BitsTime(s, bits) as real
    decreases |bits|
  {
    hide BitTime, OokSymbol, FskSymbol, TimeOf, FskUs;
    if bits == [] {
      TimeOfNothing();
    } else {
      var n := |bits| - 1;
      TimeOfPulses(s, bits[..n], amp);
      SymbolTime(s, n, bits[n], amp);
      if s.Ook? {
        TimeOfAppend(OokPulses(s, bits[..n], amp), OokSymbol(s, n, bits[n], amp));
        assert OokPulses(s, bits, amp) == OokPulses(s, bits[..n], amp) + [OokSymbol(s, n, bits[n], amp)];
      } else {
        TimeOfAppend(FskTones(s, bits[..n]), FskSymbol(s, bits[n]));
        assert FskTones(s, bits) == FskTones(s, bits[..n]) + [FskSymbol(s, bits[n])];
      }
    }
  }

  lemma TimeOfNothing()
    ensures TimeOf([]) == 0.0
  {
  }

  /** The length of a prepared message: its time at the rate of the radio, less a fraction
      of a sample for each of its symbols, once for every copy. */
  lemma MessageLasts(env: Env, s: Scheme, bits: seq<bool>, repeat: nat, phy: Phy, amp: real)
    requires ValidScheme(s) && 0.0 < phy.sampleRate
    ensures var n := |MessageWave(env, s, bits, phy, amp)|;
            && |MessageSound(env, s, bits, repeat, phy, amp)| == (repeat + 1) * n
            && n as real * 1000000.0 <= MessageTime(s, bits) * phy.sampleRate
            && MessageTime(s, bits) * phy.sampleRate < (n + |bits| + 1) as real * 1000000.0
  {
    hide MessageWave, SetAll, HeaderOf, Wave, TotalSamples, OokPulses, FskTones, BitsTime, TimeOf, SaneSymbols;
    CopiesLength(MessageWave(env, s, bits, phy, amp), repeat + 1);
    WaveOfMessage(env, s, bits, phy, amp);
    WaveLength(env, SetAll(BLANK, HeaderOf(s, phy, amp)), SymbolsOf(s, bits, amp));
    var symbols := SymbolsOf(s, bits, amp);
    TotalInTime(phy.sampleRate, symbols);
    TimeOfPulses(s, bits, amp);
    if s.Ook? {
      TimeOfAppend(OokPulses(s, bits, amp), Symbol(SetAmp(if |bits| % 2 == 0 then amp else 0.0), s.stop));
    } else {
      TimeOfAppend(FskTones(s, bits), Symbol(SetAmp(0.0), 100.0));
    }
    assert TimeOf(symbols) == MessageTime(s, bits);
    assert |symbols| == |bits| + 1;
  }

  lemma GenDone(env: Env, m: Machine, n: nat)
    requires Sane(m)
    ensures n == 0 ==> Gen(env, m, n) == Run([], m, false)
    ensures n > 0 && m.cur >= |m.cmds| ==> Gen(env, m, n) == Run([], m, true)
    ensures n > 0 && m.cur < |m.cmds| && m.remaining == 0 && m.cmds[m.cur].Stop? ==> Gen(env, m, n) == Run([], m, false)
  {
  }

  /** On-off keying is one carrier: sample `k` of the waveform is the carrier at phase
      `k` steps, at the amplitude of the pulse that contains it. */
  lemma OokKeysOneCarrier(env: Env, s: Scheme, bits: seq<bool>, phy: Phy, amp: real, k: nat)
    requires s.Ook? && ValidScheme(s) && 0.0 < phy.sampleRate
    requires SaneSymbols(SymbolsOf(s, bits, amp)) && k < TotalSamples(phy.sampleRate, SymbolsOf(s, bits, amp))
    ensures k < |MessageWave(env, s, bits, phy, amp)|
    ensures MessageWave(env, s, bits, phy, amp)[k] ==
            Point(env, AmpAt(phy.sampleRate, SymbolsOf(s, bits, amp), k),
                  CarrierPhase(env, phy.centralFreq - s.centralFreq, phy.sampleRate, k))
  {
    hide CarrierPhase, Point, PhaseAt, RadianStep, Wave, SetAll, HeaderOf, SymbolsOf, SaneSymbols, TotalSamples,
      MessageWave;
    var header, symbols := HeaderOf(s, phy, amp), SymbolsOf(s, bits, amp);
    WaveOfMessage(env, s, bits, phy, amp);
    OokSetsAmplitudes(s, bits, amp);
    var a := Analog(s.centralFreq, 0.0, 0.0, phy.centralFreq, phy.sampleRate);
    CarrierRunsOn(env, a, symbols, k);
    CarrierAt(env, a, k);
  }

  /** The phase of sample `k` of a carrier that is `offset` hertz off. */
  function CarrierPhase(env: Env, offset: real, rate: real, k: nat): real
    requires rate != 0.0
  {
    k as real * (2.0 * env.pi * offset / rate)
  }

  lemma CarrierAt(env: Env, a: Analog, k: nat)
    requires a.rate != 0.0 && a.phase == 0.0
    ensures PhaseAt(env, a, k) == CarrierPhase(env, a.carrier - a.freq, a.rate, k)
  {
    assert RadianStep(env, a) == 2.0 * env.pi * (a.carrier - a.freq) / a.rate;
  }

  lemma OokSetsAmplitudes(s: Scheme, bits: seq<bool>, amp: real)
    requires s.Ook? && ValidScheme(s)
    ensures forall i :: 0 <= i < |SymbolsOf(s, bits, amp)| ==> SymbolsOf(s, bits, amp)[i].set_.SetAmp?
  {
    var symbols := SymbolsOf(s, bits, amp);
    forall i | 0 <= i < |symbols|
      ensures symbols[i].set_.SetAmp?
    {
      if i < |bits| {
        assert symbols[i] == OokSymbol(s, i, bits[i], amp);
      }
    }
  }

  /** No command ever stores a negative rate. */
  type Rate = r: real | 0.0 <= r

  class Modulation {
    const env: Env
    const scheme: Scheme

    var freq: real
    var phase: real
    var amp: real
    var carrierFreq: real
    var sampleRate: Rate
    var cmds: seq<Command>
    var remainingSamples: nat
    var curIndex: nat
    var repeatCount: nat

    function State(): Machine
      reads this
    {
      Machine(cmds, Registers(), remainingSamples, curIndex, repeatCount)
    }

    function Registers(): Analog
      reads this
    {
      Analog(freq, phase, amp, carrierFreq, sampleRate)
    }

    constructor (env: Env, scheme: Scheme)
      ensures this.env == env && this.scheme == scheme
      ensures State() == Machine([], BLANK, 0, 0, 0)
    {
      this.env, this.scheme := env, scheme;
      freq, phase, amp, carrierFreq, sampleRate := 0.0, 0.0, 0.0, 0.0, 0.0;
      cmds, remainingSamples, curIndex, repeatCount := [], 0, 0, 0;
    }

    method ResetState()
      modifies this`cmds, this`remainingSamples, this`curIndex, this`repeatCount
      ensures State() == Machine([], Registers(), 0, 0, 0)
    {
      remainingSamples, curIndex, cmds, repeatCount := 0, 0, [], 0;
    }

    method Push(cmd: Command)
      modifies this`cmds
      ensures cmds == old(cmds) + [cmd]
    {
      cmds := cmds + [cmd];
    }

    method EndMessage(repeat: nat)
      modifies this`cmds
      ensures cmds == old(cmds) + Ending(repeat)
    {
      if repeat > 0 {
        Push(Repeat(repeat));
      }
      Push(Stop);
    }

    method PrepareOok(bits: seq<bool>, repeat: nat, phy: Phy, amplitude: real)
      requires scheme.Ook? && ValidScheme(scheme)
      modifies this`cmds, this`remainingSamples, this`curIndex, this`repeatCount
      ensures State() ==
              At(Compiled(OokHeader(scheme, phy), OokSymbols(scheme, bits, amplitude), repeat), Registers(), 0, 0)
    {
      ResetState();
      Push(SetFreq(scheme.centralFreq));
      Push(SetCarrierFreq(phy.centralFreq));
      Push(SetSampleRate(phy.sampleRate));
      Push(SetPhase(0.0));
      assert cmds == OokHeader(scheme, phy);
      hide OokPulses, Body;
      var isOn := PushPulses(bits, amplitude);
      BodySnoc(OokPulses(scheme, bits, amplitude), Symbol(SetAmp(if isOn then amplitude else 0.0), scheme.stop));
      Push(SetAmp(if isOn then amplitude else 0.0));
      Push(GenSymbol(scheme.stop));
      assert cmds == OokHeader(scheme, phy) + Body(OokSymbols(scheme, bits, amplitude));
      EndMessage(repeat);
    }

    /** The pulses of the bits, on and off in turns. */
    method PushPulses(bits: seq<bool>, amplitude: real) returns (isOn: bool)
      requires scheme.Ook?
      modifies this`cmds
      ensures isOn == (|bits| % 2 == 0)
      ensures cmds == old(cmds) + Body(OokPulses(scheme, bits, amplitude))
    {
      ghost var pulses := OokPulses(scheme, bits, amplitude);
      isOn := true;
      for i := 0 to |bits|
        invariant isOn == (i % 2 == 0)
        invariant cmds == old(cmds) + Body(pulses[..i])
      {
        var pulse := if isOn then scheme.on else scheme.off;
        var symbolUs := Trunc(if bits[i] then pulse.bit1 else pulse.bit0);
        Push(SetAmp(if isOn then amplitude else 0.0));
        Push(GenSymbol(symbolUs as real));
        isOn := !isOn;
        assert pulses[..i + 1] == pulses[..i] + [pulses[i]];
        BodySnoc(pulses[..i], pulses[i]);
      }
      assert pulses[..|bits|] == pulses;
    }

    /** Gives up, in the middle of its program, on more than one bit per symbol. */
    method PrepareFsk(bits: seq<bool>, repeat: nat, phy: Phy, amplitude: real) returns (ok: bool)
      requires scheme.Fsk? && ValidScheme(scheme)
      modifies this`cmds, this`remainingSamples, this`curIndex, this`repeatCount
      ensures ok <==> scheme.bps == 1 || bits == []
      ensures ok ==>
                State() == At(Compiled(FskHeader(phy, amplitude), FskSymbols(scheme, bits), repeat), Registers(), 0, 0)
      ensures !ok ==> State() == At(FskHeader(phy, amplitude), Registers(), 0, 0)
    {
      var symbolUs := Trunc(1000000.0 / scheme.bauds / scheme.bps as real);
      ResetState();
      Push(SetCarrierFreq(phy.centralFreq));
      Push(SetSampleRate(phy.sampleRate));
      Push(SetPhase(0.0));
      Push(SetAmp(amplitude));
      assert cmds == FskHeader(phy, amplitude);
      assert symbolUs as real == FskUs(scheme);
      hide FskTones, Body, FskUs, Trunc;
      ok := PushTones(bits, symbolUs);
      if ok {
        BodySnoc(FskTones(scheme, bits), Symbol(SetAmp(0.0), 100.0));
        Push(SetAmp(0.0));
        Push(GenSymbol(100.0));
        assert cmds == FskHeader(phy, amplitude) + Body(FskSymbols(scheme, bits));
        EndMessage(repeat);
      }
    }

    method PushTones(bits: seq<bool>, symbolUs: int) returns (ok: bool)
      requires scheme.Fsk? && ValidScheme(scheme) && symbolUs as real == FskUs(scheme)
      modifies this`cmds
      ensures ok <==> scheme.bps == 1 || bits == []
      ensures cmds == old(cmds) + if ok then Body(FskTones(scheme, bits)) else []
    {
      ghost var tones := FskTones(scheme, bits);
      for i := 0 to |bits|
        invariant cmds == old(cmds) + Body(tones[..i])
        invariant i > 0 ==> scheme.bps == 1
      {
        if scheme.bps != 1 {
          return false;
        }
        var freqOffset := if !bits[i] then -scheme.spacing / 2.0 else scheme.spacing / 2.0;
        Push(SetFreq(scheme.centralFreq + freqOffset));
        Push(GenSymbol(symbolUs as real));
        assert tones[..i + 1] == tones[..i] + [tones[i]];
        BodySnoc(tones[..i], tones[i]);
      }
      assert tones[..|bits|] == tones;
      ok := true;
    }

    /** A sendable message is ready to emit exactly its sound, whatever this object
        was doing before. */
    method PrepareMessage(bits: seq<bool>, repeat: nat, phy: Phy, amplitude: real) returns (ok: bool)
      requires ValidScheme(scheme) && 0.0 < phy.sampleRate
      modifies this`cmds, this`remainingSamples, this`curIndex, this`repeatCount
      ensures ok <==> Sendable(scheme, bits)
      ensures ok ==> Emits(env, State(), MessageSound(env, scheme, bits, repeat, phy, amplitude))
      ensures !ok ==> State() == At(FskHeader(phy, amplitude), Registers(), 0, 0)
    {
      if scheme.Ook? {
        PrepareOok(bits, repeat, phy, amplitude);
        ok := true;
      } else {
        ok := PrepareFsk(bits, repeat, phy, amplitude);
      }
      PreparedMessageEmitsItsSound(env, scheme, bits, repeat, phy, amplitude, Registers());
    }

    /** Generates `len` samples of the current tone. */
    method Modulate(samples: array<Iq>, offset: nat, len: nat)
      requires offset + len <= samples.Length && sampleRate != 0.0
      modifies samples, this`phase
      ensures samples[offset..offset + len] == Tone(env, old(Registers()), len)
      ensures Registers() == Sounded(env, old(Registers()), len)
      ensures samples[..offset] == old(samples[..offset]) && samples[offset + len..] == old(samples[offset + len..])
    {
      ghost var start := Registers();
      var radianStep := RadianStep(env, Registers());
      PhaseStep(env, start, 0);
      for i := 0 to len
        invariant Registers() == Sounded(env, start, i)
        invariant forall k :: 0 <= k < i ==> samples[offset + k] == Point(env, start.amp, PhaseAt(env, start, k))
        invariant samples[..offset] == old(samples[..offset])
        invariant samples[offset + len..] == old(samples[offset + len..])
        modifies samples, this`phase
      {
        hide PhaseAt, RadianStep;
        samples[offset + i] := Point(env, amp, phase);
        PhaseNext(env, start, i);
        phase := phase + radianStep;
      }
    }

    /** The resumable interpreter. It fills the buffer up to `len`, or up to the STOP
        that ends the message; running off the program counts as nothing. */
    method GetNextSamples(samples: array<Iq>, len: nat) returns (out: nat)
      requires len <= samples.Length && Sane(State())
      modifies samples, this
      ensures var r := Gen(env, old(State()), len);
              && State() == r.machine
              && samples[..|r.samples|] == r.samples
              && samples[|r.samples|..] == old(samples[|r.samples|..])
              && out == if r.ranOff then 0 else |r.samples|
    {
      hide Gen, Budget, Sane;
      var offset: nat := 0;
      ghost var whole := Gen(env, State(), len);
      assert samples[..0] == [] && Prepend([], whole) == whole;
      while offset < len
        invariant offset <= len && Sane(State())
        invariant whole == Prepend(samples[..offset], Gen(env, State(), len - offset))
        invariant samples[offset..] == old(samples[offset..])
        decreases len - offset, Budget(State()), |cmds| - curIndex, if remainingSamples == 0 then 1 else 0
        modifies samples, this
      {
        GenDone(env, State(), len - offset);
        if curIndex >= |cmds| {
          return 0;
        } else if remainingSamples == 0 && cmds[curIndex].Stop? {
          return offset;
        } else {
          offset := Advance(samples, offset, len, whole);
        }
      }
      GenDone(env, State(), 0);
      out := offset;
    }

    /** One turn of the loop: a command, or as much of a symbol as fits. */
    method Advance(samples: array<Iq>, offset: nat, len: nat, ghost whole: Run) returns (next: nat)
      requires offset < len <= samples.Length && Sane(State()) && curIndex < |cmds|
      requires remainingSamples == 0 ==> !cmds[curIndex].Stop?
      requires whole == Prepend(samples[..offset], Gen(env, State(), len - offset))
      modifies samples, this
      ensures offset <= next <= len && Sane(State()) && cmds == old(cmds)
      ensures samples[next..] == old(samples[next..])
      ensures whole == Prepend(samples[..next], Gen(env, State(), len - next))
      ensures offset == next ==>
                || Budget(State()) < old(Budget(State()))
                || (Budget(State()) == old(Budget(State())) && curIndex == old(curIndex) + 1)
                || (Budget(State()) == old(Budget(State())) && curIndex == old(curIndex)
                    && remainingSamples > 0 && old(remainingSamples) == 0)
    {
      hide Gen, Budget, SymbolPart, Exec;
      ghost var before := State();
      if remainingSamples == 0 {
        GenExec(env, before, len - offset);
        ExecSane(before);
        Execute();
        next := offset;
      } else {
        next := Sound(samples, offset, len);
        RunPart(env, before, next - offset, len - offset);
        PrependTwice(old(samples[..offset]), Tone(env, old(Registers()), next - offset), Gen(env, State(), len - next));
      }
    }

    /** Executes the current command, which is not STOP. */
    method Execute()
      requires Sane(State()) && remainingSamples == 0 && curIndex < |cmds| && !cmds[curIndex].Stop?
      modifies this
      ensures cmds == old(cmds) && Sane(State()) && State() == Exec(old(State()))
    {
      ExecSane(State());
      assert SaneCommand(cmds[curIndex]);
      match cmds[curIndex] {
        case SetFreq(value) =>
          freq := value;
          curIndex := curIndex + 1;
        case SetPhase(value) =>
          phase := value;
          curIndex := curIndex + 1;
        case SetPhaseDiff(value) =>
          phase := phase + value;
          curIndex := curIndex + 1;
        case SetAmp(value) =>
          amp := value;
          curIndex := curIndex + 1;
        case SetCarrierFreq(value) =>
          carrierFreq := value;
          curIndex := curIndex + 1;
        case SetSampleRate(value) =>
          sampleRate := value;
          curIndex := curIndex + 1;
        case GenSymbol(us) =>
          remainingSamples := SymbolSamples(us, sampleRate);
          if remainingSamples == 0 {
            curIndex := curIndex + 1;
          }
        case Repeat(count) =>
          if repeatCount < count {
            curIndex := 0;
            repeatCount := repeatCount + 1;
          } else {
            curIndex := curIndex + 1;
          }
      }
    }

    /** Generates the current symbol, starting from where it was left. */
    method Sound(samples: array<Iq>, offset: nat, len: nat) returns (next: nat)
      requires offset < len <= samples.Length && Sane(State()) && 0 < remainingSamples
      modifies samples, this
      ensures offset < next <= len && next - offset <= old(remainingSamples)
      ensures cmds == old(cmds) && State() == SymbolPart(env, old(State()), next - offset)
      ensures samples[..next] == old(samples[..offset]) + Tone(env, old(Registers()), next - offset)
      ensures samples[next..] == old(samples[next..])
    {
      var genLen := remainingSamples;
      if offset + genLen > len {
        genLen := len - offset;
      }
      Modulate(samples, offset, genLen);
      assert samples[..offset + genLen] == samples[..offset] + samples[offset..offset + genLen];
      remainingSamples := remainingSamples - genLen;
      next := offset + genLen;
      if remainingSamples == 0 {
        curIndex := curIndex + 1;
      }
    }
  }
}
