// What a compiled message means: the waveform of its symbols, repeated.

module Waveform {
  import opened Synthesis

  /** A symbol sets one register and then sounds for some time. */
  datatype Symbol = Symbol(set_: Command, us: real)

  predicate SaneSymbol(symbol: Symbol) {
    (symbol.set_.SetAmp? || symbol.set_.SetFreq?) && 0.0 <= symbol.us
  }

  predicate SaneSymbols(symbols: seq<Symbol>) {
    forall i :: 0 <= i < |symbols| ==> SaneSymbol(symbols[i])
  }

  /** The commands of some symbols. */
  function Body(symbols: seq<Symbol>): (cmds: seq<Command>)
    ensures |cmds| == 2 * |symbols|
  {
    if symbols == [] then []
    else [symbols[0].set_, GenSymbol(symbols[0].us)] + Body(symbols[1..])
  }

  lemma {:induction false} BodySnoc(symbols: seq<Symbol>, last: Symbol)
    ensures Body(symbols + [last]) == Body(symbols) + [last.set_, GenSymbol(last.us)]
  {
    if symbols == [] {
    } else {
      assert (symbols + [last])[1..] == symbols[1..] + [last];
      BodySnoc(symbols[1..], last);
    }
  }

  /** The phase after `k` samples: it advances by the same step every time. */
  function PhaseAt(env: Env, a: Analog, k: nat): real
    requires a.rate != 0.0
  {
    a.phase + k as real * RadianStep(env, a)
  }

  /** A phase difference moves the phase of every sample. */
  lemma PhaseIsShifted(env: Env, a: Analog, shift: real, k: nat)
    requires a.rate != 0.0
    ensures SetRegister(a, SetPhaseDiff(shift)).rate == a.rate
    ensures PhaseAt(env, SetRegister(a, SetPhaseDiff(shift)), k) == PhaseAt(env, a, k) + shift
  {
  }

  /** A steady tone of `n` samples, by the closed form of its phase. */
  function Tone(env: Env, a: Analog, n: nat): (tone: seq<Iq>)
    requires a.rate != 0.0
    ensures |tone| == n
    ensures forall k :: 0 <= k < n ==> tone[k] == Point(env, a.amp, PhaseAt(env, a, k))
  {
    seq(n, k requires 0 <= k < n => Point(env, a.amp, PhaseAt(env, a, k)))
  }

  function Sounded(env: Env, a: Analog, n: nat): (after: Analog)
    requires a.rate != 0.0
    ensures after.rate == a.rate
  {
    a.(phase := PhaseAt(env, a, n))
  }

  /** The waveform of some symbols. */
  function Wave(env: Env, a: Analog, symbols: seq<Symbol>): seq<Iq>
    requires 0.0 < a.rate && SaneSymbols(symbols)
    decreases |symbols|
  {
    if symbols == [] then []
    else
      var set_ := SetRegister(a, symbols[0].set_);
      var n := SymbolSamples(symbols[0].us, a.rate);
      Tone(env, set_, n) + Wave(env, Sounded(env, set_, n), symbols[1..])
  }

  function AfterWave(env: Env, a: Analog, symbols: seq<Symbol>): (after: Analog)
    requires 0.0 < a.rate && SaneSymbols(symbols)
    ensures after.rate == a.rate
    decreases |symbols|
  {
    if symbols == [] then a
    else
      var set_ := SetRegister(a, symbols[0].set_);
      AfterWave(env, Sounded(env, set_, SymbolSamples(symbols[0].us, a.rate)), symbols[1..])
  }

  function TotalSamples(rate: real, symbols: seq<Symbol>): nat
    requires 0.0 <= rate && SaneSymbols(symbols)
    decreases |symbols|
  {
    if symbols == [] then 0 else SymbolSamples(symbols[0].us, rate) + TotalSamples(rate, symbols[1..])
  }

  lemma {:induction false} WaveLength(env: Env, a: Analog, symbols: seq<Symbol>)
    requires 0.0 < a.rate && SaneSymbols(symbols)
    ensures |Wave(env, a, symbols)| == TotalSamples(a.rate, symbols)
    decreases |symbols|
  {
    if symbols == [] {
    } else {
      var set_ := SetRegister(a, symbols[0].set_);
      WaveLength(env, Sounded(env, set_, SymbolSamples(symbols[0].us, a.rate)), symbols[1..]);
    }
  }

  /** How long some symbols sound, in microseconds. */
  function TimeOf(symbols: seq<Symbol>): real
    decreases |symbols|
  {
    if symbols == [] then 0.0 else symbols[0].us + TimeOf(symbols[1..])
  }

  /** Less than one sample is lost for each symbol. */
  lemma {:induction false} TotalInTime(rate: real, symbols: seq<Symbol>)
    requires 0.0 <= rate && SaneSymbols(symbols)
    ensures var n := TotalSamples(rate, symbols);
            && n as real * 1000000.0 <= TimeOf(symbols) * rate
            && TimeOf(symbols) * rate <= (n + |symbols|) as real * 1000000.0
            && (symbols != [] ==> TimeOf(symbols) * rate < (n + |symbols|) as real * 1000000.0)
    decreases |symbols|
  {
    hide SymbolSamples;
    if symbols != [] {
      assert SaneSymbol(symbols[0]);
      SymbolLasts(symbols[0].us, rate);
      TotalInTime(rate, symbols[1..]);
      assert TimeOf(symbols) * rate == symbols[0].us * rate + TimeOf(symbols[1..]) * rate;
    }
  }

  lemma {:induction false} TimeOfAppend(symbols: seq<Symbol>, last: Symbol)
    ensures TimeOf(symbols + [last]) == TimeOf(symbols) + last.us
  {
    if symbols == [] {
      assert TimeOf([last][1..]) == 0.0;
    } else {
      assert (symbols + [last])[1..] == symbols[1..] + [last];
      TimeOfAppend(symbols[1..], last);
    }
  }

  // ------------------------------------------------------ running the commands

  /** One sample now, the others later. */
  lemma PhaseStep(env: Env, a: Analog, k: nat)
    requires a.rate != 0.0
    ensures PhaseAt(env, a, 0) == a.phase
    ensures PhaseAt(env, a, 1) == a.phase + RadianStep(env, a)
    ensures PhaseAt(env, a, k + 1) == PhaseAt(env, Sounded(env, a, 1), k)
  {
    var step, next := RadianStep(env, a), Sounded(env, a, 1);
    assert RadianStep(env, next) == step;
    hide RadianStep;
    assert (k + 1) as real == k as real + 1.0;
    assert (k + 1) as real * step == k as real * step + step;
  }

  /** The phase accumulates step by step. */
  lemma PhaseNext(env: Env, a: Analog, k: nat)
    requires a.rate != 0.0
    ensures PhaseAt(env, a, k + 1) == PhaseAt(env, a, k) + RadianStep(env, a)
  {
    var step := RadianStep(env, a);
    hide RadianStep;
    assert (k + 1) as real == k as real + 1.0;
    assert (k + 1) as real * step == k as real * step + step;
  }

  lemma ToneStep(env: Env, a: Analog, n: nat)
    requires a.rate != 0.0 && 0 < n
    ensures Tone(env, a, n) == [Point(env, a.amp, a.phase)] + Tone(env, Sounded(env, a, 1), n - 1)
    ensures Sounded(env, Sounded(env, a, 1), n - 1) == Sounded(env, a, n)
  {
    hide Point, RadianStep, PhaseAt;
    var whole, rest := Tone(env, a, n), Tone(env, Sounded(env, a, 1), n - 1);
    PhaseStep(env, a, n - 1);
    forall k: nat | k < n - 1
      ensures whole[k + 1] == rest[k]
    {
      PhaseStep(env, a, k);
    }
    assert whole == [whole[0]] + rest;
  }

  function Prepend(samples: seq<Iq>, r: Run): Run {
    r.(samples := samples + r.samples)
  }

  lemma GenEmit(env: Env, m: Machine, n: nat)
    requires Sane(m) && 0 < m.remaining && 0 < n
    ensures Sane(Emit(env, m))
    ensures Gen(env, m, n) == Prepend([Point(env, m.analog.amp, m.analog.phase)], Gen(env, Emit(env, m), n - 1))
  {
    EmitSane(env, m);
  }

  /** The machine after `n` more samples of the symbol in progress. */
  function SymbolPart(env: Env, m: Machine, n: nat): Machine
    requires Sane(m) && 0 < n <= m.remaining
  {
    m.(analog := Sounded(env, m.analog, n), remaining := m.remaining - n,
       cur := if n == m.remaining then m.cur + 1 else m.cur)
  }

  lemma EmitTowardsPart(env: Env, m: Machine, n: nat)
    requires Sane(m) && 0 < n <= m.remaining
    ensures Emit(env, m).analog == Sounded(env, m.analog, 1)
    ensures n == 1 ==> Emit(env, m) == SymbolPart(env, m, 1)
    ensures n > 1 ==> Sane(Emit(env, m)) && SymbolPart(env, Emit(env, m), n - 1) == SymbolPart(env, m, n)
    ensures Sane(SymbolPart(env, m, n))
  {
    hide Point, RadianStep, PhaseAt;
    PhaseStep(env, m.analog, 0);
    ToneStep(env, m.analog, n);
  }

  /** A symbol in progress sounds on, to its end or not. */
  lemma {:induction false} RunPart(env: Env, m: Machine, part: nat, n: nat)
    requires Sane(m) && 0 < part <= m.remaining && part <= n
    ensures Sane(SymbolPart(env, m, part))
    ensures Gen(env, m, n) ==
            Prepend(Tone(env, m.analog, part), Gen(env, SymbolPart(env, m, part), n - part))
    decreases part
  {
    hide Gen, Point, RadianStep, PhaseAt, Sounded, SymbolPart, Exec;
    EmitTowardsPart(env, m, part);
    GenEmit(env, m, n);
    ToneStep(env, m.analog, part);
    if part > 1 {
      RunPart(env, Emit(env, m), part - 1, n - 1);
    }
  }

  /** The machine at position `cur` of its program, between two commands. */
  function At(cmds: seq<Command>, analog: Analog, cur: nat, repeats: nat): Machine {
    Machine(cmds, analog, 0, cur, repeats)
  }

  /** A command that is not STOP takes no samples. */
  lemma GenExec(env: Env, m: Machine, n: nat)
    requires Sane(m) && m.remaining == 0 && m.cur < |m.cmds| && !m.cmds[m.cur].Stop? && 0 < n
    ensures Sane(Exec(m)) && Gen(env, m, n) == Gen(env, Exec(m), n)
  {
    ExecSane(m);
  }

  lemma ExecSymbol(cmds: seq<Command>, a: Analog, cur: nat, repeats: nat, symbol: Symbol)
    requires SaneProgram(cmds) && 0.0 < a.rate && SaneSymbol(symbol)
    requires cur + 1 < |cmds| && cmds[cur] == symbol.set_ && cmds[cur + 1] == GenSymbol(symbol.us)
    ensures var k, set_ := SymbolSamples(symbol.us, a.rate), SetRegister(a, symbol.set_);
            var ready := At(cmds, set_, cur + 1, repeats);
            && Exec(At(cmds, a, cur, repeats)) == ready && set_.rate == a.rate
            && Exec(ready) == if k == 0 then ready.(cur := cur + 2) else ready.(remaining := k)
  {
  }

  lemma RunSymbol(env: Env, cmds: seq<Command>, a: Analog, cur: nat, repeats: nat, symbol: Symbol, n: nat)
    requires SaneProgram(cmds) && 0.0 < a.rate && SaneSymbol(symbol)
    requires cur + 1 < |cmds| && cmds[cur] == symbol.set_ && cmds[cur + 1] == GenSymbol(symbol.us)
    requires SymbolSamples(symbol.us, a.rate) < n
    ensures var k, set_ := SymbolSamples(symbol.us, a.rate), SetRegister(a, symbol.set_);
            Gen(env, At(cmds, a, cur, repeats), n) ==
              Prepend(Tone(env, set_, k), Gen(env, At(cmds, Sounded(env, set_, k), cur + 2, repeats), n - k))
  {
    hide Gen, SymbolSamples, Point, RadianStep, PhaseAt, Exec, SaneProgram;
    ExecSymbol(cmds, a, cur, repeats, symbol);
    var k, set_ := SymbolSamples(symbol.us, a.rate), SetRegister(a, symbol.set_);
    GenExec(env, At(cmds, a, cur, repeats), n);
    GenExec(env, At(cmds, set_, cur + 1, repeats), n);
    if k == 0 {
      PhaseStep(env, set_, 0);
    } else {
      RunPart(env, Exec(At(cmds, set_, cur + 1, repeats)), k, n);
    }
  }

  ghost predicate HasBody(cmds: seq<Command>, cur: nat, symbols: seq<Symbol>) {
    cur + 2 * |symbols| <= |cmds| && cmds[cur..cur + 2 * |symbols|] == Body(symbols)
  }

  lemma BodySlice(cmds: seq<Command>, cur: nat, symbols: seq<Symbol>)
    requires HasBody(cmds, cur, symbols) && symbols != []
    ensures cur + 1 < |cmds| && cmds[cur] == symbols[0].set_ && cmds[cur + 1] == GenSymbol(symbols[0].us)
    ensures HasBody(cmds, cur + 2, symbols[1..])
  {
    var body := cmds[cur..cur + 2 * |symbols|];
    assert body[0] == cmds[cur] && body[1] == cmds[cur + 1];
    assert cmds[cur + 2..cur + 2 * |symbols|] == body[2..];
  }

  /** The waveform of the first symbol and of the others. */
  lemma WaveCons(env: Env, a: Analog, symbols: seq<Symbol>)
    requires 0.0 < a.rate && SaneSymbols(symbols) && symbols != []
    ensures var n, set_ := SymbolSamples(symbols[0].us, a.rate), SetRegister(a, symbols[0].set_);
            var next := Sounded(env, set_, n);
            && set_.rate == a.rate && SaneSymbols(symbols[1..])
            && Wave(env, a, symbols) == Tone(env, set_, n) + Wave(env, next, symbols[1..])
            && AfterWave(env, a, symbols) == AfterWave(env, next, symbols[1..])
            && TotalSamples(a.rate, symbols) == n + TotalSamples(a.rate, symbols[1..])
  {
    assert SaneSymbol(symbols[0]);
  }

  lemma PrependTwice(first: seq<Iq>, second: seq<Iq>, r: Run)
    ensures Prepend(first, Prepend(second, r)) == Prepend(first + second, r)
  {
  }

  /** The symbols of a program, wherever they stand in it, sound as their waveform. */
  lemma {:induction false} RunBody(
      env: Env, cmds: seq<Command>, a: Analog, cur: nat, repeats: nat, symbols: seq<Symbol>, n: nat)
    requires SaneProgram(cmds) && 0.0 < a.rate && SaneSymbols(symbols)
    requires HasBody(cmds, cur, symbols)
    requires TotalSamples(a.rate, symbols) < n
    ensures Gen(env, At(cmds, a, cur, repeats), n) ==
            Prepend(Wave(env, a, symbols),
                    Gen(env, At(cmds, AfterWave(env, a, symbols), cur + 2 * |symbols|, repeats),
                        n - TotalSamples(a.rate, symbols)))
    decreases |symbols|
  {
    hide Gen, SymbolSamples, Tone, Sounded, SaneProgram, HasBody, SetRegister;
    if symbols == [] {
    } else {
      hide Wave, AfterWave, TotalSamples, Prepend, At;
      assert SaneSymbol(symbols[0]);
      var k, set_ := SymbolSamples(symbols[0].us, a.rate), SetRegister(a, symbols[0].set_);
      WaveCons(env, a, symbols);
      BodySlice(cmds, cur, symbols);
      var next, rest := Sounded(env, set_, k), symbols[1..];
      var end := Gen(env, At(cmds, AfterWave(env, a, symbols), cur + 2 * |symbols|, repeats),
                     n - TotalSamples(a.rate, symbols));
      assert Gen(env, At(cmds, next, cur + 2, repeats), n - k) == Prepend(Wave(env, next, rest), end) by {
        RunBody(env, cmds, next, cur + 2, repeats, rest, n - k);
        assert cur + 2 + 2 * |rest| == cur + 2 * |symbols|;
        assert n - k - TotalSamples(next.rate, rest) == n - TotalSamples(a.rate, symbols);
      }
      RunSymbol(env, cmds, a, cur, repeats, symbols[0], n);
      assert Gen(env, At(cmds, a, cur, repeats), n) == Prepend(Tone(env, set_, k), Prepend(Wave(env, next, rest), end));
      PrependTwice(Tone(env, set_, k), Wave(env, next, rest), end);
      assert Prepend(Tone(env, set_, k), Prepend(Wave(env, next, rest), end)) == Prepend(Wave(env, a, symbols), end);
    }
  }

  // ------------------------------------------- one carrier, switched on and off

  /** The amplitude the symbols set for sample `k`. */
  function AmpAt(rate: real, symbols: seq<Symbol>, k: nat): real
    requires 0.0 <= rate && SaneSymbols(symbols) && k < TotalSamples(rate, symbols)
    decreases |symbols|
  {
    assert SaneSymbol(symbols[0]);
    var n := SymbolSamples(symbols[0].us, rate);
    if k < n then symbols[0].set_.value else AmpAt(rate, symbols[1..], k - n)
  }

  lemma PhaseSplit(env: Env, a: Analog, n: nat, k: nat)
    requires a.rate != 0.0
    ensures PhaseAt(env, Sounded(env, a, n), k) == PhaseAt(env, a, n + k)
  {
    var step := RadianStep(env, a);
    assert RadianStep(env, Sounded(env, a, n)) == step;
    hide RadianStep;
    assert (n + k) as real == n as real + k as real;
    assert (n + k) as real * step == n as real * step + k as real * step;
  }

  lemma PhaseIgnoresAmp(env: Env, a: Analog, amp: real, k: nat)
    requires a.rate != 0.0
    ensures PhaseAt(env, a.(amp := amp), k) == PhaseAt(env, a, k)
  {
  }

  /** Symbols that only set the amplitude key one carrier, whose phase runs on through
      the silent symbols too. */
  lemma {:induction false} CarrierRunsOn(env: Env, a: Analog, symbols: seq<Symbol>, k: nat)
    requires 0.0 < a.rate && SaneSymbols(symbols) && k < TotalSamples(a.rate, symbols)
    requires forall i :: 0 <= i < |symbols| ==> symbols[i].set_.SetAmp?
    ensures k < |Wave(env, a, symbols)|
    ensures Wave(env, a, symbols)[k] == Point(env, AmpAt(a.rate, symbols, k), PhaseAt(env, a, k))
    decreases |symbols|
  {
    WaveLength(env, a, symbols);
    assert SaneSymbol(symbols[0]);
    WaveCons(env, a, symbols);
    hide Point, PhaseAt, RadianStep, SymbolSamples, Wave;
    var set_, n := SetRegister(a, symbols[0].set_), SymbolSamples(symbols[0].us, a.rate);
    if k < n {
      PhaseIgnoresAmp(env, a, set_.amp, k);
    } else {
      CarrierRunsOn(env, Sounded(env, set_, n), symbols[1..], k - n);
      PhaseSplit(env, set_, n, k - n);
      PhaseIgnoresAmp(env, a, set_.amp, k);
    }
  }

  // ------------------------------------------------ the phase across tone changes

  /** The registers, but for the phase, while sample `k` sounds. */
  function RegistersAt(a: Analog, symbols: seq<Symbol>, k: nat): (r: Analog)
    requires 0.0 < a.rate && SaneSymbols(symbols) && k < TotalSamples(a.rate, symbols)
    ensures r.rate == a.rate
    decreases |symbols|
  {
    assert SaneSymbol(symbols[0]);
    var set_, n := SetRegister(a, symbols[0].set_), SymbolSamples(symbols[0].us, a.rate);
    if k < n then set_ else RegistersAt(set_, symbols[1..], k - n)
  }

  /** The phase of sample `k`: every sample moves it on by the step of its own tone. */
  function PhaseSum(env: Env, a: Analog, symbols: seq<Symbol>, k: nat): real
    requires 0.0 < a.rate && SaneSymbols(symbols) && k <= TotalSamples(a.rate, symbols)
    decreases k
  {
    if k == 0 then a.phase
    else PhaseSum(env, a, symbols, k - 1) + RadianStep(env, RegistersAt(a, symbols, k - 1))
  }

  lemma {:induction false} RegistersIgnorePhase(a: Analog, b: Analog, symbols: seq<Symbol>, k: nat)
    requires 0.0 < a.rate && SaneSymbols(symbols) && k < TotalSamples(a.rate, symbols)
    requires b == a.(phase := b.phase)
    ensures RegistersAt(b, symbols, k) == RegistersAt(a, symbols, k).(phase := b.phase)
    decreases |symbols|
  {
    hide SymbolSamples;
    assert SaneSymbol(symbols[0]);
    var n := SymbolSamples(symbols[0].us, a.rate);
    if n <= k {
      RegistersIgnorePhase(SetRegister(a, symbols[0].set_), SetRegister(b, symbols[0].set_), symbols[1..], k - n);
    }
  }

  lemma StepIgnoresPhase(env: Env, a: Analog, phase: real)
    requires a.rate != 0.0
    ensures RadianStep(env, a.(phase := phase)) == RadianStep(env, a)
  {
  }

  /** The phase inside the first symbol. */
  lemma {:induction false} PhaseOfFirst(env: Env, a: Analog, symbols: seq<Symbol>, k: nat)
    requires 0.0 < a.rate && SaneSymbols(symbols) && symbols != [] && SaneSymbol(symbols[0])
    requires k <= SymbolSamples(symbols[0].us, a.rate) <= TotalSamples(a.rate, symbols)
    ensures PhaseSum(env, a, symbols, k) == PhaseAt(env, SetRegister(a, symbols[0].set_), k)
    decreases k
  {
    hide SymbolSamples, PhaseAt, RadianStep, TotalSamples;
    var set_ := SetRegister(a, symbols[0].set_);
    if k == 0 {
      PhaseStep(env, set_, 0);
    } else {
      PhaseOfFirst(env, a, symbols, k - 1);
      PhaseNext(env, set_, k - 1);
    }
  }

  /** The phase behind the first symbol. */
  lemma {:induction false} PhaseOfRest(env: Env, a: Analog, symbols: seq<Symbol>, j: nat)
    requires 0.0 < a.rate && SaneSymbols(symbols) && symbols != [] && SaneSymbol(symbols[0])
    requires SaneSymbols(symbols[1..]) && j <= TotalSamples(a.rate, symbols[1..])
    ensures var n, set_ := SymbolSamples(symbols[0].us, a.rate), SetRegister(a, symbols[0].set_);
            && n + j <= TotalSamples(a.rate, symbols)
            && PhaseSum(env, a, symbols, n + j) == PhaseSum(env, Sounded(env, set_, n), symbols[1..], j)
    decreases j
  {
    WaveCons(env, a, symbols);
    hide SymbolSamples, PhaseAt, RadianStep, TotalSamples;
    var n, set_ := SymbolSamples(symbols[0].us, a.rate), SetRegister(a, symbols[0].set_);
    var next := Sounded(env, set_, n);
    if j == 0 {
      PhaseOfFirst(env, a, symbols, n);
    } else {
      PhaseOfRest(env, a, symbols, j - 1);
      var there := RegistersAt(set_, symbols[1..], j - 1);
      RegistersIgnorePhase(set_, next, symbols[1..], j - 1);
      StepIgnoresPhase(env, there, next.phase);
      assert RegistersAt(a, symbols, n + j - 1) == there;
    }
  }

  /** Any symbols: sample `k` is a point at the amplitude of its symbol, and at a phase
      that never jumps, whatever the tones. */
  lemma {:induction false} PhaseIsContinuous(env: Env, a: Analog, symbols: seq<Symbol>, k: nat)
    requires 0.0 < a.rate && SaneSymbols(symbols) && k < TotalSamples(a.rate, symbols)
    ensures k < |Wave(env, a, symbols)|
    ensures Wave(env, a, symbols)[k] ==
            Point(env, RegistersAt(a, symbols, k).amp, PhaseSum(env, a, symbols, k))
    decreases |symbols|
  {
    WaveLength(env, a, symbols);
    assert SaneSymbol(symbols[0]);
    WaveCons(env, a, symbols);
    hide Point, PhaseAt, RadianStep, SymbolSamples, Wave, PhaseSum;
    var set_, n := SetRegister(a, symbols[0].set_), SymbolSamples(symbols[0].us, a.rate);
    if k < n {
      PhaseOfFirst(env, a, symbols, k);
    } else {
      var next := Sounded(env, set_, n);
      PhaseIsContinuous(env, next, symbols[1..], k - n);
      PhaseOfRest(env, a, symbols, k - n);
      RegistersIgnorePhase(set_, next, symbols[1..], k - n);
    }
  }
}
