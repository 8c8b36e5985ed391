// The modulation command machine: a program of commands, run one sample at a
// time. Floats are reals; sine and cosine are any functions.

module Synthesis {
  import opened Basics

  datatype Iq = Iq(i: int, q: int)

  /** The mathematics library. */
  datatype Env = Env(sin: real -> real, cos: real -> real, pi: real)

  datatype Command =
    | SetFreq(value: real)
    | SetPhase(value: real)
    | SetPhaseDiff(value: real)
    | SetAmp(value: real)
    | SetCarrierFreq(value: real)
    | SetSampleRate(value: real)
    | GenSymbol(us: real)
    | Repeat(count: nat)
    | Stop

  /** The registers of the oscillator. */
  datatype Analog = Analog(freq: real, phase: real, amp: real, carrier: real, rate: real)

  datatype Machine = Machine(
    cmds: seq<Command>, analog: Analog, remaining: nat, cur: nat, repeats: nat)

  function SymbolSamples(us: real, rate: real): (n: nat)
    requires 0.0 <= us && 0.0 <= rate
  {
    assert 0.0 <= us * rate;
    Trunc(us * rate / 1000000.0)
  }

  /** The sample count of a symbol: its time in microseconds times the rate, without the
      fraction. */
  lemma SymbolLasts(us: real, rate: real)
    requires 0.0 <= us && 0.0 <= rate
    ensures var n := SymbolSamples(us, rate);
            n as real * 1000000.0 <= us * rate < (n + 1) as real * 1000000.0
  {
    var x := us * rate;
    assert 0.0 <= x;
    TruncIsTowardZero(x / 1000000.0);
  }

  function RadianStep(env: Env, a: Analog): real
    requires a.rate != 0.0
  {
    2.0 * env.pi * (a.carrier - a.freq) / a.rate
  }

  /** One sample. `Modulation::modulate` passes its result pointers to `sincosf` swapped, so
      the in-phase part carries the sine. */
  function Point(env: Env, amp: real, phase: real): Iq {
    if amp != 0.0 then Iq(Trunc(amp * env.sin(phase)), Trunc(amp * env.cos(phase))) else Iq(0, 0)
  }

  /** The sine is in phase and the cosine in quadrature, each at this amplitude and cut to an
      integer toward zero. */
  lemma PointIsOnTheCarrier(env: Env, amp: real, phase: real)
    ensures var p := Point(env, amp, phase);
            CutTo(amp * env.sin(phase), p.i) && CutTo(amp * env.cos(phase), p.q)
  {
    var s, c := env.sin(phase), env.cos(phase);
    assert Point(env, amp, phase) == if amp != 0.0 then Iq(Trunc(amp * s), Trunc(amp * c)) else Iq(0, 0);
    hide Point, Trunc, CutTo;
    CutProduct(amp, s);
    CutProduct(amp, c);
  }

  lemma CutProduct(x: real, y: real)
    ensures CutTo(x * y, if x != 0.0 then Trunc(x * y) else 0)
  {
    hide Trunc;
    TruncIsTowardZero(x * y);
  }

  /** Symbol times and sample rates the machine can convert to sample counts. */
  predicate SaneCommand(c: Command) {
    && (c.GenSymbol? ==> 0.0 <= c.us)
    && (c.SetSampleRate? ==> 0.0 < c.value)
  }

  predicate SaneProgram(cmds: seq<Command>) {
    forall i :: 0 <= i < |cmds| ==> SaneCommand(cmds[i])
  }

  predicate Sane(m: Machine) {
    && SaneProgram(m.cmds)
    && 0.0 <= m.analog.rate
    && (m.remaining > 0 ==> m.cur < |m.cmds| && m.cmds[m.cur].GenSymbol? && 0.0 < m.analog.rate)
  }

  /** A program that ends with STOP cannot be left. */
  predicate WellFormed(m: Machine) {
    m.cur < |m.cmds| && m.cmds[|m.cmds| - 1].Stop?
  }

  function SetRegister(a: Analog, c: Command): Analog {
    match c
    case SetFreq(value) => a.(freq := value)
    case SetPhase(value) => a.(phase := value)
    case SetPhaseDiff(value) => a.(phase := a.phase + value)
    case SetAmp(value) => a.(amp := value)
    case SetCarrierFreq(value) => a.(carrier := value)
    case SetSampleRate(value) => a.(rate := value)
    case _ => a
  }

  /** Executes the current command, which is not STOP. */
  function Exec(m: Machine): Machine
    requires Sane(m) && m.remaining == 0 && m.cur < |m.cmds| && !m.cmds[m.cur].Stop?
  {
    var c := m.cmds[m.cur];
    assert SaneCommand(c);
    match c
    case GenSymbol(us) =>
      var n := SymbolSamples(us, m.analog.rate);
      if n == 0 then m.(cur := m.cur + 1) else m.(remaining := n)
    case Repeat(count) =>
      if m.repeats < count then m.(cur := 0, repeats := m.repeats + 1) else m.(cur := m.cur + 1)
    case _ => m.(analog := SetRegister(m.analog, c), cur := m.cur + 1)
  }

  /** The machine after one sample of the current symbol. */
  function Emit(env: Env, m: Machine): Machine
    requires Sane(m) && m.remaining > 0
  {
    m.(analog := m.analog.(phase := m.analog.phase + RadianStep(env, m.analog)),
       remaining := m.remaining - 1,
       cur := if m.remaining == 1 then m.cur + 1 else m.cur)
  }

  lemma ExecSane(m: Machine)
    requires Sane(m) && m.remaining == 0 && m.cur < |m.cmds| && !m.cmds[m.cur].Stop?
    ensures Sane(Exec(m))
    ensures WellFormed(m) ==> WellFormed(Exec(m))
    ensures var m' := Exec(m);
            && m'.cmds == m.cmds
            && (|| Budget(m') < Budget(m)
                || (Budget(m') == Budget(m) && m'.cur == m.cur + 1)
                || (Budget(m') == Budget(m) && m'.cur == m.cur && m'.remaining > 0))
  {
    assert SaneCommand(m.cmds[m.cur]);
    if m.cmds[m.cur].GenSymbol? && 0 < SymbolSamples(m.cmds[m.cur].us, m.analog.rate) {
      assert m.analog.rate != 0.0;
    }
    CountBelowMax(m.cmds, m.cur);
  }

  lemma EmitSane(env: Env, m: Machine)
    requires Sane(m) && m.remaining > 0
    ensures Sane(Emit(env, m)) && Budget(Emit(env, m)) == Budget(m) && Emit(env, m).cmds == m.cmds
    ensures WellFormed(m) ==> WellFormed(Emit(env, m))
  {
  }

  function MaxRepeat(cmds: seq<Command>): nat {
    if cmds == [] then 0
    else
      var rest := MaxRepeat(cmds[1..]);
      if cmds[0].Repeat? && cmds[0].count > rest then cmds[0].count else rest
  }

  lemma {:induction false} CountBelowMax(cmds: seq<Command>, i: nat)
    requires i < |cmds|
    ensures cmds[i].Repeat? ==> cmds[i].count <= MaxRepeat(cmds)
  {
    if i > 0 {
      CountBelowMax(cmds[1..], i - 1);
    }
  }

  /** How often a REPEAT can still be taken. */
  function Budget(m: Machine): nat {
    var max := MaxRepeat(m.cmds);
    if m.repeats < max then max - m.repeats else 0
  }

  /** The samples of a run, the machine it leaves behind, and whether it ran off the
      end of its program. */
  datatype Run = Run(samples: seq<Iq>, machine: Machine, ranOff: bool)

  /** Runs until `n` samples are out or the program has ended. The measure covers the
      jumps back of REPEAT and symbols of length zero. */
  function Gen(env: Env, m: Machine, n: nat): (r: Run)
    requires Sane(m)
    ensures Sane(r.machine) && r.machine.cmds == m.cmds
    ensures |r.samples| <= n && (r.ranOff ==> |r.samples| < n)
    ensures WellFormed(m) ==> WellFormed(r.machine) && !r.ranOff
    decreases n, Budget(m), |m.cmds| - m.cur, if m.remaining == 0 then 1 else 0
  {
    if n == 0 then Run([], m, false)
    else if m.cur >= |m.cmds| then Run([], m, true)
    else if m.remaining > 0 then
      var rest := Gen(env, Emit(env, m), n - 1);
      rest.(samples := [Point(env, m.analog.amp, m.analog.phase)] + rest.samples)
    else if m.cmds[m.cur].Stop? then Run([], m, false)
    else
      ExecSane(m);
      Gen(env, Exec(m), n)
  }

  /** Chunk independence: asking for `a` samples and then for `b` samples delivers
      the same samples, and leaves the same machine, as asking for `a + b` at once. */
  lemma {:induction false} ChunkIndependence(env: Env, m: Machine, a: nat, b: nat)
    requires Sane(m)
    ensures var first := Gen(env, m, a);
            var second := Gen(env, first.machine, b);
            Gen(env, m, a + b) ==
              if first.ranOff then first
              else Run(first.samples + second.samples, second.machine, second.ranOff)
    decreases a, Budget(m), |m.cmds| - m.cur, if m.remaining == 0 then 1 else 0
  {
    hide Exec, Emit, Point, Sane, WellFormed, MaxRepeat;
    if a == 0 || m.cur >= |m.cmds| {
    } else if m.remaining > 0 {
      EmitSane(env, m);
      ChunkIndependence(env, Emit(env, m), a - 1, b);
    } else if m.cmds[m.cur].Stop? {
    } else {
      ExecSane(m);
      ChunkIndependence(env, Exec(m), a, b);
    }
  }
}
