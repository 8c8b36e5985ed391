// A compiled message: a header that sets registers, the symbols, and an ending
// that repeats the whole program a number of times before it stops.

module Program {
  import opened Slots
  import opened Synthesis
  import opened Waveform

  predicate SaneHeader(header: seq<Command>) {
    forall i :: 0 <= i < |header| ==>
      !header[i].GenSymbol? && !header[i].Repeat? && !header[i].Stop? && SaneCommand(header[i])
  }

  function Ending(repeat: nat): seq<Command> {
    (if repeat > 0 then [Repeat(repeat)] else []) + [Stop]
  }

  function Compiled(header: seq<Command>, symbols: seq<Symbol>, repeat: nat): seq<Command> {
    header + Body(symbols) + Ending(repeat)
  }

  function SetAll(a: Analog, header: seq<Command>): Analog
    decreases |header|
  {
    if header == [] then a else SetAll(SetRegister(a, header[0]), header[1..])
  }

  /** `copies` copies of a waveform. */
  function Copies(wave: seq<Iq>, copies: nat): seq<Iq> {
    if copies == 0 then [] else wave + Copies(wave, copies - 1)
  }

  lemma {:induction false} CopiesLength(wave: seq<Iq>, copies: nat)
    ensures |Copies(wave, copies)| == copies * |wave|
  {
    if copies > 0 {
      CopiesLength(wave, copies - 1);
      assert copies * |wave| == (copies - 1) * |wave| + |wave|;
    }
  }

  /** Every copy is the same waveform, sample by sample. */
  lemma {:induction false} CopiesAt(wave: seq<Iq>, copies: nat, c: nat, k: nat)
    requires c < copies && k < |wave|
    ensures 0 <= c * |wave| + k < |Copies(wave, copies)|
    ensures Copies(wave, copies)[c * |wave| + k] == wave[k]
  {
    CopiesLength(wave, copies - 1);
    if c == 0 {
    } else {
      CopiesAt(wave, copies - 1, c - 1, k);
      assert c * |wave| + k == |wave| + ((c - 1) * |wave| + k);
    }
  }

  /** The header restarts the oscillator: whatever the registers held before, the
      symbols sound the same. */
  ghost predicate Restarts(env: Env, header: seq<Command>, symbols: seq<Symbol>, wave: seq<Iq>) {
    SaneSymbols(symbols) &&
    forall a: Analog :: 0.0 <= a.rate ==>
      0.0 < SetAll(a, header).rate && Wave(env, SetAll(a, header), symbols) == wave
  }

  lemma {:induction false} BodySane(symbols: seq<Symbol>)
    requires SaneSymbols(symbols)
    ensures SaneProgram(Body(symbols))
  {
    if symbols == [] {
    } else {
      assert SaneSymbol(symbols[0]);
      BodySane(symbols[1..]);
    }
  }

  lemma CompiledSane(header: seq<Command>, symbols: seq<Symbol>, repeat: nat)
    requires SaneHeader(header) && SaneSymbols(symbols)
    ensures SaneProgram(Compiled(header, symbols, repeat))
    ensures Compiled(header, symbols, repeat)[|Compiled(header, symbols, repeat)| - 1] == Stop
  {
    BodySane(symbols);
  }

  /** A command that sets a register. */
  lemma RunSetting(env: Env, cmds: seq<Command>, a: Analog, cur: nat, repeats: nat, n: nat)
    requires SaneProgram(cmds) && 0.0 <= a.rate && 0 < n && cur < |cmds|
    requires !cmds[cur].GenSymbol? && !cmds[cur].Repeat? && !cmds[cur].Stop?
    ensures 0.0 <= SetRegister(a, cmds[cur]).rate
    ensures Gen(env, At(cmds, a, cur, repeats), n) ==
            Gen(env, At(cmds, SetRegister(a, cmds[cur]), cur + 1, repeats), n)
  {
    hide Gen;
    assert SaneCommand(cmds[cur]);
    GenExec(env, At(cmds, a, cur, repeats), n);
    assert Exec(At(cmds, a, cur, repeats)) == At(cmds, SetRegister(a, cmds[cur]), cur + 1, repeats);
  }

  lemma {:induction false} RunHeader(
      env: Env, cmds: seq<Command>, a: Analog, cur: nat, repeats: nat, header: seq<Command>, n: nat)
    requires SaneProgram(cmds) && 0.0 <= a.rate && SaneHeader(header) && 0 < n
    requires cur + |header| <= |cmds| && cmds[cur..cur + |header|] == header
    ensures 0.0 <= SetAll(a, header).rate
    ensures Gen(env, At(cmds, a, cur, repeats), n) == Gen(env, At(cmds, SetAll(a, header), cur + |header|, repeats), n)
    decreases |header|
  {
    hide Gen, SetRegister, SaneProgram, Exec;
    if header == [] {
    } else {
      assert cmds[cur] == cmds[cur..cur + |header|][0] == header[0];
      assert cmds[cur + 1..cur + |header|] == header[1..];
      RunSetting(env, cmds, a, cur, repeats, n);
      RunHeader(env, cmds, SetRegister(a, header[0]), cur + 1, repeats, header[1..], n);
    }
  }

  /** One pass over the header and the symbols. */
  lemma RunPass(env: Env, header: seq<Command>, symbols: seq<Symbol>, repeat: nat, a: Analog, repeats: nat, n: nat)
    requires SaneHeader(header) && SaneSymbols(symbols) && 0.0 <= a.rate && 0.0 < SetAll(a, header).rate
    requires |Wave(env, SetAll(a, header), symbols)| < n
    ensures SaneProgram(Compiled(header, symbols, repeat))
    ensures var cmds, set_ := Compiled(header, symbols, repeat), SetAll(a, header);
            var wave, after := Wave(env, set_, symbols), AfterWave(env, set_, symbols);
            Gen(env, At(cmds, a, 0, repeats), n) ==
              Prepend(wave, Gen(env, At(cmds, after, |header| + 2 * |symbols|, repeats), n - |wave|))
  {
    hide Gen, Wave, AfterWave, SetAll;
    var cmds, set_ := Compiled(header, symbols, repeat), SetAll(a, header);
    CompiledSane(header, symbols, repeat);
    WaveLength(env, set_, symbols);
    assert cmds[0..0 + |header|] == header;
    RunHeader(env, cmds, a, 0, repeats, header, n);
    assert cmds[|header|..|header| + 2 * |symbols|] == Body(symbols);
    RunBody(env, cmds, set_, |header|, repeats, symbols, n);
  }

  /** Behind the symbols, a program starts again or is over. */
  lemma RunEnding(
      env: Env, header: seq<Command>, symbols: seq<Symbol>, repeat: nat, a: Analog, repeats: nat, n: nat)
    requires SaneHeader(header) && SaneSymbols(symbols) && 0.0 <= a.rate && repeats <= repeat && 0 < n
    ensures SaneProgram(Compiled(header, symbols, repeat))
    ensures var cmds, end := Compiled(header, symbols, repeat), |header| + 2 * |symbols|;
            var r := Gen(env, At(cmds, a, end, repeats), n);
            if repeats < repeat then r == Gen(env, At(cmds, a, 0, repeats + 1), n) else r.samples == []
  {
    hide Gen, SaneProgram, SaneHeader, SaneSymbols, Body;
    var cmds, end := Compiled(header, symbols, repeat), |header| + 2 * |symbols|;
    CompiledSane(header, symbols, repeat);
    if repeat > 0 {
      assert cmds[end] == Repeat(repeat) && cmds[end + 1] == Stop;
      ExecRepeat(env, cmds, a, end, repeats, repeat, n);
      if repeats == repeat {
        GenStop(env, At(cmds, a, end + 1, repeats), n);
      }
    } else {
      assert cmds[end] == Stop;
      GenStop(env, At(cmds, a, end, repeats), n);
    }
  }

  /** The rest of a message that has been repeated `repeats` times already. */
  lemma {:induction false} RunCopies(
      env: Env, header: seq<Command>, symbols: seq<Symbol>, repeat: nat, wave: seq<Iq>, a: Analog, repeats: nat, n: nat)
    requires SaneHeader(header) && Restarts(env, header, symbols, wave) && 0.0 <= a.rate
    requires repeats <= repeat && |Copies(wave, repeat - repeats + 1)| < n
    ensures SaneProgram(Compiled(header, symbols, repeat))
    ensures var r := Gen(env, At(Compiled(header, symbols, repeat), a, 0, repeats), n);
            r.samples == Copies(wave, repeat - repeats + 1)
    decreases repeat - repeats
  {
    hide Gen, Wave, AfterWave, SetAll, Exec, SaneProgram, SaneHeader, SaneSymbols, Compiled;
    var set_ := SetAll(a, header);
    assert 0.0 < set_.rate && Wave(env, set_, symbols) == wave;
    var after := AfterWave(env, set_, symbols);
    assert |wave| < n;
    RunPass(env, header, symbols, repeat, a, repeats, n);
    RunEnding(env, header, symbols, repeat, after, repeats, n - |wave|);
    if repeats < repeat {
      RunCopies(env, header, symbols, repeat, wave, after, repeats + 1, n - |wave|);
    } else {
      assert Copies(wave, 0) == [];
    }
  }

  lemma ExecRepeat(env: Env, cmds: seq<Command>, a: Analog, cur: nat, repeats: nat, repeat: nat, n: nat)
    requires SaneProgram(cmds) && 0.0 <= a.rate && cur < |cmds| && cmds[cur] == Repeat(repeat) && 0 < n
    ensures Gen(env, At(cmds, a, cur, repeats), n) ==
            Gen(env, if repeats < repeat then At(cmds, a, 0, repeats + 1) else At(cmds, a, cur + 1, repeats), n)
  {
    GenExec(env, At(cmds, a, cur, repeats), n);
  }

  lemma GenStop(env: Env, m: Machine, n: nat)
    requires Sane(m) && m.remaining == 0 && m.cur < |m.cmds| && m.cmds[m.cur] == Stop
    ensures Gen(env, m, n) == Run([], m, false)
  {
  }

  // ------------------------------------------------------- what is left to emit

  /** Whatever is asked for, the machine delivers that much of `rest`, and the
      program is never left. */
  ghost predicate Emits(env: Env, m: Machine, rest: seq<Iq>) {
    && Sane(m) && WellFormed(m)
    && forall n: nat :: Gen(env, m, n).samples == rest[..Min(n, |rest|)]
  }

  /** A machine that delivers less than it was asked for has stopped for good. */
  lemma {:induction false} ShortMeansStopped(env: Env, m: Machine, n: nat, more: nat)
    requires Sane(m) && WellFormed(m)
    requires |Gen(env, m, n).samples| < n
    ensures Gen(env, Gen(env, m, n).machine, more).samples == []
    decreases n, Budget(m), |m.cmds| - m.cur, if m.remaining == 0 then 1 else 0
  {
    hide Exec, Emit, Point;
    if m.remaining > 0 {
      EmitSane(env, m);
      ShortMeansStopped(env, Emit(env, m), n - 1, more);
    } else if !m.cmds[m.cur].Stop? {
      ExecSane(m);
      ShortMeansStopped(env, Exec(m), n, more);
    }
  }

  /** A run that ends by itself determines every shorter run. */
  lemma EmitsFromEnd(env: Env, m: Machine, whole: seq<Iq>)
    requires Sane(m) && WellFormed(m)
    requires forall n: nat :: |whole| < n ==> Gen(env, m, n).samples == whole
    ensures Emits(env, m, whole)
  {
    forall n: nat
      ensures Gen(env, m, n).samples == whole[..Min(n, |whole|)]
    {
      hide Gen;
      if n <= |whole| {
        var more := |whole| + 1 - n;
        ChunkIndependence(env, m, n, more);
        assert Gen(env, m, n + more).samples == whole;
        if |Gen(env, m, n).samples| < n {
          ShortMeansStopped(env, m, n, more);
        }
      }
    }
  }

  lemma MachineStaysWell(env: Env, m: Machine, n: nat)
    requires Sane(m) && WellFormed(m)
    ensures Sane(Gen(env, m, n).machine) && WellFormed(Gen(env, m, n).machine) && !Gen(env, m, n).ranOff
  {
  }

  lemma SliceOfRest(rest: seq<Iq>, n: nat, k: nat)
    ensures var left := rest[Min(n, |rest|)..];
            rest[..Min(n + k, |rest|)] == rest[..Min(n, |rest|)] + left[..Min(k, |left|)]
  {
  }

  /** After a chunk, what is left to emit is the rest. */
  lemma EmitsRest(env: Env, m: Machine, rest: seq<Iq>, n: nat)
    requires Emits(env, m, rest)
    ensures Emits(env, Gen(env, m, n).machine, rest[Min(n, |rest|)..])
  {
    hide Gen, Sane, WellFormed;
    var next, left := Gen(env, m, n).machine, rest[Min(n, |rest|)..];
    MachineStaysWell(env, m, n);
    forall k: nat
      ensures Gen(env, next, k).samples == left[..Min(k, |left|)]
    {
      ChunkIndependence(env, m, n, k);
      assert Gen(env, m, n + k).samples == rest[..Min(n + k, |rest|)];
      SliceOfRest(rest, n, k);
    }
  }

  /** A freshly compiled message emits R + 1 identical copies of its waveform and
      stops, whatever the oscillator held before. */
  lemma CompiledEmitsCopies(
      env: Env, header: seq<Command>, symbols: seq<Symbol>, repeat: nat, wave: seq<Iq>, a: Analog)
    requires SaneHeader(header) && Restarts(env, header, symbols, wave) && 0.0 <= a.rate
    ensures Emits(env, At(Compiled(header, symbols, repeat), a, 0, 0), Copies(wave, repeat + 1))
  {
    CompiledSane(header, symbols, repeat);
    var m := At(Compiled(header, symbols, repeat), a, 0, 0);
    forall n: nat | |Copies(wave, repeat + 1)| < n
      ensures Gen(env, m, n).samples == Copies(wave, repeat + 1)
    {
      RunCopies(env, header, symbols, repeat, wave, a, 0, n);
    }
    EmitsFromEnd(env, m, Copies(wave, repeat + 1));
  }
}
