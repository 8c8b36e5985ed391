// The sample ring under concurrency: one producer and any number of readers,
// interleaved at every atomic load and store and at every slot access.
//
// The atomics of the ring are sequentially consistent, so a run is a sequence of
// steps on one shared state. Only the producer stores to the three counters, so
// its own loads are folded into the step that uses them; a reader's loads are
// steps of their own.

module RingProtocol {
  import opened Slots
  import RingBuffers

  /** The ring length and the sample the producer has for every position. */
  datatype Config<S> = Config(length: nat, source: nat -> S)

  /** Where the producer stands in `requestWrite` and the copy that follows it. */
  datatype Producer =
    | Idle
    | StoringHead(wantedNewHead: nat, wantedTail: nat)
    | StoringTail(wantedNewHead: nat, wantedTail: nat)
    | StoringNewHead(wantedNewHead: nat)
    | Writing(pending: set<nat>)

  /** Where a reader stands: the loads of `requestReadLastN` or of `requestRead`, the copy
      of a chunk slot by slot, and the loads of the final `isPositionValid`. A reader
      whose buffer is full in the middle of a chunk is about to copy past its end. */
  datatype ReaderPc =
    | Asleep
    | LastHead(tailFirst: bool)
    | SizeFirst(tailFirst: bool)
    | SizeSecond(tailFirst: bool, first: nat)
    | LoadingTail
    | LoadingHead
    | ClipTest
    | ClipLoad
    | Copying(pos: int, n: nat)
    | CheckingTail
    | CheckingHead
    | Refused
    | Overrun(pos: int, n: nat)
    | Done(ok: bool)

  /** The start is negative when the last samples are asked for before there were enough. */
  datatype Reader<S> = Reader(pc: ReaderPc, start: int, wanted: nat, copied: seq<S>)

  datatype State<S> = State(
    ring: seq<S>, newHead: nat, head: nat, tail: nat, producer: Producer, readers: seq<Reader<S>>)

  datatype Action =
    | Request(length: nat)
    | StoreHead
    | StoreTail
    | StoreNewHead
    | WriteSlot(pos: nat)
    | EndPacket
    | Publish
    | BeginRead(reader: nat, start: nat, wanted: nat)
    | BeginLast(reader: nat, wanted: nat, tailFirst: bool)
    | StepReader(reader: nat)

  ghost predicate Init<S>(c: Config<S>, s: State<S>) {
    && 0 < c.length == |s.ring|
    && s.newHead == s.head == s.tail == 0
    && s.producer == Idle
    && forall i :: 0 <= i < |s.readers| ==> s.readers[i].pc == Asleep && s.readers[i].copied == []
  }

  predicate Enabled<S>(c: Config<S>, s: State<S>, a: Action)
    requires 0 < c.length
  {
    match a
    case Request(_) => s.producer.Idle?
    case StoreHead => s.producer.StoringHead?
    case StoreTail => s.producer.StoringTail?
    case StoreNewHead => s.producer.StoringNewHead?
    case WriteSlot(pos) => s.producer.Writing? && pos in s.producer.pending && pos % c.length < |s.ring|
    case EndPacket => s.producer.Writing? && s.producer.pending == {}
    case Publish => s.producer.Idle?
    case BeginRead(i, _, _) => i < |s.readers| && CanBegin(s.readers[i])
    case BeginLast(i, _, _) => i < |s.readers| && CanBegin(s.readers[i])
    case StepReader(i) => i < |s.readers| && CanStep(c, s, s.readers[i])
  }

  predicate CanBegin<S>(r: Reader<S>) {
    r.pc.Asleep? || r.pc.Done? || r.pc.Refused?
  }

  predicate CanStep<S>(c: Config<S>, s: State<S>, r: Reader<S>)
    requires 0 < c.length
  {
    && !CanBegin(r) && !r.pc.Overrun?
    && (r.pc.Copying? ==>
          r.pc.pos <= Position(r) && Slot(r.pc.pos, c.length) + (Position(r) - r.pc.pos) < |s.ring|)
  }

  /** The position of the next sample to copy. */
  function Position<S>(r: Reader<S>): int {
    r.start + |r.copied|
  }

  /** Positions are unsigned: a negative one is a very large one, which no head reaches. */
  function Slot(pos: int, length: nat): nat
    requires 0 < length
  {
    (if pos < 0 then pos + 0x1_0000_0000_0000_0000 else pos) % length
  }

  /** The contiguous run of slots that starts at a position. */
  function Grant(pos: int, wanted: nat, length: nat): nat
    requires 0 < length
  {
    Min(wanted, length - Slot(pos, length))
  }

  function Next<S>(c: Config<S>, s: State<S>, a: Action): State<S>
    requires 0 < c.length && Enabled(c, s, a)
  {
    match a
    case Request(length) => s.(producer := Requested(c, s, length))
    case StoreHead =>
      s.(head := Max(s.head, s.producer.wantedTail),
         producer := StoringTail(s.producer.wantedNewHead, s.producer.wantedTail))
    case StoreTail => s.(tail := s.producer.wantedTail, producer := StoringNewHead(s.producer.wantedNewHead))
    case StoreNewHead =>
      s.(newHead := s.producer.wantedNewHead,
         producer := Writing(Packet(s.newHead, s.producer.wantedNewHead)))
    case WriteSlot(pos) =>
      s.(ring := s.ring[pos % c.length := c.source(pos)], producer := Writing(s.producer.pending - {pos}))
    case EndPacket => s.(producer := Idle)
    case Publish => s.(head := s.newHead)
    case BeginRead(i, start, wanted) =>
      s.(readers := s.readers[i := Reader(if wanted == 0 then CheckingTail else LoadingTail, start, wanted, [])])
    case BeginLast(i, wanted, tailFirst) =>
      s.(readers := s.readers[i := Reader(LastHead(tailFirst), 0, wanted, [])])
    case StepReader(i) => s.(readers := s.readers[i := StepOf(c, s, s.readers[i])])
  }

  /** The positions of a packet. */
  function Packet(lo: nat, hi: nat): (packet: set<nat>)
    ensures forall p :: p in packet <==> lo <= p < hi
    decreases hi - lo
  {
    if hi <= lo then {} else {lo} + Packet(lo + 1, hi)
  }

  /** `requestWrite` up to its first store. */
  function Requested<S>(c: Config<S>, s: State<S>, length: nat): Producer
    requires 0 < c.length
  {
    var packetSize := RingBuffers.Contiguous(s.newHead, length, c.length);
    var wantedNewHead := s.newHead + packetSize;
    if s.newHead - s.tail + packetSize >= c.length
    then StoringHead(wantedNewHead, wantedNewHead - c.length)
    else StoringNewHead(wantedNewHead)
  }

  /** The two loads that make up a size come in either order. When the tail is loaded
      last it may have passed the head: the difference is then a very large number. */
  function StepOf<S>(c: Config<S>, s: State<S>, r: Reader<S>): Reader<S>
    requires 0 < c.length && CanStep(c, s, r)
  {
    var pos := Position(r);
    match r.pc
    case LastHead(tailFirst) => r.(start := s.head - r.wanted, pc := SizeFirst(tailFirst))
    case SizeFirst(tailFirst) => r.(pc := SizeSecond(tailFirst, if tailFirst then s.tail else s.head))
    case SizeSecond(tailFirst, first) =>
      var size := if tailFirst then s.head - first else first - s.tail;
      if 0 <= size < r.wanted then r.(pc := Refused)
      else if r.wanted == 0 then r.(pc := CheckingTail)
      else r.(pc := Copying(pos, Grant(pos, r.wanted, c.length)))
    case LoadingTail => r.(pc := if pos < 0 || pos >= s.tail then LoadingHead else Refused)
    case LoadingHead => r.(pc := if 0 <= pos < s.head then ClipTest else Refused)
    case ClipTest =>
      if pos + Asked(r) > s.head then r.(pc := ClipLoad)
      else r.(pc := Copying(pos, Grant(pos, Asked(r), c.length)))
    case ClipLoad => r.(pc := Copying(pos, Grant(pos, Max(0, s.head - pos), c.length)))
    case Copying(from, n) =>
      var copied := r.copied + [s.ring[Slot(from, c.length) + (pos - from)]];
      r.(copied := copied,
         pc := if |copied| < from - r.start + n
               then if |copied| < r.wanted then Copying(from, n) else Overrun(from, n)
               else if |copied| < r.wanted then LoadingTail else CheckingTail)
    case CheckingTail => r.(pc := if r.start < 0 || r.start >= s.tail then CheckingHead else Done(false))
    case CheckingHead => r.(pc := Done(0 <= r.start < s.head))
    case _ => r
  }

  /** How many samples the reader still asks for. */
  function Asked<S>(r: Reader<S>): nat {
    Max(0, r.wanted - |r.copied|)
  }

  /** The state reached from `s` by a list of actions that are all enabled. */
  ghost predicate IsRun<S>(c: Config<S>, s: State<S>, actions: seq<Action>)
    requires 0 < c.length
    decreases |actions|
  {
    actions == [] || (Enabled(c, s, actions[0]) && IsRun(c, Next(c, s, actions[0]), actions[1..]))
  }

  ghost function After<S>(c: Config<S>, s: State<S>, actions: seq<Action>): State<S>
    requires 0 < c.length && IsRun(c, s, actions)
    decreases |actions|
  {
    if actions == [] then s else After(c, Next(c, s, actions[0]), actions[1..])
  }

  // ---------------------------------------------------------------- invariant

  /** Positions that have been granted but whose slot is not written yet. */
  ghost function Pending<S>(s: State<S>): set<nat> {
    if s.producer.Writing? then s.producer.pending else {}
  }

  ghost predicate ProducerInv<S>(c: Config<S>, s: State<S>) {
    && 0 < c.length == |s.ring|
    && s.tail <= s.head <= s.newHead <= s.tail + c.length
    && (forall p :: p in Pending(s) ==> s.head <= p < s.newHead)
    && (forall p :: s.tail <= p < s.newHead && p !in Pending(s) ==> s.ring[p % c.length] == c.source(p))
    && match s.producer
       case Idle => true
       case StoringHead(wantedNewHead, wantedTail) =>
         s.newHead <= wantedNewHead == wantedTail + c.length && s.tail <= wantedTail <= s.newHead
       case StoringTail(wantedNewHead, wantedTail) =>
         s.newHead <= wantedNewHead == wantedTail + c.length && s.tail <= wantedTail <= s.head
       case StoringNewHead(wantedNewHead) => s.newHead <= wantedNewHead <= s.tail + c.length
       case Writing(_) => true
  }

  /** Every copied sample is right, unless its position has been given up since, or the
      reader started before the first position. */
  ghost predicate RightOrGivenUp<S>(c: Config<S>, s: State<S>, r: Reader<S>) {
    r.start >= 0 ==>
      forall k :: 0 <= k < |r.copied| ==> r.copied[k] == c.source(r.start + k) || r.start + k < s.tail
  }

  ghost predicate AllRight<S>(c: Config<S>, r: Reader<S>) {
    r.start >= 0 ==> forall k :: 0 <= k < |r.copied| ==> r.copied[k] == c.source(r.start + k)
  }

  ghost predicate ReaderInv<S>(c: Config<S>, s: State<S>, r: Reader<S>)
    requires 0 < c.length
  {
    var pos := Position(r);
    && RightOrGivenUp(c, s, r)
    && (r.copied != [] ==> r.start < s.head)
    && match r.pc
       case LastHead(_) => r.copied == []
       case SizeFirst(_) => r.copied == [] && r.start + r.wanted <= s.head
       case SizeSecond(_, _) => r.copied == [] && r.start + r.wanted <= s.head
       case LoadingTail => |r.copied| < r.wanted
       case LoadingHead => |r.copied| < r.wanted
       case ClipTest => |r.copied| < r.wanted && 0 <= pos < s.head
       case ClipLoad => |r.copied| < r.wanted && 0 <= pos < s.head
       case Copying(from, n) =>
         && |r.copied| < r.wanted
         && r.start <= from <= pos < from + n <= s.head
         && Slot(from, c.length) + n <= c.length
       case CheckingTail => r.wanted == |r.copied|
       case CheckingHead => r.wanted == |r.copied| && AllRight(c, r)
       case Overrun(from, n) => r.wanted == |r.copied| && r.start + r.wanted < from + n
       case Done(ok) =>
         && r.wanted == |r.copied|
         && (ok ==> 0 <= r.start && AllRight(c, r))
         && (!ok && r.wanted > 0 ==> r.start < s.tail)
       case _ => true
  }

  ghost predicate Inv<S>(c: Config<S>, s: State<S>) {
    && ProducerInv(c, s)
    && forall i :: 0 <= i < |s.readers| ==> ReaderInv(c, s, s.readers[i])
  }

  lemma InitInv<S>(c: Config<S>, s: State<S>)
    requires Init(c, s)
    ensures Inv(c, s)
  {
  }

  /** The tail moves before any slot behind it is overwritten. */
  lemma WriteSlotKeepsInv<S>(c: Config<S>, s: State<S>, pos: nat)
    requires ProducerInv(c, s) && Enabled(c, s, WriteSlot(pos))
    ensures ProducerInv(c, Next(c, s, WriteSlot(pos)))
  {
    var s' := Next(c, s, WriteSlot(pos));
    assert pos in Pending(s) && Pending(s') == Pending(s) - {pos};
    forall p | s.tail <= p < s.newHead && p !in Pending(s')
      ensures s'.ring[p % c.length] == c.source(p)
    {
      if p < pos {
        DistinctSlots(p, pos, c.length);
      } else if pos < p {
        DistinctSlots(pos, p, c.length);
      }
    }
  }

  lemma ProducerKeepsInv<S>(c: Config<S>, s: State<S>, a: Action)
    requires ProducerInv(c, s) && Enabled(c, s, a)
    ensures ProducerInv(c, Next(c, s, a))
    ensures s.tail <= Next(c, s, a).tail && s.head <= Next(c, s, a).head
  {
    var s' := Next(c, s, a);
    match a {
      case Request(length) =>
      case StoreNewHead =>
        assert forall p :: p in Pending(s') <==> s.newHead <= p < s'.newHead;
      case WriteSlot(pos) =>
        WriteSlotKeepsInv(c, s, pos);
      case EndPacket =>
        assert Pending(s') == Pending(s);
      case _ =>
        assert Pending(s') == Pending(s);
    }
  }

  /** What a reader relies on survives every advance of the counters. */
  lemma AdvanceKeepsReader<S>(c: Config<S>, s: State<S>, s': State<S>, r: Reader<S>)
    requires 0 < c.length && ReaderInv(c, s, r)
    requires s.tail <= s'.tail && s.head <= s'.head
    ensures ReaderInv(c, s', r)
  {
  }

  /** A slot below the head either still holds its sample or lies below the tail. */
  lemma SlotHoldsSample<S>(c: Config<S>, s: State<S>, pos: nat)
    requires ProducerInv(c, s) && pos < s.head
    ensures pos % c.length < |s.ring|
    ensures s.tail <= pos ==> s.ring[pos % c.length] == c.source(pos)
  {
    assert pos !in Pending(s);
  }

  lemma AppendKeepsRight<S>(c: Config<S>, s: State<S>, r: Reader<S>, r': Reader<S>, sample: S)
    requires RightOrGivenUp(c, s, r)
    requires 0 <= r.start && s.tail <= Position(r) ==> sample == c.source(Position(r))
    requires r'.start == r.start && r'.copied == r.copied + [sample]
    ensures RightOrGivenUp(c, s, r')
  {
  }

  lemma CopyKeepsReader<S>(c: Config<S>, s: State<S>, r: Reader<S>)
    requires ProducerInv(c, s) && ReaderInv(c, s, r) && r.pc.Copying? && CanStep(c, s, r)
    ensures ReaderInv(c, s, StepOf(c, s, r))
  {
    var pos, from := Position(r), r.pc.pos;
    var slot := Slot(from, c.length) + (pos - from);
    if r.start >= 0 {
      assert slot == pos % c.length by {
        ForwardSlot(from, pos - from, c.length);
      }
      assert s.tail <= pos ==> s.ring[slot] == c.source(pos) by {
        SlotHoldsSample(c, s, pos);
      }
    }
    AppendKeepsRight(c, s, r, StepOf(c, s, r), s.ring[slot]);
  }

  /** A grant is not empty and stops at the end of the ring at the latest. */
  lemma GrantInsideRing(pos: int, asked: nat, length: nat)
    requires 0 < length && 0 < asked
    ensures var n := Grant(pos, asked, length);
            0 < n <= asked && Slot(pos, length) + n <= length
  {
  }

  lemma GrantKeepsReader<S>(c: Config<S>, s: State<S>, r: Reader<S>, asked: nat)
    requires 0 < c.length && RightOrGivenUp(c, s, r) && |r.copied| < r.wanted
    requires r.copied != [] ==> r.start < s.head
    requires 0 < asked && Position(r) + asked <= s.head
    ensures ReaderInv(c, s, r.(pc := Copying(Position(r), Grant(Position(r), asked, c.length))))
  {
    GrantInsideRing(Position(r), asked, c.length);
  }

  lemma ClipKeepsReader<S>(c: Config<S>, s: State<S>, r: Reader<S>)
    requires ProducerInv(c, s) && ReaderInv(c, s, r) && (r.pc.ClipTest? || r.pc.ClipLoad?)
    ensures ReaderInv(c, s, StepOf(c, s, r))
  {
    var pos := Position(r);
    if r.pc.ClipLoad? {
      GrantKeepsReader(c, s, r, s.head - pos);
    } else if pos + Asked(r) <= s.head {
      GrantKeepsReader(c, s, r, Asked(r));
    }
  }

  /** The loads of a request for the last samples. */
  lemma LastKeepsReader<S>(c: Config<S>, s: State<S>, r: Reader<S>)
    requires ProducerInv(c, s) && ReaderInv(c, s, r) && CanStep(c, s, r)
    requires r.pc.LastHead? || r.pc.SizeFirst? || r.pc.SizeSecond?
    ensures ReaderInv(c, s, StepOf(c, s, r))
  {
    if r.pc.SizeSecond? && r.wanted > 0 {
      GrantKeepsReader(c, s, r, r.wanted);
    }
  }

  /** The loads of the two bounds checks, at the start of a request and at the end. */
  lemma CheckKeepsReader<S>(c: Config<S>, s: State<S>, r: Reader<S>)
    requires ProducerInv(c, s) && ReaderInv(c, s, r) && CanStep(c, s, r)
    requires r.pc.LoadingTail? || r.pc.LoadingHead? || r.pc.CheckingTail? || r.pc.CheckingHead?
    ensures ReaderInv(c, s, StepOf(c, s, r))
  {
  }

  lemma StepKeepsReader<S>(c: Config<S>, s: State<S>, r: Reader<S>)
    requires ProducerInv(c, s) && ReaderInv(c, s, r) && CanStep(c, s, r)
    ensures ReaderInv(c, s, StepOf(c, s, r))
  {
    if r.pc.Copying? {
      CopyKeepsReader(c, s, r);
    } else if r.pc.ClipTest? || r.pc.ClipLoad? {
      ClipKeepsReader(c, s, r);
    } else if r.pc.LastHead? || r.pc.SizeFirst? || r.pc.SizeSecond? {
      LastKeepsReader(c, s, r);
    } else {
      CheckKeepsReader(c, s, r);
    }
  }

  lemma NextInv<S>(c: Config<S>, s: State<S>, a: Action)
    requires Inv(c, s) && Enabled(c, s, a)
    ensures Inv(c, Next(c, s, a))
  {
    var s' := Next(c, s, a);
    ProducerKeepsInv(c, s, a);
    forall i | 0 <= i < |s'.readers|
      ensures ReaderInv(c, s', s'.readers[i])
    {
      AdvanceKeepsReader(c, s, s', s.readers[i]);
      if a.StepReader? && a.reader == i {
        StepKeepsReader(c, s, s.readers[i]);
        AdvanceKeepsReader(c, s, s', s'.readers[i]);
      }
    }
  }

  lemma {:induction false} RunInv<S>(c: Config<S>, s: State<S>, actions: seq<Action>)
    requires Inv(c, s) && IsRun(c, s, actions)
    ensures Inv(c, After(c, s, actions))
    decreases |actions|
  {
    if actions == [] {
    } else {
      NextInv(c, s, actions[0]);
      RunInv(c, Next(c, s, actions[0]), actions[1..]);
    }
  }

  // ------------------------------------------------------------- main results

  /** Read safety: in every interleaving of the producer with any number of readers, of
      given positions or of the last samples, a true final check means that the reader
      has copied exactly what it asked for, and that every sample is the producer's
      sample for its absolute position. */
  lemma ReadSafety<S>(c: Config<S>, s: State<S>, actions: seq<Action>, i: nat)
    requires Init(c, s) && IsRun(c, s, actions)
    requires i < |After(c, s, actions).readers|
    requires After(c, s, actions).readers[i].pc == Done(true)
    ensures var r := After(c, s, actions).readers[i];
            && 0 <= r.start && |r.copied| == r.wanted
            && forall k :: 0 <= k < |r.copied| ==> r.copied[k] == c.source(r.start + k)
  {
    InitInv(c, s);
    RunInv(c, s, actions);
  }

  /** No spurious failure: a false final check of a non-empty read means that the
      producer has given the first position up. */
  lemma FailedCheckMeansOverwritten<S>(c: Config<S>, s: State<S>, actions: seq<Action>, i: nat)
    requires Init(c, s) && IsRun(c, s, actions)
    requires i < |After(c, s, actions).readers|
    requires var r := After(c, s, actions).readers[i]; r.pc == Done(false) && r.wanted > 0
    ensures var s' := After(c, s, actions); s'.readers[i].start < s'.tail
  {
    InitInv(c, s);
    RunInv(c, s, actions);
  }

  /** In every reachable state the public window is ordered and at most one ring
      long, and holds the stream: the retained positions are never half-written. */
  lemma PublicWindowHoldsStream<S>(c: Config<S>, s: State<S>, actions: seq<Action>, p: nat)
    requires Init(c, s) && IsRun(c, s, actions)
    ensures var s' := After(c, s, actions);
            && s'.tail <= s'.head <= s'.newHead <= s'.tail + c.length
            && (s'.tail <= p < s'.head ==> p % c.length < |s'.ring| && s'.ring[p % c.length] == c.source(p))
  {
    InitInv(c, s);
    RunInv(c, s, actions);
  }

  /** The grant of a chunk is clipped with a second load of the head. It exceeds
      what was asked for exactly when the head has meanwhile moved past the asked
      range and the ring does not wrap inside it. */
  lemma GrantExceedsAskedExactly<S>(c: Config<S>, s: State<S>, r: Reader<S>)
    requires ProducerInv(c, s) && ReaderInv(c, s, r) && r.pc.ClipLoad?
    ensures var pos := Position(r);
            StepOf(c, s, r).pc.n > Asked(r) <==>
              s.head > pos + Asked(r) && c.length - pos % c.length > Asked(r)
  {
  }

  /** The first load of the clip never grants more than was asked for. */
  lemma UnclippedGrantIsAtMostAsked<S>(c: Config<S>, s: State<S>, r: Reader<S>)
    requires ProducerInv(c, s) && ReaderInv(c, s, r)
    requires r.pc.ClipTest? && StepOf(c, s, r).pc.Copying?
    ensures StepOf(c, s, r).pc.n <= Asked(r)
  {
  }

  /** Nobody ever waits: in every reachable state the producer has a step to take,
      and so has every reader, unless it is about to leave its buffer. */
  lemma NobodyBlocks<S>(c: Config<S>, s: State<S>, actions: seq<Action>, i: nat) returns (a: Action)
    requires Init(c, s) && IsRun(c, s, actions)
    ensures Enabled(c, After(c, s, actions), a) && !a.BeginRead? && !a.BeginLast? && !a.StepReader?
    ensures var s' := After(c, s, actions);
            i < |s'.readers| ==>
              Enabled(c, s', StepReader(i)) || Enabled(c, s', BeginRead(i, 0, 0)) || s'.readers[i].pc.Overrun?
  {
    InitInv(c, s);
    RunInv(c, s, actions);
    var s' := After(c, s, actions);
    match s'.producer {
      case Idle => a := Publish;
      case StoringHead(_, _) => a := StoreHead;
      case StoringTail(_, _) => a := StoreTail;
      case StoringNewHead(_) => a := StoreNewHead;
      case Writing(pending) =>
        if p :| p in pending {
          a := WriteSlot(p);
        } else {
          a := EndPacket;
        }
    }
  }

  lemma {:induction false} RunSnoc<S>(c: Config<S>, s: State<S>, actions: seq<Action>, a: Action)
    requires 0 < c.length && IsRun(c, s, actions) && Enabled(c, After(c, s, actions), a)
    ensures IsRun(c, s, actions + [a])
    ensures After(c, s, actions + [a]) == Next(c, After(c, s, actions), a)
    decreases |actions|
  {
    if actions == [] {
      assert (actions + [a])[1..] == [];
    } else {
      assert (actions + [a])[1..] == actions[1..] + [a];
      RunSnoc(c, Next(c, s, actions[0]), actions[1..], a);
    }
  }

  /** A packet of the producer, staged, copied and published without being disturbed,
      while there is still room in the ring. */
  lemma {:induction false} QuietPacket<S>(c: Config<S>, s: State<S>, actions: seq<Action>, n: nat)
    returns (longer: seq<Action>)
    requires Init(c, s) && IsRun(c, s, actions)
    requires var s1 := After(c, s, actions);
             s1.producer.Idle? && s1.tail == 0 && s1.newHead + n < c.length
    ensures IsRun(c, s, longer)
    ensures var s1, s2 := After(c, s, actions), After(c, s, longer);
            && s2.newHead == s2.head == s1.newHead + n && s2.tail == 0
            && s2.producer.Idle? && s2.readers == s1.readers
  {
    InitInv(c, s);
    var s1 := After(c, s, actions);
    RunInv(c, s, actions);
    ModSmall(s1.newHead, c.length);
    RunSnoc(c, s, actions, Request(n));
    longer := actions + [Request(n)];
    RunSnoc(c, s, longer, StoreNewHead);
    longer := longer + [StoreNewHead];
    var next := s1.newHead;
    while next < s1.newHead + n
      invariant s1.newHead <= next <= s1.newHead + n
      invariant IsRun(c, s, longer)
      invariant var s2 := After(c, s, longer);
                && s2.producer.Writing? && s2.producer.pending == Packet(next, s1.newHead + n)
                && s2.newHead == s1.newHead + n && s2.tail == 0 && s2.readers == s1.readers
                && |s2.ring| == c.length
    {
      RunSnoc(c, s, longer, WriteSlot(next));
      longer := longer + [WriteSlot(next)];
      next := next + 1;
    }
    assert Packet(next, s1.newHead + n) == {};
    RunSnoc(c, s, longer, EndPacket);
    longer := longer + [EndPacket];
    RunSnoc(c, s, longer, Publish);
    longer := longer + [Publish];
  }

  lemma ModSmall(x: nat, length: nat)
    requires x < length
    ensures x % length == x
  {
    DivModUnique(x, 0, x, length);
  }

  /** A reader that has asked for two samples, with three published since it has found
      one too few. */
  lemma ReaderAtClip<S>(source: nat -> S) returns (c: Config<S>, s: State<S>, actions: seq<Action>)
    ensures c == Config(4, source) && Init(c, s) && IsRun(c, s, actions)
    ensures var s' := After(c, s, actions);
            s'.head == 3 && s'.readers == [Reader(ClipLoad, 0, 2, [])]
  {
    c := Config(4, source);
    var x := source(0);
    s := State([x, x, x, x], 0, 0, 0, Idle, [Reader(Asleep, 0, 0, [])]);
    actions := QuietPacket(c, s, [], 1);
    RunSnoc(c, s, actions, BeginRead(0, 0, 2));
    actions := actions + [BeginRead(0, 0, 2)];
    for k := 0 to 3
      invariant IsRun(c, s, actions)
      invariant var s' := After(c, s, actions);
                && s'.newHead == s'.head == 1 && s'.tail == 0 && s'.producer.Idle?
                && s'.readers == [Reader([LoadingTail, LoadingHead, ClipTest, ClipLoad][k], 0, 2, [])]
    {
      RunSnoc(c, s, actions, StepReader(0));
      actions := actions + [StepReader(0)];
    }
    actions := QuietPacket(c, s, actions, 2);
  }

  /** One step of a reader that can take it. */
  lemma StepFirst<S>(c: Config<S>, s: State<S>, actions: seq<Action>) returns (longer: seq<Action>)
    requires Init(c, s) && IsRun(c, s, actions)
    requires var r := After(c, s, actions).readers; |r| == 1 && !CanBegin(r[0]) && !r[0].pc.Overrun?
    ensures IsRun(c, s, longer) && After(c, s, longer).head == After(c, s, actions).head
    ensures CanStep(c, After(c, s, actions), After(c, s, actions).readers[0])
    ensures After(c, s, longer).readers == [StepOf(c, After(c, s, actions), After(c, s, actions).readers[0])]
  {
    InitInv(c, s);
    RunInv(c, s, actions);
    RunSnoc(c, s, actions, StepReader(0));
    longer := actions + [StepReader(0)];
  }

  /** The documented bound on a read request fails under concurrency: a reader that
      asks for two samples is granted three, because two more are published between
      the two loads of the head. It then copies past the end of its buffer. */
  lemma GrantCanExceedAsked<S>(source: nat -> S) returns (c: Config<S>, s: State<S>, actions: seq<Action>)
    ensures c.source == source && Init(c, s) && IsRun(c, s, actions)
    ensures var r := After(c, s, actions).readers;
            |r| == 1 && r[0].wanted == 2 && r[0].pc == Overrun(0, 3) && |r[0].copied| == 2
  {
    hide IsRun, After, Init, Inv;
    c, s, actions := ReaderAtClip(source);
    actions := StepFirst(c, s, actions);
    actions := StepFirst(c, s, actions);
    actions := StepFirst(c, s, actions);
  }

  // ------------------------------------------------------------------- overruns

  /** A reader has been granted more than is left of its buffer. */
  predicate Overgranted<S>(r: Reader<S>) {
    (r.pc.Copying? || r.pc.Overrun?) && r.pc.pos + r.pc.n > r.start + r.wanted
  }

  /** A reader only leaves its buffer when it has been granted too much. */
  lemma OverrunMeansOvergranted<S>(c: Config<S>, s: State<S>, actions: seq<Action>, i: nat)
    requires Init(c, s) && IsRun(c, s, actions)
    requires i < |After(c, s, actions).readers| && After(c, s, actions).readers[i].pc.Overrun?
    ensures Overgranted(After(c, s, actions).readers[i])
  {
    InitInv(c, s);
    RunInv(c, s, actions);
  }

  /** How many of some steps are a reader's. */
  function StepsOf(actions: seq<Action>, i: nat): nat {
    if actions == [] then 0 else (if actions[0] == StepReader(i) then 1 else 0) + StepsOf(actions[1..], i)
  }

  lemma OvergrantedStep<S>(c: Config<S>, s: State<S>, a: Action, i: nat)
    requires Inv(c, s) && Enabled(c, s, a)
    requires i < |s.readers| && s.readers[i].pc.Copying? && Overgranted(s.readers[i])
    ensures |Next(c, s, a).readers| == |s.readers|
    ensures var r, r' := s.readers[i], Next(c, s, a).readers[i];
            && r'.start == r.start && r'.wanted == r.wanted
            && |r'.copied| == |r.copied| + (if a == StepReader(i) then 1 else 0) <= r.wanted
            && r'.pc == if |r'.copied| < r.wanted then r.pc else Overrun(r.pc.pos, r.pc.n)
  {
    hide ProducerInv, RightOrGivenUp, AllRight;
    assert ReaderInv(c, s, s.readers[i]);
  }

  /** A reader that has been granted too much never finishes: it is granted the same as
      long as it copies, and with the last sample its buffer has room for it is about to
      leave the buffer. */
  lemma {:induction false} OvergrantedNeverFinishes<S>(c: Config<S>, s: State<S>, actions: seq<Action>, i: nat)
    requires Inv(c, s) && IsRun(c, s, actions)
    requires i < |s.readers| && s.readers[i].pc.Copying? && Overgranted(s.readers[i])
    ensures |After(c, s, actions).readers| == |s.readers|
    ensures var r, r' := s.readers[i], After(c, s, actions).readers[i];
            && r'.start == r.start && r'.wanted == r.wanted
            && |r'.copied| == |r.copied| + StepsOf(actions, i) <= r.wanted
            && r'.pc == if |r'.copied| < r.wanted then r.pc else Overrun(r.pc.pos, r.pc.n)
    decreases |actions|
  {
    hide Next, Enabled, RightOrGivenUp, AllRight, Pending;
    assert ReaderInv(c, s, s.readers[i]);
    if actions != [] {
      var a, s' := actions[0], Next(c, s, actions[0]);
      NextInv(c, s, a);
      OvergrantedStep(c, s, a, i);
      if s'.readers[i].pc.Copying? {
        OvergrantedNeverFinishes(c, s', actions[1..], i);
      } else {
        OverrunStays(c, s', actions[1..], i);
      }
    }
  }

  lemma {:induction false} OverrunStays<S>(c: Config<S>, s: State<S>, actions: seq<Action>, i: nat)
    requires 0 < c.length && IsRun(c, s, actions) && i < |s.readers| && s.readers[i].pc.Overrun?
    ensures |After(c, s, actions).readers| == |s.readers| && After(c, s, actions).readers[i] == s.readers[i]
    ensures StepsOf(actions, i) == 0
    decreases |actions|
  {
    if actions != [] {
      OverrunStays(c, Next(c, s, actions[0]), actions[1..], i);
    }
  }
}
