// When a reader of the sample ring can be made to copy past the end of its buffer, said
// by what it can look at before it asks.

module RingOverruns {
  import opened Slots
  import opened RingProtocol

  /** Nothing can go wrong for at most one sample, when all of them are public, or when the
      request ends at the start of the ring or one sample behind it. */
  predicate SafeRead<S>(c: Config<S>, s: State<S>, start: nat, wanted: nat)
    requires 0 < c.length
  {
    wanted <= 1 || start + wanted <= s.head || (start + wanted) % c.length <= 1
  }

  predicate Begins(a: Action, i: nat) {
    (a.BeginRead? || a.BeginLast?) && a.reader == i
  }

  ghost predicate NotBegun(actions: seq<Action>, i: nat) {
    forall k :: 0 <= k < |actions| ==> !Begins(actions[k], i)
  }

  // ------------------------------------------------------------- safe requests

  /** A reader that stays inside its buffer, after a request that found the head at
      `found`. */
  ghost predicate Careful<S>(c: Config<S>, s: State<S>, r: Reader<S>, start: nat, wanted: nat, found: nat)
    requires 0 < c.length
  {
    && ReaderInv(c, s, r) && r.start == start && r.wanted == wanted && found <= s.head
    && !r.pc.Overrun? && !Overgranted(r)
    && (r.pc.ClipLoad? ==> |r.copied| + 2 <= wanted && found < start + wanted)
  }

  /** The end of a request that is granted too much lies at least two slots behind the
      start of the ring. */
  lemma OvergrantEnds(pos: nat, asked: nat, length: nat)
    requires 0 < length && pos % length + asked < length
    ensures (pos + asked) % length == pos % length + asked
  {
    ForwardSlot(pos, asked, length);
  }

  lemma CarefulStep<S>(c: Config<S>, s: State<S>, r: Reader<S>, start: nat, wanted: nat, found: nat)
    requires ProducerInv(c, s) && Careful(c, s, r, start, wanted, found) && CanStep(c, s, r)
    requires wanted <= 1 || start + wanted <= found || (start + wanted) % c.length <= 1
    requires !r.pc.LastHead? && !r.pc.SizeFirst? && !r.pc.SizeSecond?
    ensures Careful(c, s, StepOf(c, s, r), start, wanted, found)
    ensures var pc := StepOf(c, s, r).pc; !pc.LastHead? && !pc.SizeFirst? && !pc.SizeSecond?
  {
    hide ProducerInv, RightOrGivenUp, AllRight;
    StepKeepsReader(c, s, r);
    if r.pc.ClipLoad? {
      var pos, asked := Position(r), Asked(r);
      if pos % c.length + asked < c.length {
        OvergrantEnds(pos, asked, c.length);
        assert pos + asked == start + wanted;
      }
    }
  }

  ghost predicate StaysCareful<S>(c: Config<S>, s: State<S>, i: nat, start: nat, wanted: nat, found: nat)
    requires 0 < c.length
  {
    && i < |s.readers| && Careful(c, s, s.readers[i], start, wanted, found)
    && var pc := s.readers[i].pc; !pc.LastHead? && !pc.SizeFirst? && !pc.SizeSecond?
  }

  lemma {:induction false} CarefulRun<S>(
      c: Config<S>, s: State<S>, actions: seq<Action>, i: nat, start: nat, wanted: nat, found: nat)
    requires 0 < c.length && Inv(c, s) && IsRun(c, s, actions) && NotBegun(actions, i)
    requires wanted <= 1 || start + wanted <= found || (start + wanted) % c.length <= 1
    requires StaysCareful(c, s, i, start, wanted, found)
    ensures StaysCareful(c, After(c, s, actions), i, start, wanted, found)
    decreases |actions|
  {
    hide ReaderInv, ProducerInv, CanStep, StepOf;
    if actions != [] {
      var a, s' := actions[0], Next(c, s, actions[0]);
      NextInv(c, s, a);
      ProducerKeepsInv(c, s, a);
      assert !Begins(a, i);
      if a == StepReader(i) {
        CarefulStep(c, s, s.readers[i], start, wanted, found);
        assert s'.readers[i] == StepOf(c, s, s.readers[i]);
      } else {
        assert s'.readers[i] == s.readers[i];
      }
      assert ReaderInv(c, s', s'.readers[i]);
      assert NotBegun(actions[1..], i) by {
        forall k | 0 <= k < |actions[1..]|
          ensures !Begins(actions[1..][k], i)
        {
          assert !Begins(actions[k + 1], i);
        }
      }
      CarefulRun(c, s', actions[1..], i, start, wanted, found);
    }
  }

  /** A safe request never leads the reader out of its buffer, whatever happens. */
  lemma SafeReadNeverOverruns<S>(
      c: Config<S>, s: State<S>, actions: seq<Action>, i: nat, start: nat, wanted: nat)
    requires Inv(c, s) && Enabled(c, s, BeginRead(i, start, wanted)) && SafeRead(c, s, start, wanted)
    requires IsRun(c, Next(c, s, BeginRead(i, start, wanted)), actions) && NotBegun(actions, i)
    ensures var s' := After(c, Next(c, s, BeginRead(i, start, wanted)), actions);
            i < |s'.readers| && !s'.readers[i].pc.Overrun?
  {
    NextInv(c, s, BeginRead(i, start, wanted));
    CarefulRun(c, Next(c, s, BeginRead(i, start, wanted)), actions, i, start, wanted, s.head);
  }

  /** A reader of the last samples asks for nothing behind the head it has found. */
  ghost predicate CarefulLast<S>(c: Config<S>, s: State<S>, i: nat, wanted: nat)
    requires 0 < c.length
  {
    && i < |s.readers|
    && var r := s.readers[i];
       && ReaderInv(c, s, r) && r.wanted == wanted
       && !r.pc.Overrun? && !r.pc.ClipLoad? && !Overgranted(r)
       && (r.pc.LastHead? || r.start + wanted <= s.head)
  }

  lemma CarefulLastStep<S>(c: Config<S>, s: State<S>, i: nat, wanted: nat)
    requires 0 < c.length && ProducerInv(c, s) && CarefulLast(c, s, i, wanted) && CanStep(c, s, s.readers[i])
    ensures CarefulLast(c, Next(c, s, StepReader(i)), i, wanted)
  {
    hide ProducerInv, RightOrGivenUp, AllRight;
    StepKeepsReader(c, s, s.readers[i]);
    AdvanceKeepsReader(c, s, Next(c, s, StepReader(i)), StepOf(c, s, s.readers[i]));
  }

  /** A reader of the last samples never leaves its buffer. */
  lemma {:induction false} LastNeverOverruns<S>(c: Config<S>, s: State<S>, actions: seq<Action>, i: nat, wanted: nat)
    requires 0 < c.length && Inv(c, s) && IsRun(c, s, actions) && NotBegun(actions, i) && CarefulLast(c, s, i, wanted)
    ensures CarefulLast(c, After(c, s, actions), i, wanted)
    decreases |actions|
  {
    hide ReaderInv, ProducerInv, CanStep, StepOf;
    if actions != [] {
      var a, s' := actions[0], Next(c, s, actions[0]);
      NextInv(c, s, a);
      ProducerKeepsInv(c, s, a);
      assert !Begins(a, i);
      if a == StepReader(i) {
        CarefulLastStep(c, s, i, wanted);
      } else {
        assert s'.readers[i] == s.readers[i];
        assert ReaderInv(c, s', s'.readers[i]);
      }
      assert NotBegun(actions[1..], i) by {
        forall k | 0 <= k < |actions[1..]|
          ensures !Begins(actions[1..][k], i)
        {
          assert !Begins(actions[k + 1], i);
        }
      }
      LastNeverOverruns(c, s', actions[1..], i, wanted);
    }
  }

  lemma LastReadNeverOverruns<S>(c: Config<S>, s: State<S>, actions: seq<Action>, i: nat, wanted: nat, tailFirst: bool)
    requires Inv(c, s) && Enabled(c, s, BeginLast(i, wanted, tailFirst))
    requires IsRun(c, Next(c, s, BeginLast(i, wanted, tailFirst)), actions) && NotBegun(actions, i)
    ensures var s' := After(c, Next(c, s, BeginLast(i, wanted, tailFirst)), actions);
            i < |s'.readers| && !s'.readers[i].pc.Overrun?
  {
    NextInv(c, s, BeginLast(i, wanted, tailFirst));
    LastNeverOverruns(c, Next(c, s, BeginLast(i, wanted, tailFirst)), actions, i, wanted);
  }

  // ------------------------------------------------------- composing runs

  /** Some steps that lead from one state to another, in which reader `i` does not begin. */
  ghost predicate Leads<S>(c: Config<S>, s: State<S>, actions: seq<Action>, i: nat, s': State<S>)
    requires 0 < c.length
  {
    IsRun(c, s, actions) && After(c, s, actions) == s' && NotBegun(actions, i)
  }

  lemma LeadsNowhere<S>(c: Config<S>, s: State<S>, i: nat)
    requires 0 < c.length
    ensures Leads(c, s, [], i, s)
  {
  }

  lemma LeadsOne<S>(c: Config<S>, s: State<S>, a: Action, i: nat)
    requires 0 < c.length && Enabled(c, s, a) && !Begins(a, i)
    ensures Leads(c, s, [a], i, Next(c, s, a))
  {
    assert [a][1..] == [];
    assert IsRun(c, Next(c, s, a), []);
  }

  lemma {:induction false} LeadsOn<S>(
      c: Config<S>, s: State<S>, first: seq<Action>, i: nat, mid: State<S>, second: seq<Action>, last: State<S>)
    requires 0 < c.length && Leads(c, s, first, i, mid) && Leads(c, mid, second, i, last)
    ensures Leads(c, s, first + second, i, last)
    decreases |first|
  {
    if first == [] {
      assert first + second == second;
    } else {
      hide Enabled, Next;
      var next := Next(c, s, first[0]);
      assert NotBegun(first[1..], i) by {
        forall k | 0 <= k < |first[1..]|
          ensures !Begins(first[1..][k], i)
        {
          assert !Begins(first[k + 1], i);
        }
      }
      LeadsOn(c, next, first[1..], i, mid, second, last);
      assert (first + second)[1..] == first[1..] + second;
    }
  }

  // ------------------------------------------------ a run into the overrun: the reader

  /** Only reader `i` has moved. */
  function Put<S>(s: State<S>, i: nat, r: Reader<S>): State<S>
    requires i < |s.readers|
  {
    s.(readers := s.readers[i := r])
  }

  /** One step of reader `i`, alone. */
  lemma ReaderSteps<S>(c: Config<S>, s: State<S>, i: nat) returns (actions: seq<Action>, s': State<S>)
    requires Inv(c, s) && i < |s.readers| && CanStep(c, s, s.readers[i])
    ensures Leads(c, s, actions, i, s') && Inv(c, s')
    ensures s' == Put(s, i, StepOf(c, s, s.readers[i]))
  {
    actions, s' := [StepReader(i)], Next(c, s, StepReader(i));
    LeadsOne(c, s, StepReader(i), i);
    NextInv(c, s, StepReader(i));
  }

  /** The end of a grant: the next request, or the end of the buffer. */
  predicate CopyEnds<S>(r: Reader<S>, r': Reader<S>)
    requires r.pc.Copying?
  {
    && r'.start == r.start && r'.wanted == r.wanted
    && if r.pc.pos + r.pc.n <= r.start + r.wanted
       then Position(r') == r.pc.pos + r.pc.n
            && r'.pc == if |r'.copied| < r.wanted then LoadingTail else CheckingTail
       else r'.pc == Overrun(r.pc.pos, r.pc.n)
  }

  /** A reader copies its grant to the end while nobody else moves. */
  lemma {:induction false} CopyGrant<S>(c: Config<S>, s: State<S>, i: nat)
    returns (actions: seq<Action>, s': State<S>)
    requires Inv(c, s) && i < |s.readers| && s.readers[i].pc.Copying?
    ensures Leads(c, s, actions, i, s') && Inv(c, s')
    ensures |s'.readers| == |s.readers| && s' == Put(s, i, s'.readers[i])
    ensures CopyEnds(s.readers[i], s'.readers[i])
    decreases s.readers[i].wanted - |s.readers[i].copied|
  {
    hide ProducerInv, RightOrGivenUp, AllRight, Leads;
    assert ReaderInv(c, s, s.readers[i]);
    RingIsWhole(c, s);
    var first, mid := ReaderSteps(c, s, i);
    if mid.readers[i].pc.Copying? {
      var second;
      second, s' := CopyGrant(c, mid, i);
      LeadsOn(c, s, first, i, mid, second, s');
      actions := first + second;
    } else {
      actions, s' := first, mid;
    }
  }

  lemma RingIsWhole<S>(c: Config<S>, s: State<S>)
    requires ProducerInv(c, s)
    ensures 0 < c.length == |s.ring| && s.tail <= s.head <= s.newHead <= s.tail + c.length
  {
  }

  /** A reader between two requests. */
  ghost predicate Requests<S>(s: State<S>, i: nat, pos: nat, end: nat) {
    && i < |s.readers| && s.readers[i].pc == LoadingTail && 0 <= s.readers[i].start
    && Position(s.readers[i]) == pos < end == s.readers[i].start + s.readers[i].wanted
  }

  /** A request that finds the head inside the range it asks for waits before its clip. */
  lemma RequestReachesClip<S>(c: Config<S>, s: State<S>, i: nat, pos: nat, end: nat)
    returns (actions: seq<Action>, s': State<S>)
    requires Inv(c, s) && Requests(s, i, pos, end) && s.tail <= pos < s.head < end
    ensures Leads(c, s, actions, i, s') && Inv(c, s')
    ensures s' == Put(s, i, s.readers[i].(pc := ClipLoad))
  {
    hide ProducerInv, RightOrGivenUp, AllRight, Leads, Inv;
    InvGivesLength(c, s);
    var a1, s1 := ReaderSteps(c, s, i);
    var a2, s2 := ReaderSteps(c, s1, i);
    var a3, s3 := ReaderSteps(c, s2, i);
    LeadsOn(c, s, a1, i, s1, a2, s2);
    LeadsOn(c, s, a1 + a2, i, s2, a3, s3);
    actions, s' := a1 + a2 + a3, s3;
  }

  lemma InvGivesLength<S>(c: Config<S>, s: State<S>)
    requires Inv(c, s)
    ensures 0 < c.length == |s.ring|
    ensures forall i :: 0 <= i < |s.readers| ==> ReaderInv(c, s, s.readers[i])
  {
  }

  /** One request, copied to its end, while nobody else moves. */
  lemma ReadChunk<S>(c: Config<S>, s: State<S>, i: nat, pos: nat, end: nat)
    returns (actions: seq<Action>, s': State<S>)
    requires Inv(c, s) && Requests(s, i, pos, end) && s.tail <= pos < s.head < end
    ensures Leads(c, s, actions, i, s') && Inv(c, s')
    ensures |s'.readers| == |s.readers| && s' == Put(s, i, s'.readers[i])
    ensures Requests(s', i, pos + Min(s.head - pos, c.length - pos % c.length), end)
    ensures s'.readers[i].start == s.readers[i].start && s'.readers[i].wanted == s.readers[i].wanted
  {
    hide ProducerInv, RightOrGivenUp, AllRight, Leads, Inv;
    var a1, s1 := RequestReachesClip(c, s, i, pos, end);
    InvGivesLength(c, s1);
    var a2, s2 := ReaderSteps(c, s1, i);
    var a3, s3 := CopyGrant(c, s2, i);
    LeadsOn(c, s, a1, i, s1, a2, s2);
    LeadsOn(c, s, a1 + a2, i, s2, a3, s3);
    actions, s' := a1 + a2 + a3, s3;
  }

  // ---------------------------------------------- a run into the overrun: the producer

  /** No packet crosses the end of the ring. */
  predicate WholePacket<S>(c: Config<S>, s: State<S>)
    requires 0 < c.length
  {
    match s.producer
    case StoringHead(wanted, _) => s.newHead % c.length + (wanted - s.newHead) <= c.length
    case StoringTail(wanted, _) => s.newHead % c.length + (wanted - s.newHead) <= c.length
    case StoringNewHead(wanted) => s.newHead % c.length + (wanted - s.newHead) <= c.length
    case _ => true
  }

  lemma WholePacketStep<S>(c: Config<S>, s: State<S>, a: Action)
    requires ProducerInv(c, s) && WholePacket(c, s) && Enabled(c, s, a)
    ensures WholePacket(c, Next(c, s, a))
  {
  }

  lemma {:induction false} WholePacketRun<S>(c: Config<S>, s: State<S>, actions: seq<Action>)
    requires 0 < c.length && Inv(c, s) && WholePacket(c, s) && IsRun(c, s, actions)
    ensures Inv(c, After(c, s, actions)) && WholePacket(c, After(c, s, actions))
    decreases |actions|
  {
    hide ReaderInv, WholePacket, Next, Enabled;
    if actions != [] {
      NextInv(c, s, actions[0]);
      WholePacketStep(c, s, actions[0]);
      WholePacketRun(c, Next(c, s, actions[0]), actions[1..]);
    }
  }

  /** A producer that goes on with its packet, or stages one more sample, and never
      publishes. */
  ghost function QuietAction<S>(s: State<S>): Action {
    match s.producer
    case Idle => Request(1)
    case StoringHead(_, _) => StoreHead
    case StoringTail(_, _) => StoreTail
    case StoringNewHead(_) => StoreNewHead
    case Writing(pending) => if pending == {} then EndPacket else var p :| p in pending; WriteSlot(p)
  }

  /** The staged head, once the packet in progress is staged. */
  function Staged<S>(s: State<S>): nat {
    match s.producer
    case StoringHead(wanted, _) => wanted
    case StoringTail(wanted, _) => wanted
    case StoringNewHead(wanted) => wanted
    case _ => s.newHead
  }

  /** How far the packet in progress still is from its end. */
  function Phase<S>(s: State<S>): nat {
    match s.producer
    case Idle => 0
    case StoringHead(_, _) => 4
    case StoringTail(_, _) => 3
    case StoringNewHead(_) => 2
    case Writing(_) => 1
  }

  ghost predicate PacketGoesOn<S>(s: State<S>, s': State<S>) {
    || (s.producer.Idle? && Staged(s') == Staged(s) + 1)
    || (Staged(s') == Staged(s) && Phase(s') < Phase(s))
    || (Staged(s') == Staged(s) && Phase(s') == Phase(s) && |Pending(s')| < |Pending(s)|)
  }

  lemma QuietEnabled<S>(c: Config<S>, s: State<S>, i: nat)
    requires Inv(c, s)
    ensures 0 < c.length && Enabled(c, s, QuietAction(s)) && !Begins(QuietAction(s), i)
  {
  }

  lemma QuietEffect<S>(c: Config<S>, s: State<S>)
    requires 0 < c.length && ProducerInv(c, s) && Enabled(c, s, QuietAction(s))
    ensures var s' := Next(c, s, QuietAction(s));
            && s'.readers == s.readers && PacketGoesOn(s, s')
            && s'.head == (if s.producer.StoringHead? then Max(s.head, s.producer.wantedTail) else s.head)
            && s'.tail == (if s.producer.StoringTail? then s.producer.wantedTail else s.tail)
            && (s'.producer.StoringHead? ==> s.producer.Idle? && s'.producer.wantedTail <= s.head + 1)
  {
  }

  lemma QuietStep<S>(c: Config<S>, s: State<S>, i: nat) returns (actions: seq<Action>, s': State<S>)
    requires 0 < c.length && Inv(c, s) && WholePacket(c, s)
    ensures Leads(c, s, actions, i, s') && Inv(c, s') && WholePacket(c, s')
    ensures s'.readers == s.readers && PacketGoesOn(s, s')
    ensures s'.head == (if s.producer.StoringHead? then Max(s.head, s.producer.wantedTail) else s.head)
    ensures s'.tail == (if s.producer.StoringTail? then s.producer.wantedTail else s.tail)
    ensures s'.producer.StoringHead? ==> s.producer.Idle? && s'.producer.wantedTail <= s.head + 1
  {
    hide Next, Enabled, WholePacket, Leads, ReaderInv, PacketGoesOn, QuietAction;
    QuietEnabled(c, s, i);
    QuietEffect(c, s);
    actions, s' := [QuietAction(s)], Next(c, s, QuietAction(s));
    LeadsOne(c, s, QuietAction(s), i);
    NextInv(c, s, QuietAction(s));
    WholePacketStep(c, s, QuietAction(s));
  }

  /** A producer that stages enough and publishes, while no reader moves. */
  lemma {:induction false} RaiseHead<S>(c: Config<S>, s: State<S>, i: nat, target: nat)
    returns (actions: seq<Action>, s': State<S>)
    requires 0 < c.length && Inv(c, s) && WholePacket(c, s)
    ensures Leads(c, s, actions, i, s') && Inv(c, s') && s'.readers == s.readers && target < s'.head
    decreases Max(0, target + 1 - Staged(s)), Phase(s), |Pending(s)|
  {
    hide WholePacket, Leads, ReaderInv;
    if s.producer.Idle? && target < s.newHead {
      actions, s' := [Publish], Next(c, s, Publish);
      LeadsOne(c, s, Publish, i);
      NextInv(c, s, Publish);
    } else {
      var first, mid := QuietStep(c, s, i);
      var second;
      second, s' := RaiseHead(c, mid, i, target);
      LeadsOn(c, s, first, i, mid, second, s');
      actions := first + second;
    }
  }

  // --------------------------------------------- a run into the overrun: both together

  /** Where the last lap of a request begins. */
  function Lap(end: nat, length: nat): (lap: nat)
    requires 0 < length
    ensures lap <= end
  {
    end - end % length
  }

  lemma LapFacts(end: nat, length: nat, pos: nat)
    requires 0 < length
    ensures end < Lap(end, length) + length
    ensures pos < Lap(end, length) ==> pos + (length - pos % length) <= Lap(end, length)
    ensures Lap(end, length) <= pos < Lap(end, length) + length ==> pos % length == pos - Lap(end, length)
    ensures pos < Lap(end, length) + length ==> pos + (length - pos % length) <= Lap(end, length) + length
  {
    var d, lap := end / length, Lap(end, length);
    assert end == d * length + end % length;
    assert lap == d * length;
    if lap <= pos < lap + length {
      DivModUnique(pos, d, pos - lap, length);
    }
    if pos < lap {
      var e := pos / length;
      assert pos == e * length + pos % length;
      if d <= e {
        MulMono(d, e, length);
        assert false;
      }
      MulMono(e + 1, d, length);
      Distribute(e + 1, 1, length);
    }
  }

  /** The head can only be moved by small steps now, or up to the last lap. */
  predicate Tame<S>(s: State<S>, lap: nat) {
    s.producer.StoringHead? ==> s.producer.wantedTail <= Max(lap, s.head + 1)
  }

  /** The reader on its way to the last lap, with the head not yet at the end. */
  ghost predicate OnItsWay<S>(c: Config<S>, s: State<S>, i: nat, pos: nat, end: nat)
    requires 0 < c.length
  {
    && Inv(c, s) && WholePacket(c, s) && Requests(s, i, pos, end)
    && s.tail <= pos <= s.head < end && end % c.length >= 2
    && (pos <= Lap(end, c.length) || pos < s.head)
    && (pos <= Lap(end, c.length) ==> Tame(s, Lap(end, c.length)) || (pos == Lap(end, c.length) && pos < s.head))
  }

  /** While the reader waits at the head, the producer moves the head on, by at most one
      sample or up to the last lap. */
  lemma WaitAtHead<S>(c: Config<S>, s: State<S>, i: nat, pos: nat, end: nat)
    returns (actions: seq<Action>, s': State<S>)
    requires 0 < c.length && OnItsWay(c, s, i, pos, end) && pos == s.head
    ensures Leads(c, s, actions, i, s') && OnItsWay(c, s', i, pos, end)
    ensures s.head <= s'.head && (s'.head == s.head ==> PacketGoesOn(s, s'))
  {
    hide WholePacket, Leads, ReaderInv, PacketGoesOn;
    LapFacts(end, c.length, pos);
    actions, s' := QuietStep(c, s, i);
  }

  lemma ChunkOnTheWay<S>(c: Config<S>, s: State<S>, i: nat, pos: nat, end: nat)
    returns (actions: seq<Action>, s': State<S>, next: nat)
    requires 0 < c.length && OnItsWay(c, s, i, pos, end) && pos < s.head && pos < Lap(end, c.length)
    ensures Leads(c, s, actions, i, s') && OnItsWay(c, s', i, next, end)
    ensures pos < next && s'.head == s.head
  {
    hide Leads, ReaderInv, Inv;
    LapFacts(end, c.length, pos);
    actions, s' := ReadChunk(c, s, i, pos, end);
    next := pos + Min(s.head - pos, c.length - pos % c.length);
  }

  /** How much the head can still be staged ahead of itself. */
  function Room<S>(c: Config<S>, s: State<S>): nat {
    Max(0, s.head + c.length + 2 - Staged(s))
  }

  lemma StagedBound<S>(c: Config<S>, s: State<S>)
    requires ProducerInv(c, s) && s.producer.Idle?
    ensures Staged(s) < s.head + c.length + 1
  {
  }

  lemma {:induction false} ToLastLap<S>(c: Config<S>, s: State<S>, i: nat, pos: nat, end: nat)
    returns (actions: seq<Action>, s': State<S>, next: nat)
    requires 0 < c.length && OnItsWay(c, s, i, pos, end)
    ensures Leads(c, s, actions, i, s') && OnItsWay(c, s', i, next, end)
    ensures Lap(end, c.length) <= next < s'.head
    decreases (end - pos) + (end - s.head), Room(c, s), Phase(s), |Pending(s)|
  {
    hide WholePacket, Leads, ReaderInv, Lap;
    if pos < s.head && Lap(end, c.length) <= pos {
      LeadsNowhere(c, s, i);
      actions, s', next := [], s, pos;
    } else {
      var first, mid, at;
      if pos < s.head {
        first, mid, at := ChunkOnTheWay(c, s, i, pos, end);
      } else {
        first, mid := WaitAtHead(c, s, i, pos, end);
        at := pos;
        if s.producer.Idle? {
          StagedBound(c, s);
        }
      }
      var second;
      second, s', next := ToLastLap(c, mid, i, at, end);
      LeadsOn(c, s, first, i, mid, second, s');
      actions := first + second;
    }
  }

  /** In the last lap the reader waits before its clip until the head has passed the end
      of the request; it is then granted too much. */
  lemma OverrunInLastLap<S>(c: Config<S>, s: State<S>, i: nat, pos: nat, end: nat)
    returns (actions: seq<Action>, s': State<S>)
    requires 0 < c.length && OnItsWay(c, s, i, pos, end) && Lap(end, c.length) <= pos < s.head
    ensures Leads(c, s, actions, i, s') && i < |s'.readers| && s'.readers[i].pc.Overrun?
  {
    hide Leads, ReaderInv, Inv, WholePacket, Lap, ProducerInv;
    LapFacts(end, c.length, pos);
    var a1, s1 := RequestReachesClip(c, s, i, pos, end);
    PutKeepsPacket(c, s, i, s1.readers[i]);
    var a2, s2 := RaiseHead(c, s1, i, end);
    InvGivesLength(c, s2);
    var a3, s3 := ReaderSteps(c, s2, i);
    var a4, s4 := CopyGrant(c, s3, i);
    LeadsOn(c, s, a1, i, s1, a2, s2);
    LeadsOn(c, s, a1 + a2, i, s2, a3, s3);
    LeadsOn(c, s, a1 + a2 + a3, i, s3, a4, s4);
    actions, s' := a1 + a2 + a3 + a4, s4;
  }

  lemma PutKeepsPacket<S>(c: Config<S>, s: State<S>, i: nat, r: Reader<S>)
    requires 0 < c.length && i < |s.readers| && WholePacket(c, s)
    ensures WholePacket(c, Put(s, i, r))
  {
  }

  ghost predicate Reachable<S(!new)>(c: Config<S>, s: State<S>) {
    exists s0, actions :: Init(c, s0) && IsRun(c, s0, actions) && After(c, s0, actions) == s
  }

  lemma ReachableInv<S(!new)>(c: Config<S>, s: State<S>)
    requires Reachable(c, s)
    ensures 0 < c.length && Inv(c, s) && WholePacket(c, s)
  {
    var s0, actions :| Init(c, s0) && IsRun(c, s0, actions) && After(c, s0, actions) == s;
    InitInv(c, s0);
    WholePacketRun(c, s0, actions);
  }

  /** A request of public samples that is not safe can lead the reader out of its buffer. */
  lemma UnsafeReadCanOverrun<S(!new)>(c: Config<S>, s: State<S>, i: nat, start: nat, wanted: nat)
    returns (actions: seq<Action>)
    requires Reachable(c, s) && Enabled(c, s, BeginRead(i, start, wanted)) && s.tail <= start < s.head
    requires !SafeRead(c, s, start, wanted)
    ensures IsRun(c, Next(c, s, BeginRead(i, start, wanted)), actions) && NotBegun(actions, i)
    ensures var s' := After(c, Next(c, s, BeginRead(i, start, wanted)), actions);
            i < |s'.readers| && s'.readers[i].pc.Overrun?
  {
    ReachableInv(c, s);
    var s1, end := Next(c, s, BeginRead(i, start, wanted)), start + wanted;
    NextInv(c, s, BeginRead(i, start, wanted));
    WholePacketStep(c, s, BeginRead(i, start, wanted));
    LapFacts(end, c.length, start);
    LapFacts(end, c.length, s.newHead);
    assert OnItsWay(c, s1, i, start, end);
    var a1, s2, pos := ToLastLap(c, s1, i, start, end);
    var a2, s3 := OverrunInLastLap(c, s2, i, pos, end);
    LeadsOn(c, s1, a1, i, s2, a2, s3);
    actions := a1 + a2;
  }

  ghost predicate CanOverrun<S>(c: Config<S>, s: State<S>, i: nat, start: nat, wanted: nat)
    requires 0 < c.length && Enabled(c, s, BeginRead(i, start, wanted))
  {
    exists actions: seq<Action> :: Overruns(c, Next(c, s, BeginRead(i, start, wanted)), actions, i)
  }

  ghost predicate Overruns<S>(c: Config<S>, s: State<S>, actions: seq<Action>, i: nat)
    requires 0 < c.length
  {
    && IsRun(c, s, actions) && NotBegun(actions, i)
    && i < |After(c, s, actions).readers| && After(c, s, actions).readers[i].pc.Overrun?
  }

  /** In every reachable state, a request that starts at a public position can be granted
      too much, and then leaves its buffer, if and only if it is not safe. */
  lemma OverrunIffUnsafe<S(!new)>(c: Config<S>, s: State<S>, i: nat, start: nat, wanted: nat)
    requires Reachable(c, s) && 0 < c.length && Enabled(c, s, BeginRead(i, start, wanted))
    requires s.tail <= start < s.head
    ensures CanOverrun(c, s, i, start, wanted) <==> !SafeRead(c, s, start, wanted)
  {
    hide Next, Enabled, IsRun, After;
    ReachableInv(c, s);
    var s1 := Next(c, s, BeginRead(i, start, wanted));
    if SafeRead(c, s, start, wanted) {
      forall actions: seq<Action> | IsRun(c, s1, actions) && NotBegun(actions, i)
        ensures !Overruns(c, s1, actions, i)
      {
        SafeReadNeverOverruns(c, s, actions, i, start, wanted);
      }
    } else {
      var actions := UnsafeReadCanOverrun(c, s, i, start, wanted);
      assert Overruns(c, s1, actions, i);
    }
  }
}
