// What the counters of the sample ring are in every reachable state, and what a reader gets
// for its steps: a result after a bounded number of them, and the samples it asked for
// unless they are overwritten.

module RingProgress {
  import opened Slots
  import opened RingProtocol
  import opened RingOverruns

  // ------------------------------------------------------------------ the counters

  /** The position published last, when `p` was before some steps. */
  ghost function PublishedAfter<S>(c: Config<S>, s: State<S>, actions: seq<Action>, p: nat): nat
    requires 0 < c.length && IsRun(c, s, actions)
    decreases |actions|
  {
    if actions == [] then p
    else PublishedAfter(c, Next(c, s, actions[0]), actions[1..], if actions[0].Publish? then s.newHead else p)
  }

  /** Where a packet that is being made room for will end. */
  function Goal<S>(s: State<S>): nat {
    match s.producer
    case StoringHead(wantedNewHead, _) => wantedNewHead
    case StoringTail(wantedNewHead, _) => wantedNewHead
    case StoringNewHead(wantedNewHead) => wantedNewHead
    case _ => s.newHead
  }

  /** The tail is as far as the ring is short of room, for the staged samples before it is
      stored and for those of the packet behind it; and the head is the position published
      last, unless room had to be made there. */
  ghost predicate CountersAre<S>(c: Config<S>, s: State<S>, published: nat) {
    var before, behind := Max(0, s.newHead - c.length), Max(0, Goal(s) - c.length);
    && published <= s.newHead <= Goal(s) <= s.newHead + c.length
    && match s.producer
       case Idle => s.tail == before && s.head == Max(published, before)
       case StoringHead(_, wantedTail) =>
         s.tail == before && s.head == Max(published, before) && wantedTail == behind == Goal(s) - c.length
       case StoringTail(_, wantedTail) =>
         s.tail == before && s.head == Max(published, behind) && wantedTail == behind == Goal(s) - c.length
       case StoringNewHead(_) => s.tail == behind && s.head == Max(published, behind)
       case Writing(_) => s.tail == before && s.head == Max(published, before)
  }

  lemma CountersStep<S>(c: Config<S>, s: State<S>, a: Action, p: nat)
    requires ProducerInv(c, s) && Enabled(c, s, a) && CountersAre(c, s, p)
    ensures CountersAre(c, Next(c, s, a), if a.Publish? then s.newHead else p)
  {
  }

  /** In every reachable state. */
  lemma {:induction false} CountersAreExact<S>(c: Config<S>, s: State<S>, actions: seq<Action>, p: nat)
    requires Inv(c, s) && IsRun(c, s, actions) && CountersAre(c, s, p)
    ensures CountersAre(c, After(c, s, actions), PublishedAfter(c, s, actions, p))
    decreases |actions|
  {
    hide CountersAre, ProducerInv, ReaderInv, Next, Enabled;
    InvGivesLength(c, s);
    if actions != [] {
      var a := actions[0];
      CountersStep(c, s, a, p);
      NextInv(c, s, a);
      CountersAreExact(c, Next(c, s, a), actions[1..], if a.Publish? then s.newHead else p);
    }
  }

  /** Between two packets the ring keeps the last samples it has room for, and what was
      published of them is public. */
  lemma IdleCounters<S>(c: Config<S>, s: State<S>, actions: seq<Action>)
    requires Init(c, s) && IsRun(c, s, actions) && After(c, s, actions).producer.Idle?
    ensures var s', published := After(c, s, actions), PublishedAfter(c, s, actions, 0);
            && s'.tail == Max(0, s'.newHead - c.length)
            && s'.head == Max(published, s'.tail) && published <= s'.newHead
  {
    InitInv(c, s);
    CountersAreExact(c, s, actions, 0);
  }

  // --------------------------------------------------------------------- wait-freedom

  /** A bound on the steps a reader still takes. */
  function StepsLeft<S>(r: Reader<S>): nat {
    var left := Max(0, r.wanted - |r.copied|);
    match r.pc
    case LastHead(_) => 5 * r.wanted + 5
    case SizeFirst(_) => 5 * r.wanted + 4
    case SizeSecond(_, _) => 5 * r.wanted + 3
    case LoadingTail => 5 * left + 4
    case LoadingHead => 5 * left + 3
    case ClipTest => 5 * left + 2
    case ClipLoad => 5 * left + 1
    case Copying(_, _) => 5 * left
    case CheckingTail => 2
    case CheckingHead => 1
    case _ => 0
  }

  predicate Finished<S>(r: Reader<S>) {
    r.pc.Refused? || r.pc.Done? || r.pc.Overrun?
  }

  lemma StepCounts<S>(c: Config<S>, s: State<S>, r: Reader<S>)
    requires 0 < c.length && ReaderInv(c, s, r) && CanStep(c, s, r)
    ensures StepsLeft(StepOf(c, s, r)) < StepsLeft(r)
    ensures !StepOf(c, s, r).pc.Asleep?
  {
    hide RightOrGivenUp, AllRight, Slot;
  }

  lemma NotBegunLater(actions: seq<Action>, i: nat)
    requires actions != [] && NotBegun(actions, i)
    ensures !Begins(actions[0], i) && NotBegun(actions[1..], i)
  {
    forall k | 0 <= k < |actions[1..]|
      ensures !Begins(actions[1..][k], i)
    {
      assert !Begins(actions[k + 1], i);
    }
  }

  /** Whatever the producer and the other readers do, the steps a reader takes are counted
      down. */
  lemma {:induction false} StepsAreCounted<S>(c: Config<S>, s: State<S>, actions: seq<Action>, i: nat)
    requires Inv(c, s) && IsRun(c, s, actions) && NotBegun(actions, i)
    requires i < |s.readers| && !s.readers[i].pc.Asleep?
    ensures i < |After(c, s, actions).readers| && !After(c, s, actions).readers[i].pc.Asleep?
    ensures StepsOf(actions, i) + StepsLeft(After(c, s, actions).readers[i]) <= StepsLeft(s.readers[i])
    decreases |actions|
  {
    hide ReaderInv, ProducerInv, CanStep, StepOf, StepsLeft;
    InvGivesLength(c, s);
    if actions != [] {
      var a, s' := actions[0], Next(c, s, actions[0]);
      NextInv(c, s, a);
      NotBegunLater(actions, i);
      if a == StepReader(i) {
        StepCounts(c, s, s.readers[i]);
        assert s'.readers[i] == StepOf(c, s, s.readers[i]);
      } else {
        assert s'.readers[i] == s.readers[i];
      }
      StepsAreCounted(c, s', actions[1..], i);
    }
  }

  /** A reader that is awake and has no steps left has finished. */
  lemma NoStepsLeft<S>(c: Config<S>, s: State<S>, r: Reader<S>)
    requires 0 < c.length && ReaderInv(c, s, r) && !r.pc.Asleep?
    ensures StepsLeft(r) == 0 <==> Finished(r)
  {
    hide RightOrGivenUp, AllRight;
  }

  /** Readers are wait-free: a request for `wanted` samples takes its reader at most five steps
      for each of them and five more, in every interleaving. */
  lemma ReadersAreWaitFree<S>(c: Config<S>, s: State<S>, begin: Action, actions: seq<Action>, i: nat, wanted: nat)
    requires Inv(c, s) && Enabled(c, s, begin) && Begins(begin, i) && begin.wanted == wanted
    requires IsRun(c, Next(c, s, begin), actions) && NotBegun(actions, i)
    ensures StepsOf(actions, i) <= 5 * wanted + 5
    ensures i < |After(c, Next(c, s, begin), actions).readers|
    ensures StepsOf(actions, i) == 5 * wanted + 5 ==> Finished(After(c, Next(c, s, begin), actions).readers[i])
  {
    hide ReaderInv, ProducerInv;
    InvGivesLength(c, s);
    NextInv(c, s, begin);
    var s1 := Next(c, s, begin);
    assert s1.readers[i].wanted == wanted && StepsLeft(s1.readers[i]) <= 5 * wanted + 5;
    StepsAreCounted(c, s1, actions, i);
    RunInv(c, s1, actions);
    var s2 := After(c, s1, actions);
    assert ReaderInv(c, s2, s2.readers[i]);
    NoStepsLeft(c, s2, s2.readers[i]);
  }

  // ------------------------------------------------------- what is there is delivered

  /** A reader of public samples, which end at `low` or behind it: as long as its first sample
      is not overwritten, it is on its way to them. */
  ghost predicate Served<S>(c: Config<S>, s: State<S>, r: Reader<S>, wanted: nat, low: nat)
    requires 0 < c.length
  {
    && ReaderInv(c, s, r) && r.wanted == wanted && low <= s.head
    && !r.pc.Overrun? && !r.pc.ClipLoad? && !Overgranted(r) && !r.pc.Asleep?
    && (!r.pc.LastHead? ==> low <= r.start + wanted <= s.head)
    && (r.pc.SizeSecond? ==>
          if r.pc.tailFirst then r.pc.first <= s.tail else low <= r.start + wanted <= r.pc.first)
    && (!r.pc.LastHead? && s.tail <= r.start ==> !r.pc.Refused? && r.pc != Done(false))
  }

  lemma ServedStep<S>(c: Config<S>, s: State<S>, r: Reader<S>, wanted: nat, low: nat)
    requires ProducerInv(c, s) && Served(c, s, r, wanted, low) && CanStep(c, s, r) && 0 < wanted
    ensures Served(c, s, StepOf(c, s, r), wanted, low)
  {
    hide RightOrGivenUp, AllRight;
    StepKeepsReader(c, s, r);
    if r.pc.ClipTest? {
      GrantInsideRing(Position(r), Asked(r), c.length);
    }
  }

  lemma ServedLater<S>(c: Config<S>, s: State<S>, s': State<S>, r: Reader<S>, wanted: nat, low: nat)
    requires 0 < c.length && Served(c, s, r, wanted, low) && s.tail <= s'.tail && s.head <= s'.head
    ensures Served(c, s', r, wanted, low)
  {
    AdvanceKeepsReader(c, s, s', r);
  }

  lemma {:induction false} ServedRun<S>(
      c: Config<S>, s: State<S>, actions: seq<Action>, i: nat, wanted: nat, low: nat)
    requires Inv(c, s) && IsRun(c, s, actions) && NotBegun(actions, i) && 0 < wanted
    requires i < |s.readers| && Served(c, s, s.readers[i], wanted, low)
    ensures var s' := After(c, s, actions); i < |s'.readers| && Served(c, s', s'.readers[i], wanted, low)
    decreases |actions|
  {
    hide ReaderInv, ProducerInv, CanStep, StepOf, Served;
    InvGivesLength(c, s);
    if actions != [] {
      var a, s' := actions[0], Next(c, s, actions[0]);
      NextInv(c, s, a);
      ProducerKeepsInv(c, s, a);
      NotBegunLater(actions, i);
      if a == StepReader(i) {
        ServedStep(c, s, s.readers[i], wanted, low);
        assert s'.readers[i] == StepOf(c, s, s.readers[i]);
        ServedLater(c, s, s', s'.readers[i], wanted, low);
      } else {
        assert s'.readers[i] == s.readers[i];
        ServedLater(c, s, s', s.readers[i], wanted, low);
      }
      ServedRun(c, s', actions[1..], i, wanted, low);
    }
  }

  /** The reader has got exactly the samples that end at a position. */
  ghost predicate Delivered<S>(c: Config<S>, r: Reader<S>, end: int) {
    && r.pc == Done(true) && 0 <= r.start && r.start + |r.copied| == end
    && forall k :: 0 <= k < |r.copied| ==> r.copied[k] == c.source(r.start + k)
  }

  lemma ServedIsDelivered<S>(c: Config<S>, s: State<S>, r: Reader<S>, wanted: nat, low: nat)
    requires 0 < c.length && Served(c, s, r, wanted, low) && Finished(r) && s.tail <= r.start
    ensures Delivered(c, r, r.start + wanted) && low <= r.start + wanted <= s.head
  {
  }

  /** A request for public samples is neither refused nor in vain unless they are overwritten:
      as long as the tail has not passed the first one, a reader that has finished has got
      them all, and its check was true. */
  lemma PublicReadSucceeds<S>(
      c: Config<S>, s: State<S>, actions: seq<Action>, i: nat, start: nat, wanted: nat)
    requires Inv(c, s) && Enabled(c, s, BeginRead(i, start, wanted)) && 0 < wanted && start + wanted <= s.head
    requires IsRun(c, Next(c, s, BeginRead(i, start, wanted)), actions) && NotBegun(actions, i)
    ensures var s' := After(c, Next(c, s, BeginRead(i, start, wanted)), actions);
            && i < |s'.readers|
            && (Finished(s'.readers[i]) && s'.tail <= start ==>
                  s'.readers[i].start == start && Delivered(c, s'.readers[i], start + wanted))
  {
    hide ReaderInv, ProducerInv, Served, Delivered;
    InvGivesLength(c, s);
    var s1 := Next(c, s, BeginRead(i, start, wanted));
    NextInv(c, s, BeginRead(i, start, wanted));
    BegunIsServed(c, s, i, start, wanted);
    ServedRun(c, s1, actions, i, wanted, start + wanted);
    CarefulRun(c, s1, actions, i, start, wanted, s.head);
    var s2 := After(c, s1, actions);
    assert Careful(c, s2, s2.readers[i], start, wanted, s.head);
    if Finished(s2.readers[i]) && s2.tail <= start {
      ServedIsDelivered(c, s2, s2.readers[i], wanted, start + wanted);
    }
  }

  lemma BegunIsServed<S>(c: Config<S>, s: State<S>, i: nat, start: nat, wanted: nat)
    requires Inv(c, s) && Enabled(c, s, BeginRead(i, start, wanted)) && 0 < wanted && start + wanted <= s.head
    ensures var s1 := Next(c, s, BeginRead(i, start, wanted));
            && Served(c, s1, s1.readers[i], wanted, start + wanted)
            && StaysCareful(c, s1, i, start, wanted, s.head)
  {
    hide ProducerInv, RightOrGivenUp, AllRight;
    InvGivesLength(c, s);
    NextInv(c, s, BeginRead(i, start, wanted));
    var s1 := Next(c, s, BeginRead(i, start, wanted));
    assert ReaderInv(c, s1, s1.readers[i]);
  }

  /** A request for the last samples delivers samples that end no earlier than the head it
      found, under the same condition. */
  lemma LastReadSucceeds<S>(
      c: Config<S>, s: State<S>, actions: seq<Action>, i: nat, wanted: nat, tailFirst: bool)
    requires Inv(c, s) && Enabled(c, s, BeginLast(i, wanted, tailFirst)) && 0 < wanted
    requires IsRun(c, Next(c, s, BeginLast(i, wanted, tailFirst)), actions) && NotBegun(actions, i)
    ensures var s' := After(c, Next(c, s, BeginLast(i, wanted, tailFirst)), actions);
            && i < |s'.readers|
            && (Finished(s'.readers[i]) && s'.tail <= s'.readers[i].start ==>
                  && Delivered(c, s'.readers[i], s'.readers[i].start + wanted)
                  && s.head <= s'.readers[i].start + wanted <= s'.head)
  {
    hide ReaderInv, ProducerInv, Delivered;
    InvGivesLength(c, s);
    var s1 := Next(c, s, BeginLast(i, wanted, tailFirst));
    NextInv(c, s, BeginLast(i, wanted, tailFirst));
    assert ReaderInv(c, s1, s1.readers[i]);
    assert Served(c, s1, s1.readers[i], wanted, s.head);
    hide Served;
    ServedRun(c, s1, actions, i, wanted, s.head);
    var s2 := After(c, s1, actions);
    if Finished(s2.readers[i]) && s2.tail <= s2.readers[i].start {
      ServedIsDelivered(c, s2, s2.readers[i], wanted, s.head);
    }
  }
}
