// What the transmitter should deliver: the queued messages, in order, each in
// whole blocks, with the radio retuned at most once for each.

module Emission {
  import opened Basics
  import opened Slots
  import opened Synthesis
  import opened Modulations

  /** A message as far as its sound is concerned. */
  datatype Sent = Sent(bits: seq<bool>, repeat: nat, scheme: Scheme)

  /** What is left of the message in progress, and the messages that wait. */
  datatype Pending = Pending(current: Option<seq<Iq>>, queue: seq<Sent>)

  /** The outcome of one call: a block of samples, or a request to retune. */
  datatype Event = Block(samples: seq<Iq>) | Retune(phy: Phy)

  datatype Outcome = Outcome(pending: Pending, phy: Phy, event: Event)

  function Silence(n: nat): seq<Iq> {
    seq(n, _ => Iq(0, 0))
  }

  /** The first `len` samples, padded with silence. */
  function Padded(samples: seq<Iq>, len: nat): (block: seq<Iq>)
    ensures |block| == len
  {
    samples[..Min(len, |samples|)] + Silence(len - Min(len, |samples|))
  }

  /** The radio parameters a message asks for. */
  function Retuned(s: Scheme, phy: Phy): Phy {
    var tuned := phy.(centralFreq := CentralFrequency(s));
    if phy.sampleRate < CHANNEL_WIDTH then tuned.(sampleRate := CHANNEL_WIDTH * 1.5) else tuned
  }

  /** A retuned radio is accepted, so a message never retunes twice. */
  lemma RetunedIsAccepted(s: Scheme, phy: Phy)
    ensures CheckPhyParameters(s, Retuned(s, phy))
  {
  }

  /** The radio covers a frequency at most half its sample rate away from its own. */
  predicate Covers(phy: Phy, freq: real) {
    phy.centralFreq - phy.sampleRate / 2.0 <= freq <= phy.centralFreq + phy.sampleRate / 2.0
  }

  /** The radio covers ten kilohertz to both sides of a frequency. */
  ghost predicate CoversChannel(phy: Phy, freq: real) {
    forall f: real :: freq - 10000.0 <= f <= freq + 10000.0 ==> Covers(phy, f)
  }

  /** A message is accepted exactly when the radio covers its channel. */
  lemma AcceptedIffCovered(s: Scheme, phy: Phy)
    ensures CheckPhyParameters(s, phy) <==> CoversChannel(phy, s.centralFreq)
  {
    if CoversChannel(phy, s.centralFreq) {
      assert Covers(phy, s.centralFreq - 10000.0) && Covers(phy, s.centralFreq + 10000.0);
    }
  }

  /** Whatever the radio was tuned to, a message is played with its channel covered, and a
      radio that covers it is left alone. */
  lemma PlayedInItsBand(m: Sent, phy: Phy)
    ensures CoversChannel(PhyAfter(m, phy), m.scheme.centralFreq)
    ensures PhyAfter(m, phy) ==
            if CoversChannel(phy, m.scheme.centralFreq) then phy else TunedTo(phy, m.scheme.centralFreq)
  {
    AcceptedIffCovered(m.scheme, phy);
    AcceptedIffCovered(m.scheme, Retuned(m.scheme, phy));
    RetunedIsAccepted(m.scheme, phy);
  }

  /** Tuned to a frequency, at thirty thousand samples a second where there were fewer than
      twenty thousand. */
  function TunedTo(phy: Phy, freq: real): Phy {
    Phy(freq, if phy.sampleRate < 20000.0 then 30000.0 else phy.sampleRate, phy.ifBw, phy.gain)
  }

  lemma AcceptedRateIsPositive(s: Scheme, phy: Phy)
    requires CheckPhyParameters(s, phy)
    ensures CHANNEL_WIDTH <= phy.sampleRate
  {
  }

  predicate ValidQueue(queue: seq<Sent>) {
    forall i :: 0 <= i < |queue| ==> ValidScheme(queue[i].scheme)
  }

  /** A message that cannot be sent is silent. */
  function SoundOf(env: Env, amp: real, m: Sent, phy: Phy): seq<Iq>
    requires ValidScheme(m.scheme) && CheckPhyParameters(m.scheme, phy)
  {
    AcceptedRateIsPositive(m.scheme, phy);
    if Sendable(m.scheme, m.bits) then MessageSound(env, m.scheme, m.bits, m.repeat, phy, amp) else []
  }

  /** One call that asks for `len` samples. */
  function Step(env: Env, amp: real, p: Pending, phy: Phy, len: nat): Outcome
    requires ValidQueue(p.queue)
  {
    if p.current.None? && p.queue != [] then
      var m := p.queue[0];
      if CheckPhyParameters(m.scheme, phy) then
        Deliver(Pending(Some(SoundOf(env, amp, m, phy)), p.queue[1..]), phy, len)
      else Outcome(p, Retuned(m.scheme, phy), Retune(Retuned(m.scheme, phy)))
    else Deliver(p, phy, len)
  }

  /** A message that fills its block exactly is only found to be over in the next. */
  function Deliver(p: Pending, phy: Phy, len: nat): Outcome {
    match p.current
    case None => Outcome(p, phy, Block(Silence(len)))
    case Some(rest) =>
      Outcome(p.(current := if |rest| < len then None else Some(rest[len..])), phy, Block(Padded(rest, len)))
  }

  // ------------------------------------------------------------- the schedule

  /** The blocks of one message: all its samples, then silence. */
  function BlocksOf(rest: seq<Iq>, size: nat): seq<Event>
    requires 0 < size
    decreases |rest|
  {
    if |rest| < size then [Block(Padded(rest, size))]
    else [Block(Padded(rest, size))] + BlocksOf(rest[size..], size)
  }

  function PhyAfter(m: Sent, phy: Phy): Phy {
    if CheckPhyParameters(m.scheme, phy) then phy else Retuned(m.scheme, phy)
  }

  function MessageEvents(env: Env, amp: real, m: Sent, phy: Phy, size: nat): seq<Event>
    requires ValidScheme(m.scheme) && 0 < size
  {
    RetunedIsAccepted(m.scheme, phy);
    (if CheckPhyParameters(m.scheme, phy) then [] else [Retune(PhyAfter(m, phy))]) +
    BlocksOf(SoundOf(env, amp, m, PhyAfter(m, phy)), size)
  }

  /** The messages one after the other. */
  function QueueEvents(env: Env, amp: real, queue: seq<Sent>, phy: Phy, size: nat): seq<Event>
    requires ValidQueue(queue) && 0 < size
    decreases |queue|
  {
    if queue == [] then []
    else
      MessageEvents(env, amp, queue[0], phy, size) +
      QueueEvents(env, amp, queue[1..], PhyAfter(queue[0], phy), size)
  }

  function PhyAfterQueue(queue: seq<Sent>, phy: Phy): Phy
    decreases |queue|
  {
    if queue == [] then phy else PhyAfterQueue(queue[1..], PhyAfter(queue[0], phy))
  }

  /** Everything that is still to come if nothing is added. */
  function Future(env: Env, amp: real, p: Pending, phy: Phy, size: nat): seq<Event>
    requires ValidQueue(p.queue) && 0 < size
  {
    (if p.current.None? then [] else BlocksOf(p.current.value, size)) +
    QueueEvents(env, amp, p.queue, phy, size)
  }

  /** The transmitter never departs from the schedule: a call delivers its first
      event and leaves the others, and an idle transmitter delivers silence. */
  lemma StepFollowsSchedule(env: Env, amp: real, p: Pending, phy: Phy, size: nat)
    requires ValidQueue(p.queue) && 0 < size
    ensures ValidQueue(Step(env, amp, p, phy, size).pending.queue)
    ensures var o, future := Step(env, amp, p, phy, size), Future(env, amp, p, phy, size);
            if future == [] then o == Outcome(p, phy, Block(Silence(size)))
            else [o.event] + Future(env, amp, o.pending, o.phy, size) == future
  {
    hide CheckPhyParameters, Retuned, SoundOf;
    if p.current.None? && p.queue != [] {
      var m, rest := p.queue[0], QueueEvents(env, amp, p.queue[1..], PhyAfter(p.queue[0], phy), size);
      RetunedIsAccepted(m.scheme, phy);
      var sound := SoundOf(env, amp, m, PhyAfter(m, phy));
      assert BlocksOf(sound, size) != [];
      if CheckPhyParameters(m.scheme, phy) {
        DeliverFollowsSchedule(Pending(Some(sound), p.queue[1..]), phy, size, rest);
        assert Future(env, amp, p, phy, size) == BlocksOf(sound, size) + rest;
      } else {
        assert Future(env, amp, p, phy, size) == [Retune(Retuned(m.scheme, phy))] + (BlocksOf(sound, size) + rest);
        assert PhyAfter(m, Retuned(m.scheme, phy)) == Retuned(m.scheme, phy);
      }
    } else if p.current.Some? {
      DeliverFollowsSchedule(p, phy, size, QueueEvents(env, amp, p.queue, phy, size));
    }
  }

  lemma DeliverFollowsSchedule(p: Pending, phy: Phy, size: nat, later: seq<Event>)
    requires p.current.Some? && 0 < size
    ensures var o := Deliver(p, phy, size);
            && o.phy == phy && o.pending.queue == p.queue
            && [o.event] + ((if o.pending.current.None? then [] else BlocksOf(o.pending.current.value, size)) + later)
               == BlocksOf(p.current.value, size) + later
  {
  }

  /** A message added while others wait is served after all of them. */
  lemma {:induction false} ArrivalGoesLast(env: Env, amp: real, queue: seq<Sent>, m: Sent, phy: Phy, size: nat)
    requires ValidQueue(queue) && ValidScheme(m.scheme) && 0 < size
    ensures ValidQueue(queue + [m])
    ensures QueueEvents(env, amp, queue + [m], phy, size) ==
            QueueEvents(env, amp, queue, phy, size) + MessageEvents(env, amp, m, PhyAfterQueue(queue, phy), size)
    decreases |queue|
  {
    hide MessageEvents, PhyAfter, ValidScheme;
    var more := queue + [m];
    if queue == [] {
      assert more[1..] == [] && more[0] == m;
      assert QueueEvents(env, amp, more[1..], PhyAfter(m, phy), size) == [];
    } else {
      assert more[1..] == queue[1..] + [m];
      ArrivalGoesLast(env, amp, queue[1..], m, PhyAfter(queue[0], phy), size);
    }
  }

  /** A run of `calls` calls with the returned parameters kept. */
  function Calls(env: Env, amp: real, p: Pending, phy: Phy, size: nat, calls: nat): seq<Event>
    requires ValidQueue(p.queue) && 0 < size
    decreases calls
  {
    if calls == 0 then []
    else
      StepFollowsSchedule(env, amp, p, phy, size);
      var o := Step(env, amp, p, phy, size);
      [o.event] + Calls(env, amp, o.pending, o.phy, size, calls - 1)
  }

  /** Over any run: first the schedule, message by message, then silence. */
  lemma {:induction false} CallsFollowSchedule(env: Env, amp: real, p: Pending, phy: Phy, size: nat, calls: nat)
    requires ValidQueue(p.queue) && 0 < size
    ensures var future, events := Future(env, amp, p, phy, size), Calls(env, amp, p, phy, size, calls);
            && |events| == calls
            && events[..Min(calls, |future|)] == future[..Min(calls, |future|)]
            && forall k :: |future| <= k < calls ==> events[k] == Block(Silence(size))
    decreases calls
  {
    hide Step, Future, ValidQueue;
    if calls > 0 {
      StepFollowsSchedule(env, amp, p, phy, size);
      var future, o := Future(env, amp, p, phy, size), Step(env, amp, p, phy, size);
      var rest := Future(env, amp, o.pending, o.phy, size);
      CallsFollowSchedule(env, amp, o.pending, o.phy, size, calls - 1);
      var events, later := Calls(env, amp, p, phy, size, calls), Calls(env, amp, o.pending, o.phy, size, calls - 1);
      assert events == [o.event] + later;
      if future == [] {
        assert rest == future;
      } else {
        var k := Min(calls - 1, |rest|);
        assert Min(calls, |future|) == k + 1;
        assert events[..k + 1] == [o.event] + later[..k] == [o.event] + rest[..k] == future[..k + 1];
      }
    }
  }

  lemma OneBlockLess(n: nat, size: nat)
    requires 0 < size <= n
    ensures (n - size) % size == n % size && (n - size) / size + 1 == n / size
  {
    var d, r := (n - size) / size, (n - size) % size;
    assert n == (d + 1) * size + r;
    DivModUnique(n, d + 1, r, size);
  }

  /** A message of `n` samples takes n / size + 1 blocks. */
  lemma {:induction false} BlockCount(rest: seq<Iq>, size: nat)
    requires 0 < size
    ensures |BlocksOf(rest, size)| == |rest| / size + 1
    decreases |rest|
  {
    if |rest| < size {
      DivModUnique(|rest|, 0, |rest|, size);
    } else {
      BlockCount(rest[size..], size);
      OneBlockLess(|rest|, size);
    }
  }

  function Heard(events: seq<Event>): seq<Iq> {
    if events == [] then []
    else (if events[0].Block? then events[0].samples else []) + Heard(events[1..])
  }

  lemma HeardCons(e: Event, events: seq<Event>)
    ensures Heard([e] + events) == (if e.Block? then e.samples else []) + Heard(events)
  {
    assert ([e] + events)[1..] == events;
  }

  /** The blocks of a message are its samples, followed by silence: nothing is lost,
      repeated or mixed with another message. */
  lemma {:induction false} BlocksAreTheMessage(rest: seq<Iq>, size: nat)
    requires 0 < size
    ensures Heard(BlocksOf(rest, size)) == rest + Silence(size - |rest| % size)
    decreases |rest|
  {
    if |rest| < size {
      DivModUnique(|rest|, 0, |rest|, size);
      assert BlocksOf(rest, size)[1..] == [];
      assert Heard(BlocksOf(rest, size)[1..]) == [];
      assert rest[..|rest|] == rest;
    } else {
      BlocksAreTheMessage(rest[size..], size);
      OneBlockLess(|rest|, size);
      HeardCons(Block(Padded(rest, size)), BlocksOf(rest[size..], size));
      assert Padded(rest, size) == rest[..size];
      assert rest == rest[..size] + rest[size..];
    }
  }

  // -------------------------------------------------------- messages that arrive

  /** What can happen to a transmitter. */
  datatype Action = Arrive(m: Sent) | Call

  /** One call: whether there was anything to play, and its outcome. */
  datatype Served = Served(busy: bool, event: Event)

  /** The messages that were accepted so far, and the calls that were served. */
  datatype Session = Session(pending: Pending, phy: Phy, accepted: seq<Sent>, calls: seq<Served>)

  predicate ValidActions(actions: seq<Action>) {
    forall k :: 0 <= k < |actions| && actions[k].Arrive? ==> ValidScheme(actions[k].m.scheme)
  }

  predicate Busy(p: Pending) {
    p.current.Some? || p.queue != []
  }

  /** One slot of the queue is always left free. */
  function Receive(s: Session, m: Sent, limit: nat): Session {
    if |s.pending.queue| + 1 < limit
    then s.(pending := s.pending.(queue := s.pending.queue + [m]), accepted := s.accepted + [m])
    else s
  }

  function Serve(env: Env, amp: real, s: Session, size: nat): Session
    requires ValidQueue(s.pending.queue)
  {
    var o := Step(env, amp, s.pending, s.phy, size);
    Session(o.pending, o.phy, s.accepted, s.calls + [Served(Busy(s.pending), o.event)])
  }

  /** Messages arrive and calls are made in any order; the caller keeps the parameters
      it was asked for. */
  function RunSession(env: Env, amp: real, phy: Phy, size: nat, limit: nat, actions: seq<Action>): (s: Session)
    requires 0 < size && ValidActions(actions)
    ensures ValidQueue(s.pending.queue) && ValidQueue(s.accepted)
    decreases |actions|
  {
    if actions == [] then Session(Pending(None, []), phy, [], [])
    else
      var before := RunSession(env, amp, phy, size, limit, actions[..|actions| - 1]);
      match actions[|actions| - 1]
      case Arrive(m) => Receive(before, m, limit)
      case Call =>
        StepFollowsSchedule(env, amp, before.pending, before.phy, size);
        Serve(env, amp, before, size)
  }

  /** What was played, without the silence of an idle transmitter. */
  function BusyEvents(calls: seq<Served>): seq<Event>
    decreases |calls|
  {
    if calls == [] then []
    else BusyEvents(calls[..|calls| - 1]) + if calls[|calls| - 1].busy then [calls[|calls| - 1].event] else []
  }

  lemma BusyEventsSnoc(calls: seq<Served>, last: Served)
    ensures BusyEvents(calls + [last]) == BusyEvents(calls) + if last.busy then [last.event] else []
  {
    assert (calls + [last])[..|calls|] == calls;
  }

  lemma BusyHasFuture(env: Env, amp: real, p: Pending, phy: Phy, size: nat)
    requires ValidQueue(p.queue) && 0 < size
    ensures Busy(p) <==> Future(env, amp, p, phy, size) != []
  {
    hide SoundOf, CheckPhyParameters;
  }

  /** The parameters after the queue do not change while it is served. */
  lemma StepKeepsLastPhy(env: Env, amp: real, p: Pending, phy: Phy, size: nat)
    requires ValidQueue(p.queue) && 0 < size
    ensures var o := Step(env, amp, p, phy, size);
            PhyAfterQueue(o.pending.queue, o.phy) == PhyAfterQueue(p.queue, phy)
  {
    hide SoundOf, CheckPhyParameters, Retuned;
    if p.queue != [] {
      RetunedIsAccepted(p.queue[0].scheme, phy);
    }
  }

  lemma {:induction false} PhyAfterArrival(queue: seq<Sent>, m: Sent, phy: Phy)
    ensures PhyAfterQueue(queue + [m], phy) == PhyAfter(m, PhyAfterQueue(queue, phy))
    decreases |queue|
  {
    hide PhyAfter;
    if queue == [] {
      assert (queue + [m])[1..] == [];
    } else {
      assert (queue + [m])[1..] == queue[1..] + [m];
      PhyAfterArrival(queue[1..], m, PhyAfter(queue[0], phy));
    }
  }

  /** What has been played, with what is still to come, is the schedule of all messages
      that were accepted. */
  ghost predicate OnSchedule(env: Env, amp: real, phy: Phy, size: nat, s: Session)
    requires ValidQueue(s.pending.queue) && ValidQueue(s.accepted) && 0 < size
  {
    && BusyEvents(s.calls) + Future(env, amp, s.pending, s.phy, size) == QueueEvents(env, amp, s.accepted, phy, size)
    && PhyAfterQueue(s.pending.queue, s.phy) == PhyAfterQueue(s.accepted, phy)
    && forall k :: 0 <= k < |s.calls| && !s.calls[k].busy ==> s.calls[k].event == Block(Silence(size))
  }

  lemma ReceiveStaysOnSchedule(env: Env, amp: real, phy: Phy, size: nat, s: Session, m: Sent, limit: nat)
    requires ValidQueue(s.pending.queue) && ValidQueue(s.accepted) && 0 < size && ValidScheme(m.scheme)
    requires OnSchedule(env, amp, phy, size, s)
    ensures var s' := Receive(s, m, limit);
            && ValidQueue(s'.pending.queue) && ValidQueue(s'.accepted)
            && OnSchedule(env, amp, phy, size, s')
  {
    hide BlocksOf, QueueEvents, PhyAfterQueue, MessageEvents, PhyAfter;
    ArrivalGoesLast(env, amp, s.accepted, m, phy, size);
    ArrivalGoesLast(env, amp, s.pending.queue, m, s.phy, size);
    PhyAfterArrival(s.accepted, m, phy);
    PhyAfterArrival(s.pending.queue, m, s.phy);
  }

  lemma ServeStaysOnSchedule(env: Env, amp: real, phy: Phy, size: nat, s: Session)
    requires ValidQueue(s.pending.queue) && ValidQueue(s.accepted) && 0 < size
    requires OnSchedule(env, amp, phy, size, s)
    ensures var s' := Serve(env, amp, s, size);
            ValidQueue(s'.pending.queue) && OnSchedule(env, amp, phy, size, s')
  {
    hide Step, Future, QueueEvents, PhyAfterQueue, ValidQueue, Busy;
    StepFollowsSchedule(env, amp, s.pending, s.phy, size);
    StepKeepsLastPhy(env, amp, s.pending, s.phy, size);
    BusyHasFuture(env, amp, s.pending, s.phy, size);
    var o := Step(env, amp, s.pending, s.phy, size);
    BusyEventsSnoc(s.calls, Served(Busy(s.pending), o.event));
  }

  /** Over any interleaving of arrivals and calls, whatever the limit of the queue: the
      accepted messages are played in the order they were accepted, each whole, once and
      with at most one retuning, and an idle transmitter is silent. */
  lemma {:induction false} SessionFollowsSchedule(
      env: Env, amp: real, phy: Phy, size: nat, limit: nat, actions: seq<Action>)
    requires 0 < size && ValidActions(actions)
    ensures OnSchedule(env, amp, phy, size, RunSession(env, amp, phy, size, limit, actions))
    decreases |actions|
  {
    hide OnSchedule, Serve, Receive, ValidQueue;
    if actions == [] {
      EmptySession(env, amp, phy, size);
    } else {
      var n := |actions| - 1;
      var before := RunSession(env, amp, phy, size, limit, actions[..n]);
      SessionFollowsSchedule(env, amp, phy, size, limit, actions[..n]);
      match actions[n] {
        case Arrive(m) => ReceiveStaysOnSchedule(env, amp, phy, size, before, m, limit);
        case Call => ServeStaysOnSchedule(env, amp, phy, size, before);
      }
    }
  }

  lemma EmptySession(env: Env, amp: real, phy: Phy, size: nat)
    requires 0 < size
    ensures ValidQueue([]) && OnSchedule(env, amp, phy, size, Session(Pending(None, []), phy, [], []))
  {
  }
}
