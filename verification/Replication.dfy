// The replication protocol over whole runs: entries finish one by one in a ring
// that evicts the oldest, and from time to time a packet carries over whatever
// has finished since the last one and is still there.

module Replication {
  import opened Slots

  datatype Event = Push | Packet

  /** How many entries have finished, how many of them a packet has covered, and which
      ones the viewer has received. */
  datatype Link = Link(pushed: nat, sent: nat, received: seq<nat>)

  /** The first entry that a packet carries. */
  function FirstSent(pushed: nat, sent: nat, ringSize: nat): nat {
    Max(sent, if pushed < ringSize then 0 else pushed - ringSize)
  }

  function Interval(lo: nat, hi: nat): (s: seq<nat>)
    requires lo <= hi
    ensures |s| == hi - lo && forall i :: 0 <= i < |s| ==> s[i] == lo + i
  {
    seq(hi - lo, i requires 0 <= i < hi - lo => lo + i)
  }

  function Next(l: Link, e: Event, ringSize: nat): Link
    requires l.sent <= l.pushed
  {
    match e
    case Push => l.(pushed := l.pushed + 1)
    case Packet =>
      Link(l.pushed, l.pushed, l.received + Interval(FirstSent(l.pushed, l.sent, ringSize), l.pushed))
  }

  function Run(events: seq<Event>, ringSize: nat): (l: Link)
    ensures l.sent <= l.pushed
    decreases |events|
  {
    if events == [] then Link(0, 0, [])
    else Next(Run(events[..|events| - 1], ringSize), events[|events| - 1], ringSize)
  }

  /** No burst: at most `ringSize` entries finish between two packets. `n` entries have
      finished since the last one. */
  function Quiet(events: seq<Event>, ringSize: nat): (r: (bool, nat))
    decreases |events|
  {
    if events == [] then (true, 0)
    else
      var before := Quiet(events[..|events| - 1], ringSize);
      match events[|events| - 1]
      case Push => (before.0, before.1 + 1)
      case Packet => (before.0 && before.1 <= ringSize, 0)
  }

  /** A strictly increasing selection of the positions below a bound. */
  ghost predicate Selection(s: seq<nat>, bound: nat) {
    && (forall i :: 0 <= i < |s| ==> s[i] < bound)
    && (forall i, j :: 0 <= i < j < |s| ==> s[i] < s[j])
  }

  lemma AppendInterval(s: seq<nat>, bound: nat, lo: nat, hi: nat)
    requires bound <= lo <= hi && Selection(s, bound)
    ensures Selection(s + Interval(lo, hi), hi)
  {
  }

  /** At most once and in order: the viewer's entries are a selection of the entries
      that a packet has covered. */
  lemma {:induction false} ReceivedInOrderWithoutDuplicates(events: seq<Event>, ringSize: nat)
    ensures Selection(Run(events, ringSize).received, Run(events, ringSize).sent)
    decreases |events|
  {
    if events == [] {
    } else {
      var l, last := Run(events[..|events| - 1], ringSize), events[|events| - 1];
      ReceivedInOrderWithoutDuplicates(events[..|events| - 1], ringSize);
      if last.Packet? {
        AppendInterval(l.received, l.sent, FirstSent(l.pushed, l.sent, ringSize), l.pushed);
      }
    }
  }

  /** Exactly once: everything covered so far has been received if and only if there
      was no burst. */
  lemma {:induction false} EverythingReceivedIffNoBurst(events: seq<Event>, ringSize: nat)
    ensures var l, q := Run(events, ringSize), Quiet(events, ringSize);
            && l.pushed - l.sent == q.1
            && |l.received| <= l.sent
            && (l.received == Interval(0, l.sent) <==> q.0)
    decreases |events|
  {
    if events == [] {
    } else {
      var before := events[..|events| - 1];
      EverythingReceivedIffNoBurst(before, ringSize);
      var l, l' := Run(before, ringSize), Run(events, ringSize);
      if events[|events| - 1].Packet? {
        var first := FirstSent(l.pushed, l.sent, ringSize);
        if Quiet(events, ringSize).0 {
          assert Interval(0, l.pushed) == Interval(0, l.sent) + Interval(l.sent, l.pushed);
        } else if |l'.received| == l'.sent {
          assert first == l.sent && |l.received| == l.sent;
          assert l.received == l'.received[..l.sent];
          assert Interval(0, l.sent) == Interval(0, l.pushed)[..l.sent];
        }
      }
    }
  }

  lemma PacketCarries(l: Link, ringSize: nat, p: nat)
    requires l.sent <= l.pushed
    ensures FirstSent(l.pushed, l.sent, ringSize) <= p < l.pushed ==> p in Next(l, Packet, ringSize).received
  {
    var first, received := FirstSent(l.pushed, l.sent, ringSize), Next(l, Packet, ringSize).received;
    if first <= p < l.pushed {
      assert received[|l.received| + (p - first)] == p;
    }
  }

  lemma ReceivedIsKept(l: Link, e: Event, ringSize: nat, p: nat)
    requires l.sent <= l.pushed
    ensures p in l.received ==> p in Next(l, e, ringSize).received
  {
  }

  /** Nothing covered is lost, except what the ring had already evicted. */
  lemma {:induction false} OnlyEvictedEntriesAreLost(events: seq<Event>, ringSize: nat, p: nat)
    requires var l := Run(events, ringSize); p < l.sent && p !in l.received
    ensures exists k :: 0 <= k < |events| && events[k].Packet? &&
              var l := Run(events[..k], ringSize); l.sent <= p && p + ringSize < l.pushed
    decreases |events|
  {
    var n := |events| - 1;
    var before := Run(events[..n], ringSize);
    if events[n].Packet? && before.sent <= p {
      PacketCarries(before, ringSize, p);
      assert events[..n] == events[..n];
    } else {
      ReceivedIsKept(before, events[n], ringSize, p);
      OnlyEvictedEntriesAreLost(events[..n], ringSize, p);
      var k :| 0 <= k < n && events[..n][k].Packet? &&
        var l := Run(events[..n][..k], ringSize); l.sent <= p && p + ringSize < l.pushed;
      assert events[..n][..k] == events[..k];
    }
  }
}
