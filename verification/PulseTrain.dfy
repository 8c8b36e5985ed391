// A train of pulses and gaps on its way through the receiver: the samples become
// activities, the activities bursts, and the bursts the lengths that were sent.

module PulseTrains {
  import opened Slots
  import opened Sums
  import opened Reception
  import opened Activity
  import opened OokDemod

  // ------------------------------------------------------------------ the train

  ghost predicate AllAre<Iq>(hist: seq<Sample<Iq>>, above: bool) {
    forall p :: 0 <= p < |hist| ==> hist[p].above == above
  }

  /** From position `base` to the end of the stream: a pulse of `lens[0]` samples, a gap
      of `lens[1]`, a pulse of `lens[2]`, and so on. */
  ghost predicate Keyed<Iq>(lens: seq<nat>, base: nat, hist: seq<Sample<Iq>>)
    decreases |lens|
  {
    if lens == [] then |hist| == base
    else
      var cut := |hist| - Last(lens);
      0 <= cut && AllAre(hist[cut..], |lens| % 2 == 1) && Keyed(Front(lens), base, hist[..cut])
  }

  lemma KeyedSnoc<Iq>(front: seq<nat>, n: nat, base: nat, hist: seq<Sample<Iq>>)
    ensures Keyed(front + [n], base, hist) <==>
            && n <= |hist|
            && AllAre(hist[|hist| - n..], |front| % 2 == 0)
            && Keyed(front, base, hist[..|hist| - n])
  {
    hide AllAre;
    var lens := front + [n];
    assert Front(lens) == front && Last(lens) == n;
  }

  lemma {:induction false} KeyedLength<Iq>(lens: seq<nat>, base: nat, hist: seq<Sample<Iq>>)
    requires Keyed(lens, base, hist)
    ensures |hist| == base + Sum(lens)
    decreases |lens|
  {
    if lens != [] {
      KeyedLength(Front(lens), base, hist[..|hist| - Last(lens)]);
    }
  }

  lemma FrontAndLast<T>(s: seq<T>)
    requires s != []
    ensures s == Front(s) + [Last(s)]
  {
  }

  /** A train behind a train that ends with a gap. */
  lemma {:induction false} KeyedAppend<Iq>(a: seq<nat>, b: seq<nat>, base: nat, mid: nat, hist: seq<Sample<Iq>>)
    requires |a| % 2 == 0 && mid <= |hist| && Keyed(a, base, hist[..mid]) && Keyed(b, mid, hist)
    ensures Keyed(a + b, base, hist)
    decreases |b|
  {
    hide Keyed, AllAre;
    KeyedLength(b, mid, hist);
    if b == [] {
      assert hist[..mid] == hist && a + b == a;
    } else {
      var front, last := Front(b), Last(b);
      FrontAndLast(b);
      KeyedSnoc(front, last, mid, hist);
      var cut := |hist| - last;
      KeyedLength(front, mid, hist[..cut]);
      assert hist[..cut][..mid] == hist[..mid];
      KeyedAppend(a, front, base, mid, hist[..cut]);
      KeyedSnoc(a + front, last, base, hist);
      assert a + b == a + front + [last];
    }
  }

  /** Pulses long enough to be kept; gaps long enough to part two pulses, and short
      enough to part them within one burst. */
  predicate Separable(coalesce: nat, lens: seq<nat>) {
    forall k :: 0 <= k < |lens| ==> SeparableAt(coalesce, lens, k)
  }

  predicate SeparableAt(coalesce: nat, lens: seq<nat>, k: nat)
    requires k < |lens|
  {
    if k % 2 == 0 then SAMPLES_UNDER_THRS <= lens[k]
    else k < |lens| - 1 ==> SAMPLES_UNDER_THRS < lens[k] < Silence(coalesce)
  }

  /** How many samples behind a long activity its burst is over. */
  function Silence(coalesce: nat): nat {
    SAMPLES_UNDER_THRS + Max(coalesce, 1)
  }

  lemma SeparableFront(coalesce: nat, lens: seq<nat>)
    requires Separable(coalesce, lens) && lens != []
    ensures Separable(coalesce, Front(lens))
  {
    forall k | 0 <= k < |Front(lens)|
      ensures SeparableAt(coalesce, Front(lens), k)
    {
      assert SeparableAt(coalesce, lens, k);
    }
  }

  /** Pulses that are kept. */
  ghost predicate LongPulses(lens: seq<nat>) {
    forall k :: 0 <= k < |lens| && k % 2 == 0 ==> SAMPLES_UNDER_THRS <= lens[k]
  }

  lemma PulsesOfSeparable(coalesce: nat, lens: seq<nat>)
    requires Separable(coalesce, lens)
    ensures LongPulses(lens)
  {
    forall k | 0 <= k < |lens| && k % 2 == 0
      ensures SAMPLES_UNDER_THRS <= lens[k]
    {
      assert SeparableAt(coalesce, lens, k);
    }
  }

  lemma GapParts(coalesce: nat, lens: seq<nat>)
    requires Separable(coalesce, lens) && |lens| >= 2 && |lens| % 2 == 1
    ensures SAMPLES_UNDER_THRS < Last(Front(lens)) < Silence(coalesce)
  {
    assert SeparableAt(coalesce, lens, |lens| - 2);
  }

  // ------------------------------------------------------------------- activities

  /** The activities of a train that starts at `lead`. */
  function Segs(lead: nat, lens: seq<nat>): (segs: seq<Seg>)
    ensures |segs| == (|lens| + 1) / 2
    decreases |lens|
  {
    if lens == [] then []
    else
      var before, start := Segs(lead, Front(lens)), lead + Sum(Front(lens));
      if |lens| % 2 == 1 then before + [Seg(start, if Last(lens) == 0 then start else start + Last(lens) - 1)]
      else before
  }

  lemma {:induction false} QuietRun<Iq>(coalesce: nat, hist: seq<Sample<Iq>>, tail: seq<Sample<Iq>>)
    requires AllAre(tail, false)
    ensures Groups(coalesce, hist + tail) == Groups(coalesce, hist)
    decreases |tail|
  {
    if tail == [] {
      assert hist + tail == hist;
    } else {
      QuietRun(coalesce, hist, Front(tail));
      GroupsStep(coalesce, hist + Front(tail), Last(tail));
      assert hist + tail == hist + Front(tail) + [Last(tail)];
    }
  }

  lemma QuietStream<Iq>(coalesce: nat, hist: seq<Sample<Iq>>)
    requires AllAre(hist, false)
    ensures Groups(coalesce, hist) == []
  {
    QuietRun(coalesce, [], hist);
    assert [] + hist == hist;
  }

  /** The last activity, seen to end later. */
  function Prolonged(groups: seq<seq<Seg>>, end: nat): seq<seq<Seg>>
    requires groups != [] && Last(groups) != []
  {
    Front(groups) + [Front(Last(groups)) + [Seg(Last(Last(groups)).first, end)]]
  }

  lemma ProlongedSnoc(gs: seq<seq<Seg>>, group: seq<Seg>, seg: Seg, end: nat)
    ensures var groups := gs + [group + [seg]];
            Last(groups) != [] && Prolonged(groups, end) == gs + [group + [Seg(seg.first, end)]]
  {
    var groups := gs + [group + [seg]];
    assert Front(groups) == gs && Last(groups) == group + [seg];
    assert Front(group + [seg]) == group;
  }

  lemma JoinedEndsHere(coalesce: nat, groups: seq<seq<Seg>>, pos: nat)
    requires Proper(groups)
    ensures var joined := Joined(coalesce, groups, pos);
            && joined != [] && Last(joined) != []
            && Last(Last(joined)).last == pos && Prolonged(joined, pos) == joined
  {
    var joined := Joined(coalesce, groups, pos);
    var group := Last(joined);
    assert Last(group) == Seg(Last(group).first, pos);
    assert group == Front(group) + [Last(group)] && joined == Front(joined) + [group];
  }

  lemma ProlongedJoined(coalesce: nat, groups: seq<seq<Seg>>, end: nat)
    requires groups != [] && Proper(groups)
    ensures Proper(Prolonged(groups, end))
    ensures Joined(coalesce, Prolonged(groups, end), end + 1) == Prolonged(groups, end + 1)
  {
    var later := Prolonged(groups, end);
    JoinedActivity(coalesce, later, end + 1);
    assert Front(later) == Front(groups) && Front(Last(later)) == Front(Last(groups));
  }

  /** Loud samples on end prolong what the first of them joined. */
  lemma {:induction false} LoudRun<Iq>(coalesce: nat, hist: seq<Sample<Iq>>, tail: seq<Sample<Iq>>)
    requires tail != [] && AllAre(tail, true)
    ensures var joined := Joined(coalesce, Groups(coalesce, hist), |hist|);
            && joined != [] && Last(joined) != []
            && Groups(coalesce, hist + tail) == Prolonged(joined, |hist| + |tail| - 1)
    decreases |tail|
  {
    hide Joined, Groups, Deadline, Prolonged;
    JoinedEndsHere(coalesce, Groups(coalesce, hist), |hist|);
    GroupsStep(coalesce, hist + Front(tail), Last(tail));
    assert hist + tail == hist + Front(tail) + [Last(tail)];
    if |tail| == 1 {
      assert hist + Front(tail) == hist;
    } else {
      LoudRun(coalesce, hist, Front(tail));
      ProlongedJoined(coalesce, Joined(coalesce, Groups(coalesce, hist), |hist|), |hist| + |tail| - 2);
    }
  }

  /** Where the activities of a train end. */
  lemma LastSeg(lead: nat, lens: seq<nat>)
    requires lens != [] && LongPulses(lens)
    ensures Segs(lead, lens) != []
    ensures var seg := Last(Segs(lead, lens));
            Long(seg) && lead <= seg.first && seg.last + 1 == lead + PulseEnd(lens)
  {
    if |lens| % 2 == 0 {
      var front := Front(lens);
      assert lens[|lens| - 2] == Last(front);
      assert Segs(lead, lens) == Segs(lead, front);
    }
  }

  /** Where the last pulse of a train ends, from its start on. */
  function PulseEnd(lens: seq<nat>): nat
    requires lens != []
  {
    if |lens| % 2 == 1 then Sum(lens) else Sum(Front(lens))
  }

  /** No burst is in progress at position `pos`. */
  predicate Over(coalesce: nat, groups: seq<seq<Seg>>, pos: nat)
    requires Proper(groups)
  {
    groups == [] || Deadline(coalesce, Last(Last(groups))) < pos
  }

  /** A pulse inside a burst that is in progress. */
  lemma AnotherPulse(coalesce: nat, gs: seq<seq<Seg>>, group: seq<Seg>, pos: nat, end: nat)
    requires Proper(gs) && group != [] && pos <= end
    requires Last(group).last + SAMPLES_UNDER_THRS < pos <= Deadline(coalesce, Last(group))
    ensures var joined := Joined(coalesce, gs + [group], pos);
            && joined != [] && Last(joined) != []
            && Prolonged(joined, end) == gs + [group + [Seg(pos, end)]]
  {
    hide Prolonged, Deadline;
    var groups := gs + [group];
    assert Front(groups) == gs && Last(groups) == group;
    JoinedBurst(coalesce, groups, pos);
    ProlongedSnoc(gs, group, Seg(pos, pos), end);
  }

  /** A pulse that starts a burst. */
  lemma FirstPulse(coalesce: nat, gs: seq<seq<Seg>>, pos: nat, end: nat)
    requires Proper(gs) && Over(coalesce, gs, pos)
    ensures var joined := Joined(coalesce, gs, pos);
            && joined != [] && Last(joined) != []
            && Prolonged(joined, end) == gs + [[Seg(pos, end)]]
  {
    hide Prolonged, Deadline;
    ProlongedSnoc(gs, [], Seg(pos, pos), end);
    assert [] + [Seg(pos, pos)] == [Seg(pos, pos)] && [] + [Seg(pos, end)] == [Seg(pos, end)];
  }

  lemma OnePulse(lead: nat, lens: seq<nat>)
    requires |lens| == 1 && 0 < lens[0]
    ensures Sum(lens) == lens[0] && Segs(lead, lens) == [Seg(lead, lead + lens[0] - 1)]
  {
    assert Front(lens) == [];
  }

  lemma KeyedSplits<Iq>(lens: seq<nat>, base: nat, hist: seq<Sample<Iq>>)
    requires lens != [] && Keyed(lens, base, hist)
    ensures |hist| == base + Sum(lens) && Sum(lens) == Sum(Front(lens)) + Last(lens)
    ensures var cut := base + Sum(Front(lens));
            cut <= |hist| && AllAre(hist[cut..], |lens| % 2 == 1) && Keyed(Front(lens), base, hist[..cut])
  {
    hide AllAre, Keyed, Sum, Front, Last;
    KeyedLength(lens, base, hist);
    var front, last := Front(lens), Last(lens);
    FrontAndLast(lens);
    SumAppend(front, last);
    KeyedSnoc(front, last, base, hist);
    assert |front| == |lens| - 1;
    assert |hist| - last == base + Sum(front);
  }

  lemma SplitAt<T>(s: seq<T>, base: nat, cut: nat)
    requires base <= cut <= |s|
    ensures s == s[..cut] + s[cut..] && s[..cut][..base] == s[..base]
  {
  }

  /** The pulses of a separable train are the activities of one group, behind the groups
      that were over before it started. */
  lemma {:induction false} TrainIsOneGroup<Iq>(
      coalesce: nat, gs: seq<seq<Seg>>, lens: seq<nat>, base: nat, hist: seq<Sample<Iq>>)
    requires lens != [] && Keyed(lens, base, hist) && Separable(coalesce, lens)
    requires base <= |hist| && Groups(coalesce, hist[..base]) == gs && Over(coalesce, gs, base)
    ensures |hist| == base + Sum(lens) && Groups(coalesce, hist) == gs + [Segs(base, lens)]
    decreases |lens|
  {
    hide Groups, Joined, Prolonged, Keyed, Long, Separable, AllAre, Over;
    KeyedSplits(lens, base, hist);
    SplitAt(hist, base, base + Sum(Front(lens)));
    SeparableFront(coalesce, lens);
    PulsesOfSeparable(coalesce, lens);
    var front, cut := Front(lens), base + Sum(Front(lens));
    if |lens| == 1 {
      assert Sum(front) == 0;
      OnePulse(base, lens);
      LoudRun(coalesce, hist[..cut], hist[cut..]);
      FirstPulse(coalesce, gs, cut, |hist| - 1);
    } else {
      TrainIsOneGroup(coalesce, gs, front, base, hist[..cut]);
      if |lens| % 2 == 1 {
        PulsesOfSeparable(coalesce, front);
        LastSeg(base, front);
        GapParts(coalesce, lens);
        GapIsInTime(coalesce, base, front, Last(front));
        LoudRun(coalesce, hist[..cut], hist[cut..]);
        AnotherPulse(coalesce, gs, Segs(base, front), cut, |hist| - 1);
      } else {
        QuietRun(coalesce, hist[..cut], hist[cut..]);
      }
    }
  }

  lemma GapIsInTime(coalesce: nat, base: nat, front: seq<nat>, gap: nat)
    requires front != [] && |front| % 2 == 0 && LongPulses(front) && gap == Last(front)
    requires SAMPLES_UNDER_THRS < gap < Silence(coalesce)
    ensures Segs(base, front) != []
    ensures var last := Last(Segs(base, front));
            last.last + SAMPLES_UNDER_THRS < base + Sum(front) <= Deadline(coalesce, last)
  {
    hide Segs, LongPulses;
    LastSeg(base, front);
  }

  // ------------------------------------------------------------------- sub-bursts

  /** The sub-bursts of a train: every pulse, one sample short. */
  function Subs(lens: seq<nat>): (subs: seq<SubBurst>)
    ensures |subs| == (|lens| + 1) / 2
    decreases |lens|
  {
    if lens == [] then []
    else
      var before, start, n := Subs(Front(lens)), Sum(Front(lens)), Last(lens);
      if |lens| % 2 == 1
      then before + [if n == 0 then SubBurst(start, start, 0) else SubBurst(start, start + n - 1, n - 1)]
      else before
  }

  lemma {:induction false} SubsOfSegs(lead: nat, lens: seq<nat>)
    requires LongPulses(lens)
    ensures LongSubs(lead, Segs(lead, lens)) == Subs(lens)
    ensures lens != [] ==> Segs(lead, lens)[0].first == lead
    decreases |lens|
  {
    if lens != [] {
      var front := Front(lens);
      SubsOfSegs(lead, front);
      if |lens| % 2 == 1 {
        var segs := Segs(lead, lens);
        assert Last(lens) == lens[|lens| - 1];
        assert Front(segs) == Segs(lead, front);
      }
    }
  }

  lemma {:induction false} SubAt(lens: seq<nat>, k: nat)
    requires LongPulses(lens) && 2 * k < |lens|
    ensures var sub := Subs(lens)[k];
            sub.start == Sum(lens[..2 * k]) && sub.end == sub.start + lens[2 * k] - 1 && sub.len == lens[2 * k] - 1
    decreases |lens|
  {
    var front := Front(lens);
    if 2 * k == |lens| - 1 {
      assert lens[..2 * k] == front;
    } else {
      assert front[..2 * k] == lens[..2 * k];
      SubAt(front, k);
    }
  }

  lemma SumSnoc(lens: seq<nat>, k: nat)
    requires k < |lens|
    ensures Sum(lens[..k + 1]) == Sum(lens[..k]) + lens[k]
  {
    assert Front(lens[..k + 1]) == lens[..k];
  }

  /** Where pulse `k` and the gap behind it end. */
  lemma PulseAndGap(lens: seq<nat>, k: nat)
    requires LongPulses(lens) && 2 * k + 1 < |lens|
    ensures Subs(lens)[k].start + lens[2 * k] == Subs(lens)[k].end + 1
    ensures Sum(lens[..2 * k + 2]) == Subs(lens)[k].end + 1 + lens[2 * k + 1]
  {
    hide Subs, LongPulses;
    SubAt(lens, k);
    SumSnoc(lens, 2 * k);
    SumSnoc(lens, 2 * k + 1);
  }

  /** Where the sub-bursts of a train start and end. */
  lemma SubsBounds(lens: seq<nat>)
    requires LongPulses(lens) && lens != []
    ensures Subs(lens) != [] && Subs(lens)[0].start == 0
    ensures Last(Subs(lens)).end + 1 == PulseEnd(lens)
  {
    hide Subs, LongPulses;
    SubAt(lens, 0);
    assert lens[..0] == [];
    var k := (|lens| - 1) / 2;
    SubAt(lens, k);
    SumSnoc(lens, 2 * k);
    if |lens| % 2 == 1 {
      assert lens[..2 * k + 1] == lens;
    } else {
      assert lens[..2 * k + 1] == Front(lens);
    }
  }

  lemma FrontOfOne<T>(x: T)
    ensures Front([x]) == [] && Last([x]) == x
  {
  }

  /** The report of a group that is known to have these sub-bursts. */
  lemma ReportOfGroup<Iq>(gs: seq<seq<Seg>>, group: seq<Seg>, lens: seq<nat>, hist: seq<Sample<Iq>>)
    requires Proper(gs) && group != [] && LongPulses(lens) && lens != []
    requires LongSubs(group[0].first, group) == Subs(lens) && group[0].first + PulseEnd(lens) <= |hist|
    ensures Subs(lens) != [] && Subs(lens)[0].start <= Last(Subs(lens)).end
    ensures group[0].first + Last(Subs(lens)).end <= |hist|
    ensures Reports(gs + [group], hist) == Reports(gs, hist) + [Finish(group[0].first, Subs(lens), hist)]
  {
    hide LongSubs, Subs, LongPulses, PulseEnd, Finish;
    SubsBounds(lens);
    var groups := gs + [group];
    assert Front(groups) == gs && Last(groups) == group;
  }

  lemma NoReports<Iq>(hist: seq<Sample<Iq>>)
    ensures Reports([], hist) == []
  {
  }

  /** The groups of a stream that ends with silence, and which of them are over. */
  lemma SilenceFollows<Iq>(coalesce: nat, hist: seq<Sample<Iq>>, end: nat, groups: seq<seq<Seg>>)
    requires end <= |hist| && AllAre(hist[end..], false) && Groups(coalesce, hist[..end]) == groups
    ensures Groups(coalesce, hist) == groups && Proper(groups)
    ensures Run(coalesce, hist).finished ==
            Reports(if Over(coalesce, groups, |hist|) then groups else Front(groups), hist)
  {
    hide Groups, Reports, Run, Deadline;
    assert hist == hist[..end] + hist[end..];
    QuietRun(coalesce, hist[..end], hist[end..]);
    FinishedAreExpiredGroups(coalesce, hist);
  }

  /** Between two silences, a train from `base` to `end`. */
  ghost predicate Received<Iq>(lens: seq<nat>, base: nat, end: nat, hist: seq<Sample<Iq>>) {
    && base <= end <= |hist|
    && AllAre(hist[..base], false) && Keyed(lens, base, hist[..end]) && AllAre(hist[end..], false)
  }

  lemma ReceivedGroup<Iq>(coalesce: nat, lens: seq<nat>, base: nat, end: nat, hist: seq<Sample<Iq>>)
    requires lens != [] && Received(lens, base, end, hist) && Separable(coalesce, lens)
    ensures end == base + Sum(lens) && LongPulses(lens) && Segs(base, lens) != []
    ensures Groups(coalesce, hist[..end]) == [Segs(base, lens)]
  {
    hide Groups, Keyed, Separable, AllAre, Segs, Sum, LongPulses;
    PulsesOfSeparable(coalesce, lens);
    assert hist[..end][..base] == hist[..base];
    QuietStream(coalesce, hist[..base]);
    TrainIsOneGroup(coalesce, [], lens, base, hist[..end]);
    LastSeg(base, lens);
    assert [] + [Segs(base, lens)] == [Segs(base, lens)];
  }

  /** A separable train is reported as one burst, as soon as enough silence follows. */
  lemma TrainIsReported<Iq>(coalesce: nat, lens: seq<nat>, base: nat, end: nat, hist: seq<Sample<Iq>>)
    requires lens != [] && Received(lens, base, end, hist) && Separable(coalesce, lens)
    ensures end == base + Sum(lens) && PulseEnd(lens) <= Sum(lens) && LongPulses(lens)
    ensures var finished := Run(coalesce, hist).finished;
            if |hist| < base + PulseEnd(lens) + Silence(coalesce) then finished == []
            else |finished| == 1 && finished[0].origin == base && finished[0].subs == Subs(lens)
  {
    hide LongSubs, Reports, Separable, Run, LongPulses, Segs, Subs, Groups, Keyed, AllAre, Finish;
    ReceivedGroup(coalesce, lens, base, end, hist);
    var group := Segs(base, lens);
    LastSeg(base, lens);
    SubsOfSegs(base, lens);
    FrontOfOne(group);
    SilenceFollows(coalesce, hist, end, [group]);
    PulseEndInside(lens);
    NoReports(hist);
    assert [] + [group] == [group];
    ReportOfGroup([], group, lens, hist);
    FinishFields(base, Subs(lens), hist);
  }

  lemma PulseEndInside(lens: seq<nat>)
    requires lens != []
    ensures PulseEnd(lens) <= Sum(lens)
  {
  }

  lemma FinishFields<Iq>(origin: nat, subs: seq<SubBurst>, hist: seq<Sample<Iq>>)
    requires subs != [] && subs[0].start <= Last(subs).end && origin + Last(subs).end <= |hist|
    ensures Finish(origin, subs, hist).origin == origin && Finish(origin, subs, hist).subs == subs
  {
  }

  // -------------------------------------------------- a pulse too short to be kept

  lemma ShortIsIgnored(origin: nat, group: seq<Seg>, short: Seg)
    requires !Long(short)
    ensures LongSubs(origin, group + [short]) == LongSubs(origin, group)
  {
    assert Front(group + [short]) == group;
  }

  /** A train that ends with a gap, a pulse too short to be kept, and then silence: the
      burst ends with the train's last pulse. */
  lemma ShortPulseIsDropped<Iq>(
      coalesce: nat, lens: seq<nat>, base: nat, end: nat, short: nat, hist: seq<Sample<Iq>>)
    requires lens != [] && |lens| % 2 == 0 && 0 < short < SAMPLES_UNDER_THRS && end + short <= |hist|
    requires SAMPLES_UNDER_THRS < Last(lens) < Silence(coalesce)
    requires Separable(coalesce, lens) && base <= end && AllAre(hist[..base], false) && Keyed(lens, base, hist[..end])
    requires AllAre(hist[end..end + short], true) && AllAre(hist[end + short..], false)
    requires end + short + Silence(coalesce) <= |hist|
    ensures LongPulses(lens)
    ensures var finished := Run(coalesce, hist).finished;
            |finished| == 1 && finished[0].origin == base && finished[0].subs == Subs(lens)
  {
    hide LongSubs, Reports, Separable, Run, LongPulses, Segs, Subs, Groups, Keyed, AllAre, Finish, Sum;
    var group, last := Segs(base, lens), Seg(end, end + short - 1);
    ShortPulseJoins(coalesce, lens, base, end, short, hist);
    SilenceFollows(coalesce, hist, end + short, [group + [last]]);
    ShortIsOver(coalesce, group, last, |hist|);
    ShortReport(group, last, base, lens, hist);
  }

  lemma ShortIsOver(coalesce: nat, group: seq<Seg>, short: Seg, n: nat)
    requires !Long(short) && short.last + SAMPLES_UNDER_THRS + Max(coalesce, 1) < n
    ensures Over(coalesce, [group + [short]], n)
  {
    assert Last([group + [short]]) == group + [short] && Last(group + [short]) == short;
  }

  lemma ShortReport<Iq>(group: seq<Seg>, short: Seg, base: nat, lens: seq<nat>, hist: seq<Sample<Iq>>)
    requires lens != [] && LongPulses(lens) && group == Segs(base, lens) && !Long(short)
    requires base + Sum(lens) <= |hist|
    ensures var reports := Reports([group + [short]], hist);
            |reports| == 1 && reports[0].origin == base && reports[0].subs == Subs(lens)
  {
    hide LongSubs, Reports, LongPulses, Segs, Subs, Finish, Sum, PulseEnd;
    SubsOfSegs(base, lens);
    LastSeg(base, lens);
    ShortIsIgnored(base, group, short);
    NoReports(hist);
    PulseEndInside(lens);
    assert [] + [group + [short]] == [group + [short]];
    ReportOfGroup([], group + [short], lens, hist);
    FinishFields(base, Subs(lens), hist);
  }

  lemma ShortPulseJoins<Iq>(
      coalesce: nat, lens: seq<nat>, base: nat, end: nat, short: nat, hist: seq<Sample<Iq>>)
    requires lens != [] && |lens| % 2 == 0 && 0 < short && end + short <= |hist|
    requires SAMPLES_UNDER_THRS < Last(lens) < Silence(coalesce)
    requires Separable(coalesce, lens) && base <= end && AllAre(hist[..base], false) && Keyed(lens, base, hist[..end])
    requires AllAre(hist[end..end + short], true)
    ensures LongPulses(lens) && end == base + Sum(lens) && Segs(base, lens) != []
    ensures Groups(coalesce, hist[..end + short]) == [Segs(base, lens) + [Seg(end, end + short - 1)]]
  {
    hide Separable, LongPulses, Segs, Groups, Keyed, AllAre, Joined, Prolonged, Deadline, Sum;
    var whole, group := hist[..end + short], Segs(base, lens);
    assert whole == hist[..end] + hist[end..end + short];
    ShortTrain(coalesce, lens, base, end, hist);
    GapIsInTime(coalesce, base, lens, Last(lens));
    LoudRun(coalesce, hist[..end], hist[end..end + short]);
    AnotherPulse(coalesce, [], group, end, end + short - 1);
    var joined := group + [Seg(end, end + short - 1)];
    assert [] + [group] == [group] && [] + [joined] == [joined];
  }

  lemma ShortTrain<Iq>(coalesce: nat, lens: seq<nat>, base: nat, end: nat, hist: seq<Sample<Iq>>)
    requires lens != [] && base <= end <= |hist|
    requires Separable(coalesce, lens) && AllAre(hist[..base], false) && Keyed(lens, base, hist[..end])
    ensures LongPulses(lens) && end == base + Sum(lens) && Groups(coalesce, hist[..end]) == [Segs(base, lens)]
  {
    hide Groups, Keyed, Separable;
    var cut := hist[..end];
    assert cut[..base] == hist[..base] && cut[..end] == cut;
    ReceivedGroup(coalesce, lens, base, end, cut);
  }

  // ---------------------------------------------------------------- repetitions

  /** The lengths of a train that is sent over and over. */
  function CopyLens(lens: seq<nat>, copies: nat): (all: seq<nat>)
    ensures |lens| % 2 == 0 ==> |all| % 2 == 0
  {
    if copies == 0 then [] else CopyLens(lens, copies - 1) + lens
  }

  /** A product, by repeated addition. */
  function Times(n: nat, k: nat): nat {
    if k == 0 then 0 else Times(n, k - 1) + n
  }

  lemma {:induction false} TimesIsProduct(n: nat, k: nat)
    ensures Times(n, k) == k * n
  {
    if k > 0 {
      TimesIsProduct(n, k - 1);
      Distribute(k, 1, n);
    }
  }

  /** The groups of a train that is sent over and over, with a burst for each. */
  function CopyGroups(base: nat, lens: seq<nat>, copies: nat): (groups: seq<seq<Seg>>)
    requires lens != []
    ensures |groups| == copies && Proper(groups)
  {
    if copies == 0 then [] else CopyGroups(base, lens, copies - 1) + [Segs(base + Times(Sum(lens), copies - 1), lens)]
  }

  /** The positions at which the copies start, and what lies between them. */
  ghost predicate KeyedCopies<Iq>(lens: seq<nat>, copies: nat, base: nat, hist: seq<Sample<Iq>>) {
    if copies == 0 then |hist| == base
    else
      var mid := base + Times(Sum(lens), copies - 1);
      mid <= |hist| && KeyedCopies(lens, copies - 1, base, hist[..mid]) && Keyed(lens, mid, hist)
  }

  lemma {:induction false} CopiesAreKeyed<Iq>(lens: seq<nat>, copies: nat, base: nat, hist: seq<Sample<Iq>>)
    requires |lens| % 2 == 0 && KeyedCopies(lens, copies, base, hist)
    ensures Keyed(CopyLens(lens, copies), base, hist)
  {
    if copies > 0 {
      var mid := base + Times(Sum(lens), copies - 1);
      CopiesAreKeyed(lens, copies - 1, base, hist[..mid]);
      KeyedAppend(CopyLens(lens, copies - 1), lens, base, mid, hist);
    }
  }

  lemma {:induction false} CopiesLength<Iq>(lens: seq<nat>, copies: nat, base: nat, hist: seq<Sample<Iq>>)
    requires KeyedCopies(lens, copies, base, hist)
    ensures |hist| == base + Times(Sum(lens), copies) && base <= |hist|
  {
    if copies > 0 {
      KeyedLength(lens, base + Times(Sum(lens), copies - 1), hist);
    }
  }

  /** When the gap at the end of a copy ends a burst, every copy is a group of its own. */
  lemma {:induction false} CopiesAreGroups<Iq>(
      coalesce: nat, lens: seq<nat>, copies: nat, base: nat, hist: seq<Sample<Iq>>)
    requires lens != [] && |lens| % 2 == 0 && Separable(coalesce, lens) && Silence(coalesce) <= Last(lens)
    requires KeyedCopies(lens, copies, base, hist) && base <= |hist| && AllAre(hist[..base], false)
    ensures Groups(coalesce, hist) == CopyGroups(base, lens, copies)
    ensures Over(coalesce, Groups(coalesce, hist), |hist|)
  {
    hide Groups, Keyed, Separable, AllAre, Segs, Sum, Over, Last;
    if copies == 0 {
      assert hist[..base] == hist;
      QuietStream(coalesce, hist);
      NothingIsOver(coalesce, base);
    } else {
      var mid := base + Times(Sum(lens), copies - 1);
      CopiesLength(lens, copies - 1, base, hist[..mid]);
      assert hist[..mid][..base] == hist[..base];
      CopiesAreGroups(coalesce, lens, copies - 1, base, hist[..mid]);
      var gs := CopyGroups(base, lens, copies - 1);
      TrainIsOneGroup(coalesce, gs, lens, mid, hist);
      CopyIsOver(coalesce, gs, lens, mid);
    }
  }

  lemma NothingIsOver(coalesce: nat, pos: nat)
    ensures Over(coalesce, [], pos)
  {
  }

  lemma CopyIsOver(coalesce: nat, gs: seq<seq<Seg>>, lens: seq<nat>, base: nat)
    requires Proper(gs) && lens != [] && |lens| % 2 == 0 && Separable(coalesce, lens)
    requires Silence(coalesce) <= Last(lens)
    ensures Proper(gs + [Segs(base, lens)]) && Over(coalesce, gs + [Segs(base, lens)], base + Sum(lens))
  {
    hide Segs, Separable;
    PulsesOfSeparable(coalesce, lens);
    LastSeg(base, lens);
    assert Last(gs + [Segs(base, lens)]) == Segs(base, lens);
  }

  /** The reports of all the copies. */
  lemma {:induction false} ReportsOfCopies<Iq>(lens: seq<nat>, copies: nat, base: nat, hist: seq<Sample<Iq>>)
    requires lens != [] && LongPulses(lens) && base + Times(Sum(lens), copies) <= |hist|
    ensures var reports := Reports(CopyGroups(base, lens, copies), hist);
            && |reports| == copies
            && forall j :: 0 <= j < copies ==>
                 reports[j].origin == base + Times(Sum(lens), j) && reports[j].subs == Subs(lens)
  {
    hide Reports, Segs, Sum, Subs, LongPulses, LongSubs, Finish, PulseEnd;
    if copies == 0 {
      NoReports(hist);
    } else {
      ReportsOfCopies(lens, copies - 1, base, hist);
      var start := base + Times(Sum(lens), copies - 1);
      SubsOfSegs(start, lens);
      PulseEndInside(lens);
      LastSeg(start, lens);
      ReportOfGroup(CopyGroups(base, lens, copies - 1), Segs(start, lens), lens, hist);
      FinishFields(start, Subs(lens), hist);
    }
  }

  /** Copies with a burst for each are all reported, once the last of them is over. */
  lemma CopiesAreReported<Iq>(
      coalesce: nat, lens: seq<nat>, copies: nat, base: nat, end: nat, hist: seq<Sample<Iq>>)
    requires lens != [] && |lens| % 2 == 0 && Separable(coalesce, lens) && Silence(coalesce) <= Last(lens)
    requires base <= end <= |hist| && KeyedCopies(lens, copies, base, hist[..end])
    requires AllAre(hist[..base], false) && AllAre(hist[end..], false)
    ensures LongPulses(lens)
    ensures var finished := Run(coalesce, hist).finished;
            && |finished| == copies
            && forall j :: 0 <= j < copies ==>
                 finished[j].origin == base + Times(Sum(lens), j) && finished[j].subs == Subs(lens)
  {
    hide Groups, KeyedCopies, Separable, AllAre, Segs, Sum, Subs, LongPulses, Run, Reports, CopyGroups, Deadline;
    PulsesOfSeparable(coalesce, lens);
    var cut := hist[..end];
    assert cut[..base] == hist[..base];
    CopiesAreGroups(coalesce, lens, copies, base, cut);
    CopiesLength(lens, copies, base, cut);
    SilenceFollows(coalesce, hist, end, CopyGroups(base, lens, copies));
    ReportsOfCopies(lens, copies, base, hist);
  }

  // -------------------------------------------------------- lengths, and symbols

  /** The receiver measures pulses one sample short and gaps one sample long. */
  lemma MeasuredLengths(lens: seq<nat>, k: nat)
    requires LongPulses(lens) && lens != [] && ClosedChain(Subs(lens))
    ensures InOrder(Subs(lens)) && |Gaps(Subs(lens))| == |Subs(lens)| - 1
    ensures 2 * k < |lens| ==> Lengths(Subs(lens))[k] == lens[2 * k] - 1
    ensures 2 * k + 2 < |lens| ==> Gaps(Subs(lens))[k] == lens[2 * k + 1] + 1
  {
    hide Subs, Gaps, LongPulses, ClosedChain, Sum;
    GapsOfChain(Subs(lens), k);
    if 2 * k < |lens| {
      SubAt(lens, k);
    }
    if 2 * k + 2 < |lens| {
      SubAt(lens, k + 1);
      PulseAndGap(lens, k);
    }
  }

  /** What the demodulator sees of length `k`. */
  function Seen(lens: seq<nat>, k: nat): nat
    requires k < |lens|
  {
    if k % 2 == 1 then lens[k] + 1 else if lens[k] == 0 then 0 else lens[k] - 1
  }

  function SymbolSeen(on: Channel, off: Channel, lens: seq<nat>, k: nat): Mapped
    requires k < |lens|
  {
    Classify(if k % 2 == 0 then on else off, Seen(lens, k))
  }

  /** What the demodulator makes of the first `n` lengths. */
  function SymbolsSeen(on: Channel, off: Channel, lens: seq<nat>, n: nat): (ms: seq<Mapped>)
    requires n <= |lens|
    ensures |ms| == n && forall k :: 0 <= k < n ==> ms[k] == SymbolSeen(on, off, lens, k)
  {
    seq(n, k requires 0 <= k < n => SymbolSeen(on, off, lens, k))
  }

  /** How many lengths of a train are seen: a gap at its end is not. */
  function SeenCount(lens: seq<nat>): nat
    requires lens != []
  {
    if |lens| % 2 == 1 then |lens| else |lens| - 1
  }

  /** The demodulator holds the lengths of a burst. */
  ghost predicate Holds(on: Channel, off: Channel, subs: seq<SubBurst>) {
    InOrder(subs) && on.data == Lengths(subs) && off.data == Gaps(subs)
  }

  ghost predicate DecodesTo(on: Channel, off: Channel, msgs: seq<seq<bool>>) {
    0 < |on.data| <= |off.data| + 1 && Demodulated(on, off) == msgs
  }

  /** A burst that was reported for a train is demodulated from what is seen of it. */
  lemma TrainIsDecoded(on: Channel, off: Channel, lens: seq<nat>)
    requires LongPulses(lens) && lens != [] && ClosedChain(Subs(lens)) && Holds(on, off, Subs(lens))
    ensures 0 < |on.data| <= |off.data| + 1 && SeenCount(lens) == 2 * |on.data| - 1
    ensures Symbols(on, off, SeenCount(lens)) == SymbolsSeen(on, off, lens, SeenCount(lens))
    ensures DecodesTo(on, off, Flush(Decode(SymbolsSeen(on, off, lens, SeenCount(lens)))).msgs)
  {
    hide Decode, Subs, Gaps, ClosedChain, LongPulses, Classify, InOrder;
    MeasuredLengths(lens, 0);
    var n := SeenCount(lens);
    forall k | 0 <= k < n
      ensures Symbols(on, off, n)[k] == SymbolsSeen(on, off, lens, n)[k]
    {
      MeasuredLengths(lens, k / 2);
    }
    assert Symbols(on, off, n) == SymbolsSeen(on, off, lens, n);
  }

  /** Recognised bits are added to the message in progress. */
  lemma {:induction false} DecodeBits(before: seq<Mapped>, ms: seq<Mapped>, bits: seq<bool>)
    requires |ms| == |bits| && forall k :: 0 <= k < |bits| ==> ms[k] == Bit(bits[k])
    ensures Decode(before + ms) == Decode(before).(current := Decode(before).current + bits)
    decreases |bits|
  {
    if bits == [] {
      assert before + ms == before;
    } else {
      DecodeBits(before, Front(ms), Front(bits));
      DecodeSnoc(before + Front(ms), Last(ms));
      assert before + ms == before + Front(ms) + [Last(ms)];
      assert Front(bits) + [Last(bits)] == bits;
    }
  }

  // -------------------------------------------- what repetitions are decoded to

  /** `copies` copies of a message, one by one. */
  function OneByOne(bits: seq<bool>, copies: nat): seq<seq<bool>> {
    if copies == 0 then [] else OneByOne(bits, copies - 1) + [bits]
  }

  /** `copies` copies of a message as one, with a bit between two of them. */
  function Joint(bits: seq<bool>, between: bool, copies: nat): seq<bool> {
    if copies == 0 then []
    else if copies == 1 then bits
    else Joint(bits, between, copies - 1) + [between] + bits
  }

  /** What is seen of the copies of a train that ends with a gap, without the last gap. */
  function CopySymbols(ms: seq<Mapped>, gap: Mapped, copies: nat): seq<Mapped> {
    if copies == 0 then []
    else if copies == 1 then ms
    else CopySymbols(ms, gap, copies - 1) + [gap] + ms
  }

  /** The gap between two copies parts them when it is unknown, and joins them when it
      looks like a bit. */
  lemma {:induction false} CopiesDecoded(ms: seq<Mapped>, gap: Mapped, bits: seq<bool>, copies: nat)
    requires |ms| == |bits| && (forall k :: 0 <= k < |bits| ==> ms[k] == Bit(bits[k])) && bits != []
    requires copies > 0 && gap != NoBit
    ensures Decode(CopySymbols(ms, gap, copies)) ==
            if gap == Unknown then Decoder(OneByOne(bits, copies - 1), bits)
            else Decoder([], Joint(bits, gap.bit, copies))
    decreases copies
  {
    if copies == 1 {
      DecodeBits([], ms, bits);
      assert [] + ms == ms && [] + bits == bits;
    } else {
      var before := CopySymbols(ms, gap, copies - 1);
      CopiesDecoded(ms, gap, bits, copies - 1);
      DecodeSnoc(before, gap);
      DecodeBits(before + [gap], ms, bits);
      assert [] + bits == bits;
    }
  }

  lemma {:induction false} CopySymbolsLength(ms: seq<Mapped>, gap: Mapped, copies: nat)
    requires copies > 0
    ensures |CopySymbols(ms, gap, copies)| == copies * (|ms| + 1) - 1
  {
    if copies > 1 {
      CopySymbolsLength(ms, gap, copies - 1);
      Distribute(copies, 1, |ms| + 1);
    }
  }

  lemma {:induction false} CopyLensLength(lens: seq<nat>, copies: nat)
    ensures |CopyLens(lens, copies)| == copies * |lens|
  {
    if copies > 0 {
      CopyLensLength(lens, copies - 1);
      Distribute(copies, 1, |lens|);
    }
  }

  /** Behind an even number of lengths a train is seen as it is by itself. */
  lemma SeenBehind(on: Channel, off: Channel, front: seq<nat>, lens: seq<nat>, n: nat)
    requires |front| % 2 == 0 && n <= |lens|
    ensures SymbolsSeen(on, off, front + lens, |front| + n) ==
            SymbolsSeen(on, off, front, |front|) + SymbolsSeen(on, off, lens, n)
  {
    hide Classify;
    var whole := SymbolsSeen(on, off, front + lens, |front| + n);
    var parts := SymbolsSeen(on, off, front, |front|) + SymbolsSeen(on, off, lens, n);
    forall k | 0 <= k < |front| + n
      ensures whole[k] == parts[k]
    {
      if k >= |front| {
        assert (front + lens)[k] == lens[k - |front|];
      }
    }
  }

  lemma SeenSnoc(on: Channel, off: Channel, lens: seq<nat>, n: nat)
    requires n < |lens|
    ensures SymbolsSeen(on, off, lens, n + 1) == SymbolsSeen(on, off, lens, n) + [SymbolSeen(on, off, lens, n)]
  {
  }

  /** What is seen of one copy more: the gap that ends those before, and then its own. */
  lemma SeenOfOneMore(on: Channel, off: Channel, front: seq<nat>, lens: seq<nat>)
    requires front != [] && |front| % 2 == 0 && lens != []
    ensures SymbolsSeen(on, off, front + lens, |front + lens| - 1) ==
            SymbolsSeen(on, off, front, |front| - 1) + [SymbolSeen(on, off, front, |front| - 1)] +
            SymbolsSeen(on, off, lens, |lens| - 1)
  {
    hide Classify, SymbolSeen, SymbolsSeen;
    SeenSnoc(on, off, front, |front| - 1);
    SeenBehind(on, off, front, lens, |lens| - 1);
    assert |front + lens| - 1 == |front| + (|lens| - 1);
  }

  lemma {:induction false} SeenOfCopies(on: Channel, off: Channel, lens: seq<nat>, copies: nat)
    requires lens != [] && |lens| % 2 == 0 && copies > 0
    ensures |CopyLens(lens, copies)| >= |lens|
    ensures SymbolsSeen(on, off, CopyLens(lens, copies), |CopyLens(lens, copies)| - 1) ==
            CopySymbols(SymbolsSeen(on, off, lens, |lens| - 1), SymbolSeen(on, off, lens, |lens| - 1), copies)
    decreases copies
  {
    hide Classify, SymbolSeen, SymbolsSeen;
    if copies == 1 {
      assert CopyLens(lens, 1) == lens;
    } else {
      SeenOfCopies(on, off, lens, copies - 1);
      LastOfCopies(on, off, lens, copies - 1);
      SeenOfOneMore(on, off, CopyLens(lens, copies - 1), lens);
    }
  }

  lemma {:induction false} LastOfCopies(on: Channel, off: Channel, lens: seq<nat>, copies: nat)
    requires lens != [] && |lens| % 2 == 0 && copies > 0
    ensures |CopyLens(lens, copies)| >= |lens|
    ensures SymbolSeen(on, off, CopyLens(lens, copies), |CopyLens(lens, copies)| - 1) ==
            SymbolSeen(on, off, lens, |lens| - 1)
  {
    hide Classify;
    var all := CopyLens(lens, copies);
    assert all[|all| - 1] == lens[|lens| - 1];
  }
}
