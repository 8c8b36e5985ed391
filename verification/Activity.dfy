// What the receiver automaton means: the samples above the threshold form
// activities, separated by more than twenty quiet samples; activities close
// enough in time form a burst; long activities are its sub-bursts.

module Activity {
  import opened Reception
  import opened Slots

  /** The first and the last sample above the threshold of one activity. */
  datatype Seg = Seg(first: nat, last: nat)

  predicate Long(seg: Seg) {
    seg.first + 19 <= seg.last
  }

  /** The last position at which a new activity still joins the burst. */
  function Deadline(coalesce: nat, seg: Seg): nat {
    if Long(seg) then seg.last + 20 + Max(coalesce, 1) else seg.last + Max(coalesce, 21)
  }

  function Last<T>(s: seq<T>): T
    requires s != []
  {
    s[|s| - 1]
  }

  function Front<T>(s: seq<T>): seq<T>
    requires s != []
  {
    s[..|s| - 1]
  }

  predicate Proper(groups: seq<seq<Seg>>) {
    forall k :: 0 <= k < |groups| ==> groups[k] != []
  }

  /** The activities of a stream, grouped into bursts. */
  function Groups<Iq>(coalesce: nat, hist: seq<Sample<Iq>>): (groups: seq<seq<Seg>>)
    ensures Proper(groups)
    decreases |hist|
  {
    if hist == [] then []
    else
      var pos := |hist| - 1;
      var groups := Groups(coalesce, hist[..pos]);
      if hist[pos].above then Joined(coalesce, groups, pos) else groups
  }

  /** A sample above the threshold joins the last activity, the last burst, or none. */
  function Joined(coalesce: nat, groups: seq<seq<Seg>>, pos: nat): (joined: seq<seq<Seg>>)
    requires Proper(groups)
    ensures Proper(joined)
  {
    if groups == [] || Deadline(coalesce, Last(Last(groups))) < pos then groups + [[Seg(pos, pos)]]
    else if Last(Last(groups)).last + SAMPLES_UNDER_THRS < pos then
      Front(groups) + [Last(groups) + [Seg(pos, pos)]]
    else
      Front(groups) + [Front(Last(groups)) + [Seg(Last(Last(groups)).first, pos)]]
  }

  /** The sub-bursts of a group. The last sample above the threshold is not part of
      the sub-burst: twenty samples are trimmed, one more than were quiet. */
  function LongSubs(origin: nat, group: seq<Seg>): seq<SubBurst> {
    if group == [] then []
    else
      var seg := Last(group);
      LongSubs(origin, Front(group)) +
      if Long(seg) && origin <= seg.first
      then [SubBurst(seg.first - origin, seg.last - origin, seg.last - seg.first)]
      else []
  }

  /** The bursts of some groups: one for every group with a long activity. */
  function Reports<Iq>(groups: seq<seq<Seg>>, hist: seq<Sample<Iq>>): seq<Finished<Iq>>
    requires Proper(groups)
  {
    if groups == [] then []
    else
      var origin := Last(groups)[0].first;
      var subs := LongSubs(origin, Last(groups));
      Reports(Front(groups), hist) +
      if subs != [] && subs[0].start <= Last(subs).end && origin + Last(subs).end <= |hist|
      then [Finish(origin, subs, hist)]
      else []
  }

  /** The groups whose deadline has passed after the whole stream. */
  function Expired<Iq>(coalesce: nat, hist: seq<Sample<Iq>>): (expired: seq<seq<Seg>>)
    ensures Proper(expired)
  {
    var groups := Groups(coalesce, hist);
    if groups == [] || Deadline(coalesce, Last(Last(groups))) < |hist| then groups else Front(groups)
  }

  // ---------------------------------------------------------------- simulation

  ghost predicate Ordered(g: seq<Seg>, n: nat) {
    && (forall k :: 0 <= k < |g| ==> g[0].first <= g[k].first <= g[k].last < n)
  }

  ghost predicate AllOrdered(groups: seq<seq<Seg>>, n: nat) {
    forall k :: 0 <= k < |groups| ==> Ordered(groups[k], n)
  }

  ghost predicate Sim<Iq>(coalesce: nat, s: Core<Iq>, groups: seq<seq<Seg>>, hist: seq<Sample<Iq>>)
    requires Proper(groups)
  {
    var n := |hist|;
    && AllOrdered(groups, n)
    && if s.mode.Listen? then
         && s.finished == Reports(groups, hist)
         && (groups != [] ==> Deadline(coalesce, Last(Last(groups))) < n)
       else
         && groups != []
         && s.finished == Reports(Front(groups), hist)
         && Active(coalesce, s, Last(groups), n)
  }

  /** The burst that is being received. */
  ghost predicate Active<Iq>(coalesce: nat, s: Core<Iq>, group: seq<Seg>, n: nat)
    requires group != []
  {
    var seg := Last(group);
    && s.origin == group[0].first && n <= Deadline(coalesce, seg)
    && if s.mode.Rx? then
         && s.subs != [] && Front(s.subs) == LongSubs(s.origin, Front(group))
         && seg.first == s.origin + Last(s.subs).start && seg.last + 1 + s.under == n
       else
         && s.subs == LongSubs(s.origin, group)
         && seg.last + SAMPLES_UNDER_THRS < n
         && n == seg.last + 1 + s.under + (if Long(seg) then SAMPLES_UNDER_THRS else 0)
  }

  lemma FinishStable<Iq>(origin: nat, subs: seq<SubBurst>, hist: seq<Sample<Iq>>, more: seq<Sample<Iq>>)
    requires subs != [] && subs[0].start <= Last(subs).end && origin + Last(subs).end <= |hist|
    ensures Finish(origin, subs, hist + more) == Finish(origin, subs, hist)
  {
    var end := origin + Last(subs).end;
    assert (hist + more)[origin..end] == hist[origin..end];
  }

  /** Reports only look at samples that are already there. */
  lemma {:induction false} ReportsStable<Iq>(groups: seq<seq<Seg>>, hist: seq<Sample<Iq>>, more: seq<Sample<Iq>>)
    requires Proper(groups) && AllOrdered(groups, |hist|)
    ensures Reports(groups, hist + more) == Reports(groups, hist)
  {
    hide LongSubs, Finish, Ordered;
    if groups != [] {
      var group := Last(groups);
      var subs := LongSubs(group[0].first, group);
      ReportsStable(Front(groups), hist, more);
      LongSubsEnd(group, |hist|);
      if subs != [] && subs[0].start <= Last(subs).end {
        FinishStable(group[0].first, subs, hist, more);
      }
    }
  }

  /** Sub-bursts of an ordered group end inside the stream. */
  lemma {:induction false} LongSubsEnd(group: seq<Seg>, n: nat)
    requires group != [] && Ordered(group, n)
    ensures var subs := LongSubs(group[0].first, group);
            subs != [] ==> group[0].first + Last(subs).end < n
    decreases |group|
  {
    if |group| > 1 {
      LongSubsEnd(Front(group), n);
    }
  }

  lemma QuietInRx<Iq>(coalesce: nat, s: Core<Iq>, group: seq<Seg>, hist: seq<Sample<Iq>>)
    requires hist != [] && group != [] && s.mode.Rx?
    requires CoreInv(s, |hist| - 1) && Active(coalesce, s, group, |hist| - 1)
    requires MidInv(DetectStart(s, |hist| - 1, false), |hist|)
    ensures var s' := TrackEnd(DetectStart(s, |hist| - 1, false), coalesce, hist);
            && !s'.mode.Listen? && s'.finished == s.finished
            && Active(coalesce, s', group, |hist|)
  {
    var seg := Last(group);
    if s.under + 1 >= SAMPLES_UNDER_THRS {
      assert seg.last == |hist| - 1 - SAMPLES_UNDER_THRS;
      assert Long(seg) <==> s.comSub + 1 >= MIN_SAMPLES;
    }
  }

  lemma QuietInCoalescing<Iq>(coalesce: nat, s: Core<Iq>, group: seq<Seg>, hist: seq<Sample<Iq>>)
    requires hist != [] && group != [] && s.mode.Coalescing?
    requires CoreInv(s, |hist| - 1) && Active(coalesce, s, group, |hist| - 1)
    requires MidInv(DetectStart(s, |hist| - 1, false), |hist|)
    ensures var s' := TrackEnd(DetectStart(s, |hist| - 1, false), coalesce, hist);
            if Deadline(coalesce, Last(group)) < |hist| then
              && s'.mode.Listen?
              && s'.finished == s.finished + if s.subs == [] then [] else [Finish(s.origin, s.subs, hist)]
            else
              && s'.mode.Coalescing? && s'.finished == s.finished
              && Active(coalesce, s', group, |hist|)
  {
  }

  /** A quiet sample only lets time pass. */
  lemma QuietStep<Iq>(coalesce: nat, s: Core<Iq>, groups: seq<seq<Seg>>, hist: seq<Sample<Iq>>, x: Sample<Iq>)
    requires CoreInv(s, |hist|) && Proper(groups) && Sim(coalesce, s, groups, hist)
    requires MidInv(DetectStart(s, |hist|, false), |hist| + 1)
    ensures Sim(coalesce, TrackEnd(DetectStart(s, |hist|, false), coalesce, hist + [x]), groups, hist + [x])
  {
    OrderedLater(groups, |hist|);
    if s.mode.Listen? {
      ReportsStable(groups, hist, [x]);
    } else if s.mode.Rx? {
      ReportsStable(Front(groups), hist, [x]);
      QuietInRx(coalesce, s, Last(groups), hist + [x]);
    } else {
      QuietStepCoalescing(coalesce, s, groups, hist, x);
    }
  }

  lemma OrderedLater(groups: seq<seq<Seg>>, n: nat)
    requires AllOrdered(groups, n)
    ensures AllOrdered(groups, n + 1)
  {
    forall k | 0 <= k < |groups|
      ensures Ordered(groups[k], n + 1)
    {
      assert Ordered(groups[k], n);
    }
  }

  lemma QuietStepCoalescing<Iq>(coalesce: nat, s: Core<Iq>, groups: seq<seq<Seg>>, hist: seq<Sample<Iq>>, x: Sample<Iq>)
    requires CoreInv(s, |hist|) && Proper(groups) && Sim(coalesce, s, groups, hist) && s.mode.Coalescing?
    requires MidInv(DetectStart(s, |hist|, false), |hist| + 1)
    ensures Sim(coalesce, TrackEnd(DetectStart(s, |hist|, false), coalesce, hist + [x]), groups, hist + [x])
  {
    OrderedLater(groups, |hist|);
    var s' := TrackEnd(DetectStart(s, |hist|, false), coalesce, hist + [x]);
    assert s.finished == Reports(Front(groups), hist + [x]) by {
      ReportsStable(Front(groups), hist, [x]);
    }
    QuietInCoalescing(coalesce, s, Last(groups), hist + [x]);
    if s'.mode.Listen? {
      ReportOfLast(coalesce, s, groups, hist, x);
    }
  }

  /** The report of the burst whose deadline passes. */
  lemma ReportOfLast<Iq>(coalesce: nat, s: Core<Iq>, groups: seq<seq<Seg>>, hist: seq<Sample<Iq>>, x: Sample<Iq>)
    requires s.mode.Coalescing? && CoreInv(s, |hist|) && Proper(groups) && groups != []
    requires AllOrdered(groups, |hist|) && Active(coalesce, s, Last(groups), |hist|)
    ensures s.subs != [] ==> s.subs[0].start <= Last(s.subs).end && s.origin + Last(s.subs).end <= |hist + [x]|
    ensures Reports(groups, hist + [x]) ==
            Reports(Front(groups), hist + [x]) + if s.subs == [] then [] else [Finish(s.origin, s.subs, hist + [x])]
  {
    LongSubsEnd(Last(groups), |hist|);
    if s.subs != [] {
      ChainIsOrdered(s.subs);
    }
  }

  lemma LoudInListen<Iq>(coalesce: nat, s: Core<Iq>, groups: seq<seq<Seg>>, hist: seq<Sample<Iq>>, x: Sample<Iq>)
    requires CoreInv(s, |hist|) && Proper(groups) && Sim(coalesce, s, groups, hist) && s.mode.Listen?
    requires MidInv(DetectStart(s, |hist|, true), |hist| + 1)
    ensures Sim(coalesce, TrackEnd(DetectStart(s, |hist|, true), coalesce, hist + [x]),
                Joined(coalesce, groups, |hist|), hist + [x])
  {
    var pos := |hist|;
    var joined := Joined(coalesce, groups, pos);
    assert joined == groups + [[Seg(pos, pos)]] && Front(joined) == groups;
    ReportsStable(groups, hist, [x]);
    assert AllOrdered(joined, pos + 1);
    var s' := TrackEnd(DetectStart(s, pos, true), coalesce, hist + [x]);
    assert Front(s'.subs) == [] && Front(Last(joined)) == [];
  }

  /** The burst being received goes on with its last group replaced. */
  lemma SimReplaceLast<Iq>(coalesce: nat, s: Core<Iq>, s': Core<Iq>, groups: seq<seq<Seg>>, group: seq<Seg>,
                           hist: seq<Sample<Iq>>, x: Sample<Iq>)
    requires Proper(groups) && Sim(coalesce, s, groups, hist) && !s.mode.Listen?
    requires group != [] && Ordered(group, |hist| + 1)
    requires s'.mode.Rx? && s'.finished == s.finished && Active(coalesce, s', group, |hist| + 1)
    ensures Sim(coalesce, s', Front(groups) + [group], hist + [x])
  {
    var groups' := Front(groups) + [group];
    assert Front(groups') == Front(groups);
    ReportsStable(Front(groups), hist, [x]);
    forall k | 0 <= k < |groups'|
      ensures Ordered(groups'[k], |hist| + 1)
    {
      assert k < |groups| - 1 ==> Ordered(groups[k], |hist|);
    }
  }

  /** The automaton on a sample above the threshold, inside a burst. */
  lemma LoudResult<Iq>(coalesce: nat, s: Core<Iq>, hist: seq<Sample<Iq>>)
    requires hist != [] && !s.mode.Listen? && CoreInv(s, |hist| - 1)
    ensures MidInv(DetectStart(s, |hist| - 1, true), |hist|)
    ensures TrackEnd(DetectStart(s, |hist| - 1, true), coalesce, hist) ==
            Core(Rx, s.comSample + 1, if s.mode.Rx? then s.comSub + 1 else 1, 0, s.origin,
                 if s.mode.Rx? then s.subs else s.subs + [SubBurst(|hist| - 1 - s.origin, 0, 0)], s.finished)
  {
    hide ClosedChain, OpenChain, CloseLast, Finish;
    DetectStartKeepsInv(s, |hist| - 1, true);
  }

  lemma ActiveNewActivity<Iq>(coalesce: nat, s: Core<Iq>, s': Core<Iq>, group: seq<Seg>, pos: nat)
    requires group != [] && s.mode.Coalescing? && s.origin <= pos
    requires Ordered(group, pos) && Active(coalesce, s, group, pos)
    requires s'.mode.Rx? && s'.origin == s.origin && s'.under == 0
    requires s'.subs == s.subs + [SubBurst(pos - s.origin, 0, 0)]
    ensures Active(coalesce, s', group + [Seg(pos, pos)], pos + 1)
    ensures Ordered(group + [Seg(pos, pos)], pos + 1)
  {
    var group' := group + [Seg(pos, pos)];
    assert Front(group') == group && Front(s'.subs) == s.subs;
  }

  lemma ActiveProlonged<Iq>(coalesce: nat, s: Core<Iq>, s': Core<Iq>, group: seq<Seg>, pos: nat)
    requires group != [] && s.mode.Rx?
    requires Ordered(group, pos) && Active(coalesce, s, group, pos)
    requires s'.mode.Rx? && s'.origin == s.origin && s'.under == 0 && s'.subs == s.subs
    ensures Active(coalesce, s', Front(group) + [Seg(Last(group).first, pos)], pos + 1)
    ensures Ordered(Front(group) + [Seg(Last(group).first, pos)], pos + 1)
  {
    var group' := Front(group) + [Seg(Last(group).first, pos)];
    assert Front(group') == Front(group) && group'[0].first == group[0].first;
  }

  lemma JoinedActivity(coalesce: nat, groups: seq<seq<Seg>>, pos: nat)
    requires Proper(groups) && groups != [] && pos <= Last(Last(groups)).last + SAMPLES_UNDER_THRS
    ensures Joined(coalesce, groups, pos) ==
            Front(groups) + [Front(Last(groups)) + [Seg(Last(Last(groups)).first, pos)]]
  {
  }

  lemma JoinedBurst(coalesce: nat, groups: seq<seq<Seg>>, pos: nat)
    requires Proper(groups) && groups != []
    requires Last(Last(groups)).last + SAMPLES_UNDER_THRS < pos <= Deadline(coalesce, Last(Last(groups)))
    ensures Joined(coalesce, groups, pos) == Front(groups) + [Last(groups) + [Seg(pos, pos)]]
  {
  }

  lemma LoudInBurst<Iq>(coalesce: nat, s: Core<Iq>, groups: seq<seq<Seg>>, hist: seq<Sample<Iq>>, x: Sample<Iq>)
    requires CoreInv(s, |hist|) && Proper(groups) && Sim(coalesce, s, groups, hist) && !s.mode.Listen?
    requires MidInv(DetectStart(s, |hist|, true), |hist| + 1)
    ensures Sim(coalesce, TrackEnd(DetectStart(s, |hist|, true), coalesce, hist + [x]),
                Joined(coalesce, groups, |hist|), hist + [x])
  {
    hide Sim, Joined, DetectStart, TrackEnd, CloseLast, Finish, ClosedChain, OpenChain;
    LoudResult(coalesce, s, hist + [x]);
    JoinInBurst(coalesce, s, TrackEnd(DetectStart(s, |hist|, true), coalesce, hist + [x]), groups, hist, x);
  }

  lemma JoinInBurst<Iq>(
      coalesce: nat, s: Core<Iq>, s': Core<Iq>, groups: seq<seq<Seg>>, hist: seq<Sample<Iq>>, x: Sample<Iq>)
    requires Proper(groups) && Sim(coalesce, s, groups, hist) && !s.mode.Listen?
    requires s.origin <= |hist| && (s.mode.Rx? ==> s.under < SAMPLES_UNDER_THRS)
    requires s'.mode.Rx? && s'.origin == s.origin && s'.under == 0 && s'.finished == s.finished
    requires s'.subs == if s.mode.Rx? then s.subs else s.subs + [SubBurst(|hist| - s.origin, 0, 0)]
    ensures Sim(coalesce, s', Joined(coalesce, groups, |hist|), hist + [x])
  {
    var pos, group := |hist|, Last(groups);
    assert Ordered(group, pos);
    if s.mode.Rx? {
      ActiveProlonged(coalesce, s, s', group, pos);
      SimReplaceLast(coalesce, s, s', groups, Front(group) + [Seg(Last(group).first, pos)], hist, x);
      JoinedActivity(coalesce, groups, pos);
    } else {
      ActiveNewActivity(coalesce, s, s', group, pos);
      SimReplaceLast(coalesce, s, s', groups, group + [Seg(pos, pos)], hist, x);
      JoinedBurst(coalesce, groups, pos);
    }
  }

  lemma SimStep<Iq>(coalesce: nat, s: Core<Iq>, groups: seq<seq<Seg>>, hist: seq<Sample<Iq>>, x: Sample<Iq>)
    requires CoreInv(s, |hist|) && Proper(groups) && Sim(coalesce, s, groups, hist)
    requires MidInv(DetectStart(s, |hist|, x.above), |hist| + 1)
    ensures Sim(coalesce, TrackEnd(DetectStart(s, |hist|, x.above), coalesce, hist + [x]),
                if x.above then Joined(coalesce, groups, |hist|) else groups, hist + [x])
  {
    if !x.above {
      QuietStep(coalesce, s, groups, hist, x);
    } else if s.mode.Listen? {
      LoudInListen(coalesce, s, groups, hist, x);
    } else {
      LoudInBurst(coalesce, s, groups, hist, x);
    }
  }

  lemma RunStep<Iq>(coalesce: nat, hist: seq<Sample<Iq>>, x: Sample<Iq>)
    ensures MidInv(DetectStart(Run(coalesce, hist), |hist|, x.above), |hist| + 1)
    ensures Run(coalesce, hist + [x]) ==
            TrackEnd(DetectStart(Run(coalesce, hist), |hist|, x.above), coalesce, hist + [x])
  {
    DetectStartKeepsInv(Run(coalesce, hist), |hist|, x.above);
    assert (hist + [x])[..|hist|] == hist;
  }

  lemma GroupsStep<Iq>(coalesce: nat, hist: seq<Sample<Iq>>, x: Sample<Iq>)
    ensures Groups(coalesce, hist + [x]) ==
            if x.above then Joined(coalesce, Groups(coalesce, hist), |hist|) else Groups(coalesce, hist)
  {
    assert (hist + [x])[..|hist|] == hist;
  }

  lemma {:induction false} AutomatonSimulatesGroups<Iq>(coalesce: nat, hist: seq<Sample<Iq>>)
    ensures Sim(coalesce, Run(coalesce, hist), Groups(coalesce, hist), hist)
    decreases |hist|
  {
    if hist == [] {
    } else {
      var before, x := hist[..|hist| - 1], hist[|hist| - 1];
      assert hist == before + [x];
      AutomatonSimulatesGroups(coalesce, before);
      RunStep(coalesce, before, x);
      GroupsStep(coalesce, before, x);
      SimStep(coalesce, Run(coalesce, before), Groups(coalesce, before), before, x);
    }
  }

  /** The bursts of the automaton are exactly the expired groups with a long
      activity, each with all its long activities, in order. */
  lemma FinishedAreExpiredGroups<Iq>(coalesce: nat, hist: seq<Sample<Iq>>)
    ensures Run(coalesce, hist).finished == Reports(Expired(coalesce, hist), hist)
  {
    AutomatonSimulatesGroups(coalesce, hist);
  }

  /** A finished burst holds the samples of the stream from its origin to the end of its last
      sub-burst, and its length is counted from its first sub-burst. */
  ghost predicate HoldsItsSamples<Iq>(f: Finished<Iq>, hist: seq<Sample<Iq>>) {
    && f.subs != [] && f.subs[0].start <= Last(f.subs).end && f.origin + Last(f.subs).end <= |hist|
    && f.len == Last(f.subs).end - f.subs[0].start
    && |f.data| == Last(f.subs).end
    && forall k :: 0 <= k < |f.data| ==> f.data[k] == hist[f.origin + k].iq
  }

  lemma {:induction false} ReportsHoldTheirSamples<Iq>(groups: seq<seq<Seg>>, hist: seq<Sample<Iq>>)
    requires Proper(groups)
    ensures forall k :: 0 <= k < |Reports(groups, hist)| ==> HoldsItsSamples(Reports(groups, hist)[k], hist)
  {
    hide LongSubs;
    if groups != [] {
      ReportsHoldTheirSamples(Front(groups), hist);
    }
  }

  /** Every burst that is handed over holds its own samples, none missing and none too many. */
  lemma BurstsHoldTheirSamples<Iq>(coalesce: nat, hist: seq<Sample<Iq>>)
    ensures forall f :: f in Run(coalesce, hist).finished ==> HoldsItsSamples(f, hist)
  {
    hide Run, Reports, HoldsItsSamples;
    FinishedAreExpiredGroups(coalesce, hist);
    ReportsHoldTheirSamples(Expired(coalesce, hist), hist);
  }
}
