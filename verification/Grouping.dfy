// What the groups of activities of a stream are, said without walking over it, and
// that this leaves no choice.

module Groupings {
  import opened Reception
  import opened Activity

  /** Within twenty samples there is another one above the threshold, not behind `last`. */
  ghost predicate GoesOn<Iq>(hist: seq<Sample<Iq>>, p: nat, last: nat)
    requires last < |hist|
  {
    exists q :: p < q <= p + SAMPLES_UNDER_THRS && q <= last && hist[q].above
  }

  /** An activity starts and ends above the threshold and is never quiet for longer than
      twenty samples. */
  ghost predicate IsActivity<Iq>(seg: Seg, hist: seq<Sample<Iq>>) {
    && seg.first <= seg.last < |hist| && hist[seg.first].above && hist[seg.last].above
    && forall p :: seg.first <= p < seg.last && hist[p].above ==> GoesOn(hist, p, seg.last)
  }

  /** Another activity of a burst: more than twenty samples behind the one before, but
      before its deadline. */
  predicate Joins(coalesce: nat, before: Seg, seg: Seg) {
    before.last + SAMPLES_UNDER_THRS < seg.first <= Deadline(coalesce, before)
  }

  ghost predicate GroupAt<Iq>(coalesce: nat, group: seq<Seg>, k: nat, hist: seq<Sample<Iq>>)
    requires k < |group|
  {
    IsActivity(group[k], hist) && (k > 0 ==> Joins(coalesce, group[k - 1], group[k]))
  }

  ghost predicate IsGroup<Iq>(coalesce: nat, group: seq<Seg>, hist: seq<Sample<Iq>>) {
    group != [] && forall k :: 0 <= k < |group| ==> GroupAt(coalesce, group, k, hist)
  }

  /** The next burst starts behind the deadline of the one before. */
  ghost predicate GroupsAt<Iq>(coalesce: nat, groups: seq<seq<Seg>>, g: nat, hist: seq<Sample<Iq>>)
    requires Proper(groups) && g < |groups|
  {
    IsGroup(coalesce, groups[g], hist) && (g > 0 ==> Deadline(coalesce, Last(groups[g - 1])) < groups[g][0].first)
  }

  ghost predicate WellGrouped<Iq>(coalesce: nat, groups: seq<seq<Seg>>, hist: seq<Sample<Iq>>) {
    Proper(groups) && forall g :: 0 <= g < |groups| ==> GroupsAt(coalesce, groups, g, hist)
  }

  ghost predicate CoveredBy(group: seq<Seg>, p: nat) {
    exists k :: 0 <= k < |group| && group[k].first <= p <= group[k].last
  }

  ghost predicate Covered(groups: seq<seq<Seg>>, p: nat) {
    exists g :: 0 <= g < |groups| && CoveredBy(groups[g], p)
  }

  /** The groups of a stream: every sample above the threshold belongs to one of their
      activities. */
  ghost predicate IsGrouping<Iq>(coalesce: nat, groups: seq<seq<Seg>>, hist: seq<Sample<Iq>>) {
    && WellGrouped(coalesce, groups, hist)
    && forall p :: 0 <= p < |hist| && hist[p].above ==> Covered(groups, p)
  }

  // ------------------------------------------------------------ the last activity

  /** Some groups, and one more activity: of the last burst, or of a new one. */
  function Without(gs: seq<seq<Seg>>, group: seq<Seg>): seq<seq<Seg>> {
    if group == [] then gs else gs + [group]
  }

  function With(gs: seq<seq<Seg>>, group: seq<Seg>, seg: Seg): seq<seq<Seg>> {
    gs + [group + [seg]]
  }

  lemma IsGroupSnoc<Iq>(coalesce: nat, group: seq<Seg>, seg: Seg, hist: seq<Sample<Iq>>)
    ensures IsGroup(coalesce, group + [seg], hist) <==>
            && IsActivity(seg, hist)
            && (group != [] ==> IsGroup(coalesce, group, hist) && Joins(coalesce, Last(group), seg))
  {
    hide IsActivity, Joins;
    var whole := group + [seg];
    if IsGroup(coalesce, whole, hist) {
      forall k | 0 <= k < |group|
        ensures GroupAt(coalesce, group, k, hist)
      {
        assert GroupAt(coalesce, whole, k, hist);
      }
      assert GroupAt(coalesce, whole, |group|, hist);
    }
    if IsActivity(seg, hist) && (group != [] ==> IsGroup(coalesce, group, hist) && Joins(coalesce, Last(group), seg)) {
      forall k | 0 <= k < |whole|
        ensures GroupAt(coalesce, whole, k, hist)
      {
        assert k < |group| ==> GroupAt(coalesce, group, k, hist);
      }
    }
  }

  lemma WellGroupedSnoc<Iq>(coalesce: nat, gs: seq<seq<Seg>>, group: seq<Seg>, hist: seq<Sample<Iq>>)
    requires group != []
    ensures WellGrouped(coalesce, gs + [group], hist) <==>
            && WellGrouped(coalesce, gs, hist) && IsGroup(coalesce, group, hist)
            && (gs != [] ==> Deadline(coalesce, Last(Last(gs))) < group[0].first)
  {
    hide IsGroup, Deadline;
    var whole := gs + [group];
    if WellGrouped(coalesce, whole, hist) {
      forall g | 0 <= g < |gs|
        ensures gs[g] != [] && whole[g] == gs[g]
      {
        assert whole[g] != [];
      }
      forall g | 0 <= g < |gs|
        ensures GroupsAt(coalesce, gs, g, hist)
      {
        assert GroupsAt(coalesce, whole, g, hist);
      }
      assert GroupsAt(coalesce, whole, |gs|, hist);
    }
    if && WellGrouped(coalesce, gs, hist) && IsGroup(coalesce, group, hist)
       && (gs != [] ==> Deadline(coalesce, Last(Last(gs))) < group[0].first) {
      forall g | 0 <= g < |whole|
        ensures GroupsAt(coalesce, whole, g, hist)
      {
        assert g < |gs| ==> GroupsAt(coalesce, gs, g, hist);
      }
    }
  }

  /** What the last activity adds. */
  lemma WithActivity<Iq>(coalesce: nat, gs: seq<seq<Seg>>, group: seq<Seg>, seg: Seg, hist: seq<Sample<Iq>>)
    ensures WellGrouped(coalesce, With(gs, group, seg), hist) <==>
            && WellGrouped(coalesce, Without(gs, group), hist) && IsActivity(seg, hist)
            && (group != [] ==> Joins(coalesce, Last(group), seg))
            && (group == [] && gs != [] ==> Deadline(coalesce, Last(Last(gs))) < seg.first)
  {
    hide IsActivity, IsGroup, WellGrouped, Joins, Deadline;
    IsGroupSnoc(coalesce, group, seg, hist);
    WellGroupedSnoc(coalesce, gs, group + [seg], hist);
    if group == [] {
      assert (group + [seg])[0] == seg;
    } else {
      WellGroupedSnoc(coalesce, gs, group, hist);
      assert (group + [seg])[0] == group[0];
    }
  }

  lemma WithCovers(gs: seq<seq<Seg>>, group: seq<Seg>, seg: Seg, p: nat)
    ensures Covered(With(gs, group, seg), p) <==> Covered(Without(gs, group), p) || seg.first <= p <= seg.last
  {
    var with_, without := With(gs, group, seg), Without(gs, group);
    assert CoveredBy(group + [seg], p) <==> CoveredBy(group, p) || seg.first <= p <= seg.last by {
      CoveredBySnoc(group, seg, p);
    }
    hide CoveredBy;
    if Covered(without, p) {
      var g :| 0 <= g < |without| && CoveredBy(without[g], p);
      assert CoveredBy(with_[g], p);
    }
    if Covered(with_, p) {
      var g :| 0 <= g < |with_| && CoveredBy(with_[g], p);
      assert g < |gs| ==> CoveredBy(without[g], p);
      assert group != [] ==> without[|gs|] == group;
    }
    if seg.first <= p <= seg.last {
      assert CoveredBy(with_[|gs|], p);
    }
    NotCoveredByNothing(p);
  }

  lemma CoveredBySnoc(group: seq<Seg>, seg: Seg, p: nat)
    ensures CoveredBy(group + [seg], p) <==> CoveredBy(group, p) || seg.first <= p <= seg.last
  {
    var whole := group + [seg];
    if CoveredBy(group, p) {
      var k :| 0 <= k < |group| && group[k].first <= p <= group[k].last;
      assert whole[k].first <= p <= whole[k].last;
    }
    if CoveredBy(whole, p) {
      var k :| 0 <= k < |whole| && whole[k].first <= p <= whole[k].last;
      assert k < |group| ==> group[k].first <= p <= group[k].last;
    }
    assert whole[|group|] == seg;
  }

  lemma NotCoveredByNothing(p: nat)
    ensures !CoveredBy([], p)
  {
  }

  /** Groups that are not empty have a last activity. */
  lemma Decompose(groups: seq<seq<Seg>>) returns (gs: seq<seq<Seg>>, group: seq<Seg>, seg: Seg)
    requires Proper(groups) && groups != []
    ensures groups == With(gs, group, seg)
  {
    gs, group, seg := Front(groups), Front(Last(groups)), Last(Last(groups));
    assert Last(groups) == group + [seg];
  }

  // --------------------------------------------------------------- one more sample

  lemma ActivityLater<Iq>(seg: Seg, hist: seq<Sample<Iq>>, x: Sample<Iq>)
    requires seg.last < |hist|
    ensures IsActivity(seg, hist) <==> IsActivity(seg, hist + [x])
  {
    var later := hist + [x];
    if IsActivity(seg, hist) {
      forall p | seg.first <= p < seg.last && later[p].above
        ensures GoesOn(later, p, seg.last)
      {
        assert hist[p].above && GoesOn(hist, p, seg.last);
        var q :| p < q <= p + SAMPLES_UNDER_THRS && q <= seg.last && hist[q].above;
        assert later[q].above;
      }
    }
    if IsActivity(seg, later) {
      forall p | seg.first <= p < seg.last && hist[p].above
        ensures GoesOn(hist, p, seg.last)
      {
        assert later[p].above && GoesOn(later, p, seg.last);
        var q :| p < q <= p + SAMPLES_UNDER_THRS && q <= seg.last && later[q].above;
        assert hist[q].above;
      }
    }
  }

  /** All activities end before a position. */
  ghost predicate EndBefore(groups: seq<seq<Seg>>, n: nat) {
    forall g, k :: 0 <= g < |groups| && 0 <= k < |groups[g]| ==> groups[g][k].last < n
  }

  lemma WellGroupedLater<Iq>(coalesce: nat, groups: seq<seq<Seg>>, hist: seq<Sample<Iq>>, x: Sample<Iq>)
    requires EndBefore(groups, |hist|)
    ensures WellGrouped(coalesce, groups, hist) <==> WellGrouped(coalesce, groups, hist + [x])
  {
    hide IsActivity, Deadline, Joins;
    if Proper(groups) {
      forall g | 0 <= g < |groups|
        ensures IsGroup(coalesce, groups[g], hist) <==> IsGroup(coalesce, groups[g], hist + [x])
      {
        GroupLater(coalesce, groups[g], hist, x);
      }
      hide IsGroup;
      assert forall g :: 0 <= g < |groups| ==>
        (GroupsAt(coalesce, groups, g, hist) <==> GroupsAt(coalesce, groups, g, hist + [x]));
    }
  }

  lemma GroupLater<Iq>(coalesce: nat, group: seq<Seg>, hist: seq<Sample<Iq>>, x: Sample<Iq>)
    requires forall k :: 0 <= k < |group| ==> group[k].last < |hist|
    ensures IsGroup(coalesce, group, hist) <==> IsGroup(coalesce, group, hist + [x])
  {
    hide IsActivity, Joins;
    forall k | 0 <= k < |group|
      ensures GroupAt(coalesce, group, k, hist) <==> GroupAt(coalesce, group, k, hist + [x])
    {
      ActivityLater(group[k], hist, x);
    }
  }

  lemma ActivitiesInside<Iq>(coalesce: nat, groups: seq<seq<Seg>>, hist: seq<Sample<Iq>>)
    requires WellGrouped(coalesce, groups, hist)
    ensures EndBefore(groups, |hist|)
  {
    forall g, k | 0 <= g < |groups| && 0 <= k < |groups[g]|
      ensures groups[g][k].last < |hist|
    {
      assert GroupsAt(coalesce, groups, g, hist) && GroupAt(coalesce, groups[g], k, hist);
    }
  }

  /** Activities end above the threshold, so none ends at a quiet sample. */
  lemma NoneEndsQuiet<Iq>(coalesce: nat, groups: seq<seq<Seg>>, hist: seq<Sample<Iq>>, x: Sample<Iq>)
    requires WellGrouped(coalesce, groups, hist + [x]) && !x.above
    ensures EndBefore(groups, |hist|)
  {
    forall g, k | 0 <= g < |groups| && 0 <= k < |groups[g]|
      ensures groups[g][k].last < |hist|
    {
      assert GroupsAt(coalesce, groups, g, hist + [x]) && GroupAt(coalesce, groups[g], k, hist + [x]);
    }
  }

  /** A quiet sample changes nothing. */
  lemma QuietGrouping<Iq>(coalesce: nat, groups: seq<seq<Seg>>, hist: seq<Sample<Iq>>, x: Sample<Iq>)
    requires !x.above
    ensures IsGrouping(coalesce, groups, hist) <==> IsGrouping(coalesce, groups, hist + [x])
  {
    hide GroupsAt, Covered;
    var later := hist + [x];
    if IsGrouping(coalesce, groups, hist) {
      ActivitiesInside(coalesce, groups, hist);
      WellGroupedLater(coalesce, groups, hist, x);
    }
    if IsGrouping(coalesce, groups, later) {
      NoneEndsQuiet(coalesce, groups, hist, x);
      WellGroupedLater(coalesce, groups, hist, x);
      assert forall p :: 0 <= p < |hist| ==> later[p] == hist[p];
    }
  }

  /** Activities come one after the other: what the others cover lies before the last. */
  lemma {:induction false} BeforeLast<Iq>(
      coalesce: nat, gs: seq<seq<Seg>>, group: seq<Seg>, seg: Seg, hist: seq<Sample<Iq>>, p: nat)
    requires WellGrouped(coalesce, With(gs, group, seg), hist) && Covered(Without(gs, group), p)
    ensures p < seg.first
    decreases |gs|, |group|, 0
  {
    hide IsActivity, WellGrouped, Covered, GroupsAt;
    WithActivity(coalesce, gs, group, seg, hist);
    if group != [] {
      assert group == Front(group) + [Last(group)];
      LastCovers(coalesce, gs, Front(group), Last(group), hist, p, group);
    } else if gs != [] {
      GroupedIsProper(coalesce, gs, hist);
      assert gs == Front(gs) + [Last(gs)] && Last(gs) == Front(Last(gs)) + [Last(Last(gs))];
      LastCovers(coalesce, Front(gs), Front(Last(gs)), Last(Last(gs)), hist, p, Last(gs));
    } else {
      NothingCovers(p);
    }
  }

  lemma GroupedIsProper<Iq>(coalesce: nat, gs: seq<seq<Seg>>, hist: seq<Sample<Iq>>)
    requires WellGrouped(coalesce, gs, hist)
    ensures Proper(gs)
  {
  }

  lemma NothingCovers(p: nat)
    ensures !Covered([], p)
  {
  }

  /** Nothing is covered behind the last activity. */
  lemma {:induction false} LastCovers<Iq>(
      coalesce: nat, gs: seq<seq<Seg>>, group: seq<Seg>, seg: Seg, hist: seq<Sample<Iq>>, p: nat, whole: seq<Seg>)
    requires whole == group + [seg]
    requires WellGrouped(coalesce, gs + [whole], hist) && Covered(gs + [whole], p)
    ensures p <= seg.last
    decreases |gs|, |group|, 1
  {
    hide WellGrouped, Covered, GroupsAt;
    assert With(gs, group, seg) == gs + [whole];
    WithCovers(gs, group, seg, p);
    if Covered(Without(gs, group), p) {
      BeforeLast(coalesce, gs, group, seg, hist, p);
      WithActivity(coalesce, gs, group, seg, hist);
    }
  }

  /** The other activities end before the last. */
  lemma OthersEndBefore<Iq>(coalesce: nat, gs: seq<seq<Seg>>, group: seq<Seg>, seg: Seg, hist: seq<Sample<Iq>>)
    requires WellGrouped(coalesce, With(gs, group, seg), hist)
    ensures EndBefore(Without(gs, group), seg.first)
  {
    var others: seq<seq<Seg>> := Without(gs, group);
    WithActivity(coalesce, gs, group, seg, hist);
    forall g, k | 0 <= g < |others| && 0 <= k < |others[g]|
      ensures others[g][k].last < seg.first
    {
      assert GroupsAt(coalesce, others, g, hist) && GroupAt(coalesce, others[g], k, hist);
      assert CoveredBy(others[g], others[g][k].last);
      BeforeLast(coalesce, gs, group, seg, hist, others[g][k].last);
    }
  }

  // ----------------------------------------------------------- the groups are one

  lemma SingleActivity<Iq>(hist: seq<Sample<Iq>>, x: Sample<Iq>)
    requires x.above
    ensures IsActivity(Seg(|hist|, |hist|), hist + [x])
  {
  }

  lemma ProlongedActivity<Iq>(seg: Seg, hist: seq<Sample<Iq>>, x: Sample<Iq>)
    requires IsActivity(seg, hist) && x.above && |hist| <= seg.last + SAMPLES_UNDER_THRS
    requires forall p :: seg.last < p < |hist| ==> !hist[p].above
    ensures IsActivity(Seg(seg.first, |hist|), hist + [x])
  {
    var later, pos := hist + [x], |hist|;
    forall p | seg.first <= p < pos && later[p].above
      ensures GoesOn(later, p, pos)
    {
      assert hist[p].above;
      if p < seg.last {
        assert GoesOn(hist, p, seg.last);
        var q :| p < q <= p + SAMPLES_UNDER_THRS && q <= seg.last && hist[q].above;
        assert later[q].above;
      } else {
        assert later[pos].above;
      }
    }
  }

  /** A new activity, of the last burst or of a new one. */
  lemma AddActivity<Iq>(coalesce: nat, gs: seq<seq<Seg>>, group: seq<Seg>, hist: seq<Sample<Iq>>, x: Sample<Iq>)
    requires x.above && IsGrouping(coalesce, Without(gs, group), hist)
    requires group != [] ==> Joins(coalesce, Last(group), Seg(|hist|, |hist|))
    requires group == [] && gs != [] ==> gs[|gs| - 1] != [] && Deadline(coalesce, Last(Last(gs))) < |hist|
    ensures IsGrouping(coalesce, With(gs, group, Seg(|hist|, |hist|)), hist + [x])
  {
    hide IsActivity, GroupsAt, WellGrouped, Covered, Deadline, Joins, Without, With;
    var seg, others, later := Seg(|hist|, |hist|), Without(gs, group), hist + [x];
    SingleActivity(hist, x);
    ActivitiesInside(coalesce, others, hist);
    WellGroupedLater(coalesce, others, hist, x);
    WithActivity(coalesce, gs, group, seg, later);
    forall p | 0 <= p < |later| && later[p].above
      ensures Covered(With(gs, group, seg), p)
    {
      WithCovers(gs, group, seg, p);
    }
  }

  /** The last activity goes on. */
  lemma ProlongActivity<Iq>(
      coalesce: nat, gs: seq<seq<Seg>>, group: seq<Seg>, seg: Seg, hist: seq<Sample<Iq>>, x: Sample<Iq>)
    requires x.above && IsGrouping(coalesce, With(gs, group, seg), hist) && |hist| <= seg.last + SAMPLES_UNDER_THRS
    ensures IsGrouping(coalesce, With(gs, group, Seg(seg.first, |hist|)), hist + [x])
  {
    hide IsActivity, GroupsAt, WellGrouped, Covered, Deadline;
    var others, later, prolonged := Without(gs, group), hist + [x], Seg(seg.first, |hist|);
    WithActivity(coalesce, gs, group, seg, hist);
    forall p | seg.last < p < |hist|
      ensures !hist[p].above
    {
      if hist[p].above {
        LastCovers(coalesce, gs, group, seg, hist, p, group + [seg]);
      }
    }
    ProlongedActivity(seg, hist, x);
    ActivitiesInside(coalesce, others, hist);
    WellGroupedLater(coalesce, others, hist, x);
    WithActivity(coalesce, gs, group, prolonged, later);
    LastInside(seg, hist);
    forall p | 0 <= p < |later| && later[p].above
      ensures Covered(With(gs, group, prolonged), p)
    {
      WithCovers(gs, group, seg, p);
      WithCovers(gs, group, prolonged, p);
    }
  }

  lemma LastInside<Iq>(seg: Seg, hist: seq<Sample<Iq>>)
    requires IsActivity(seg, hist)
    ensures seg.first <= seg.last < |hist|
  {
  }

  lemma LoudGrouping<Iq>(coalesce: nat, groups: seq<seq<Seg>>, hist: seq<Sample<Iq>>, x: Sample<Iq>)
    requires x.above && IsGrouping(coalesce, groups, hist)
    ensures Proper(groups) && IsGrouping(coalesce, Joined(coalesce, groups, |hist|), hist + [x])
  {
    hide IsGrouping, Deadline;
    GroupingIsProper(coalesce, groups, hist);
    var pos := |hist|;
    if groups == [] || Deadline(coalesce, Last(Last(groups))) < pos {
      AddActivity(coalesce, groups, [], hist, x);
      assert [] + [Seg(pos, pos)] == [Seg(pos, pos)];
    } else {
      var gs, group, seg := Decompose(groups);
      assert Front(groups) == gs && Last(groups) == group + [seg] && Front(Last(groups)) == group;
      if seg.last + SAMPLES_UNDER_THRS < pos {
        AddActivity(coalesce, gs, group + [seg], hist, x);
        JoinedBurst(coalesce, groups, pos);
      } else {
        ProlongActivity(coalesce, gs, group, seg, hist, x);
        JoinedActivity(coalesce, groups, pos);
      }
    }
  }

  lemma GroupingIsProper<Iq>(coalesce: nat, groups: seq<seq<Seg>>, hist: seq<Sample<Iq>>)
    requires IsGrouping(coalesce, groups, hist)
    ensures Proper(groups)
  {
  }

  /** The groups that the receiver finds are a grouping of the stream. */
  lemma {:induction false} GroupsAreAGrouping<Iq>(coalesce: nat, hist: seq<Sample<Iq>>)
    ensures IsGrouping(coalesce, Groups(coalesce, hist), hist)
    decreases |hist|
  {
    if hist != [] {
      hide IsGrouping, Groups, Joined;
      var before, x := Front(hist), Last(hist);
      assert hist == before + [x];
      GroupsAreAGrouping(coalesce, before);
      GroupsStep(coalesce, before, x);
      if x.above {
        LoudGrouping(coalesce, Groups(coalesce, before), before, x);
      } else {
        QuietGrouping(coalesce, Groups(coalesce, before), before, x);
      }
    }
  }

  // ------------------------------------------------------------- there is no other

  /** The last sample above the threshold before the end of an activity. */
  lemma {:induction false} LastLoud<Iq>(hist: seq<Sample<Iq>>, first: nat, end: nat) returns (q: nat)
    requires first < end <= |hist| && hist[first].above
    ensures first <= q < end && hist[q].above && forall p :: q < p < end ==> !hist[p].above
    decreases end
  {
    if hist[end - 1].above {
      q := end - 1;
    } else {
      q := LastLoud(hist, first, end - 1);
    }
  }

  /** An activity that ends at the last sample, without that sample. */
  lemma ShortenedActivity<Iq>(seg: Seg, hist: seq<Sample<Iq>>, x: Sample<Iq>, q: nat)
    requires IsActivity(seg, hist + [x]) && seg.last == |hist| && seg.first <= q < |hist|
    requires hist[q].above && forall p :: q < p < |hist| ==> !hist[p].above
    ensures IsActivity(Seg(seg.first, q), hist) && |hist| <= q + SAMPLES_UNDER_THRS
  {
    var later, pos := hist + [x], |hist|;
    assert later[q].above && GoesOn(later, q, pos);
    var next :| q < next <= q + SAMPLES_UNDER_THRS && next <= pos && later[next].above;
    assert forall r :: q < r < pos ==> !later[r].above;
    assert later[seg.first] == hist[seg.first];
    forall p | seg.first <= p < q && hist[p].above
      ensures GoesOn(hist, p, q)
    {
      assert later[p].above && GoesOn(later, p, pos);
      var r :| p < r <= p + SAMPLES_UNDER_THRS && r <= pos && later[r].above;
      assert r < pos ==> hist[r].above;
      assert hist[if r < pos then r else q].above;
    }
  }

  /** Every grouping of a stream that ends above the threshold comes from a grouping of
      the stream without its last sample. */
  lemma LoudComesFrom<Iq>(coalesce: nat, groups: seq<seq<Seg>>, hist: seq<Sample<Iq>>, x: Sample<Iq>)
    returns (before: seq<seq<Seg>>)
    requires x.above && IsGrouping(coalesce, groups, hist + [x])
    ensures IsGrouping(coalesce, before, hist) && Proper(before)
    ensures groups == Joined(coalesce, before, |hist|)
  {
    hide WellGrouped, Covered, IsActivity, Deadline;
    var later, pos := hist + [x], |hist|;
    assert later[pos].above && Covered(groups, pos);
    GroupedIsProper(coalesce, groups, later);
    if groups == [] {
      NothingCovers(pos);
    }
    var gs, group, seg := Decompose(groups);
    LastCovers(coalesce, gs, group, seg, later, pos, group + [seg]);
    WithActivity(coalesce, gs, group, seg, later);
    LastInside(seg, later);
    OthersGrouping(coalesce, gs, group, seg, hist, x);
    if seg.first == pos {
      before := ComesFromNew(coalesce, gs, group, hist, x);
    } else {
      before := ComesFromShorter(coalesce, gs, group, seg, hist, x);
    }
  }

  /** Without the last activity, the others are well grouped already. */
  lemma OthersGrouping<Iq>(
      coalesce: nat, gs: seq<seq<Seg>>, group: seq<Seg>, seg: Seg, hist: seq<Sample<Iq>>, x: Sample<Iq>)
    requires WellGrouped(coalesce, With(gs, group, seg), hist + [x]) && seg.last == |hist|
    ensures WellGrouped(coalesce, Without(gs, group), hist)
  {
    hide WellGrouped, Covered, IsActivity, Deadline;
    WithActivity(coalesce, gs, group, seg, hist + [x]);
    LastInside(seg, hist + [x]);
    OthersEndBefore(coalesce, gs, group, seg, hist + [x]);
    WellGroupedLater(coalesce, Without(gs, group), hist, x);
  }

  lemma ComesFromNew<Iq>(coalesce: nat, gs: seq<seq<Seg>>, group: seq<Seg>, hist: seq<Sample<Iq>>, x: Sample<Iq>)
    returns (before: seq<seq<Seg>>)
    requires IsGrouping(coalesce, With(gs, group, Seg(|hist|, |hist|)), hist + [x])
    requires WellGrouped(coalesce, Without(gs, group), hist)
    ensures IsGrouping(coalesce, before, hist) && Proper(before)
    ensures With(gs, group, Seg(|hist|, |hist|)) == Joined(coalesce, before, |hist|)
  {
    hide WellGrouped, Covered, IsActivity, Deadline;
    before := Without(gs, group);
    var seg, later := Seg(|hist|, |hist|), hist + [x];
    WithActivity(coalesce, gs, group, seg, later);
    GroupedIsProper(coalesce, before, hist);
    forall p | 0 <= p < |hist| && hist[p].above
      ensures Covered(before, p)
    {
      assert later[p].above;
      WithCovers(gs, group, seg, p);
    }
    if group != [] {
      assert Front(before) == gs && Last(before) == group;
      JoinedBurst(coalesce, before, |hist|);
    } else {
      assert [] + [seg] == [seg];
    }
  }

  lemma ComesFromShorter<Iq>(
      coalesce: nat, gs: seq<seq<Seg>>, group: seq<Seg>, seg: Seg, hist: seq<Sample<Iq>>, x: Sample<Iq>)
    returns (before: seq<seq<Seg>>)
    requires IsGrouping(coalesce, With(gs, group, seg), hist + [x]) && seg.first < seg.last == |hist|
    requires WellGrouped(coalesce, Without(gs, group), hist)
    ensures IsGrouping(coalesce, before, hist) && Proper(before)
    ensures With(gs, group, seg) == Joined(coalesce, before, |hist|)
  {
    hide WellGrouped, Covered, Deadline, GoesOn;
    var later := hist + [x];
    WithActivity(coalesce, gs, group, seg, later);
    assert later[seg.first] == hist[seg.first];
    var q := LastLoud(hist, seg.first, |hist|);
    var shorter := Seg(seg.first, q);
    ShortenedActivity(seg, hist, x, q);
    before := With(gs, group, shorter);
    WithActivity(coalesce, gs, group, shorter, hist);
    GroupedIsProper(coalesce, before, hist);
    forall p | 0 <= p < |hist| && hist[p].above
      ensures Covered(before, p)
    {
      assert later[p].above;
      WithCovers(gs, group, seg, p);
      WithCovers(gs, group, shorter, p);
    }
    assert Front(before) == gs && Last(before) == group + [shorter];
    assert Front(Last(before)) == group && Last(Last(before)) == shorter;
    JoinedActivity(coalesce, before, |hist|);
  }

  /** A stream has one grouping: the groups that the receiver finds. */
  lemma {:induction false} GroupingIsUnique<Iq>(coalesce: nat, groups: seq<seq<Seg>>, hist: seq<Sample<Iq>>)
    requires IsGrouping(coalesce, groups, hist)
    ensures groups == Groups(coalesce, hist)
    decreases |hist|
  {
    hide IsGrouping, Joined, Groups;
    if hist == [] {
      NothingToGroup(coalesce, groups, hist);
    } else {
      var before, x := Front(hist), Last(hist);
      assert hist == before + [x];
      GroupsStep(coalesce, before, x);
      if x.above {
        var earlier := LoudComesFrom(coalesce, groups, before, x);
        GroupingIsUnique(coalesce, earlier, before);
      } else {
        QuietGrouping(coalesce, groups, before, x);
        GroupingIsUnique(coalesce, groups, before);
      }
    }
  }

  lemma NothingToGroup<Iq>(coalesce: nat, groups: seq<seq<Seg>>, hist: seq<Sample<Iq>>)
    requires IsGrouping(coalesce, groups, hist) && hist == []
    ensures groups == [] == Groups(coalesce, hist)
  {
    hide Deadline;
    assert groups != [] ==> GroupsAt(coalesce, groups, 0, hist) && GroupAt(coalesce, groups[0], 0, hist);
  }

  /** The bursts that are handed over, for the one grouping of the stream: those groups
      whose deadline has passed, each with its long activities. */
  lemma ReceiverReportsTheGrouping<Iq>(coalesce: nat, groups: seq<seq<Seg>>, hist: seq<Sample<Iq>>)
    requires IsGrouping(coalesce, groups, hist)
    ensures Proper(groups)
    ensures Run(coalesce, hist).finished ==
            Reports(if groups == [] || Deadline(coalesce, Last(Last(groups))) < |hist| then groups else Front(groups),
                    hist)
  {
    hide IsGrouping, Run, Reports, Deadline;
    GroupingIsProper(coalesce, groups, hist);
    GroupingIsUnique(coalesce, groups, hist);
    FinishedAreExpiredGroups(coalesce, hist);
  }
}
