// Points on a line, counted in a histogram and grouped into clusters.

module Constellations {
  import opened Slots
  import opened Sums
  import opened Clusters

  const INT32_MAX: int := 0x7FFF_FFFF
  const INT32_MIN: int := -0x8000_0000
  const FIRST_SIZE: nat := 1000

  /** How long the table is once there should be room for a position. */
  function TableSizeFor(size: nat, position: nat): nat {
    if size < position then position * 2 else size
  }

  /** The table grows one position too late: there is room for every position except
      the one just behind the table. */
  lemma RoomExceptJustBehind(size: nat, position: nat)
    ensures position < TableSizeFor(size, position) <==> position != size
  {
  }

  /** In the table a constellation starts with, that is position 1000. */
  lemma FirstTableHasNoRoom()
    ensures TableSizeFor(FIRST_SIZE, FIRST_SIZE) == FIRST_SIZE == 1000
  {
  }

  /** Truncation of a non-negative product to an unsigned integer. */
  function Scaled(factor: real, x: int): nat
    requires 0.0 <= factor && 0 <= x
  {
    assert 0.0 <= factor * x as real;
    (factor * x as real).Floor
  }

  /** How many ignored bins in a row a cluster tolerates. */
  function Gap(sampleDistMax: real, posMin: int, posMax: int): nat
    requires 0.0 <= sampleDistMax && 0 <= posMin <= posMax
  {
    Max(Scaled(sampleDistMax, posMin), Scaled(sampleDistMax, posMax - posMin))
  }

  /** As many as the larger of the two distances, the fraction of the first position and that
      of the range, without what is behind the point. */
  lemma GapInNumbers(sampleDistMax: real, posMin: int, posMax: int)
    requires 0.0 <= sampleDistMax && 0 <= posMin <= posMax
    ensures var gap, near, far := Gap(sampleDistMax, posMin, posMax) as real,
                                  sampleDistMax * posMin as real, sampleDistMax * (posMax - posMin) as real;
            gap <= (if near > far then near else far) < gap + 1.0
  {
    assert Scaled(sampleDistMax, posMin) as real <= sampleDistMax * posMin as real;
    assert Scaled(sampleDistMax, posMax - posMin) as real <= sampleDistMax * (posMax - posMin) as real;
  }

  /** Point number `n`, or an empty one at zero. */
  function PointAt(prio: seq<ConstellationPoint>, n: nat): ConstellationPoint {
    if n < |prio| then prio[n] else ConstellationPoint(0.0, 0, 0, 0.0)
  }

  /** The most probable point comes first. */
  predicate Descending(ps: seq<ConstellationPoint>) {
    forall i, j :: 0 <= i < j < |ps| ==> ps[j].proba <= ps[i].proba
  }

  function InsertByProba(p: ConstellationPoint, ps: seq<ConstellationPoint>): (sorted: seq<ConstellationPoint>)
    requires Descending(ps)
    ensures multiset(sorted) == multiset(ps) + multiset{p} && Descending(sorted)
  {
    if ps == [] || ps[0].proba <= p.proba then
      AllAtMost(p, ps);
      assert [p] + ps == [p] + ps;
      [p] + ps
    else
      var rest := InsertByProba(p, ps[1..]);
      assert ps == [ps[0]] + ps[1..];
      StaysBehind(ps[0], p, ps[1..], rest);
      [ps[0]] + rest
  }

  lemma AllAtMost(p: ConstellationPoint, ps: seq<ConstellationPoint>)
    requires Descending(ps) && (ps == [] || ps[0].proba <= p.proba)
    ensures Descending([p] + ps)
  {
  }

  lemma StaysBehind(first: ConstellationPoint, p: ConstellationPoint, ps: seq<ConstellationPoint>,
                    sorted: seq<ConstellationPoint>)
    requires Descending([first] + ps) && p.proba <= first.proba
    requires multiset(sorted) == multiset(ps) + multiset{p} && Descending(sorted)
    ensures Descending([first] + sorted)
  {
    forall j | 0 <= j < |sorted|
      ensures sorted[j].proba <= first.proba
    {
      assert sorted[j] in multiset(sorted);
      if sorted[j] != p {
        assert sorted[j] in multiset(ps);
        var k :| 0 <= k < |ps| && ps[k] == sorted[j];
        assert ([first] + ps)[k + 1] == ps[k] && ([first] + ps)[0] == first;
      }
    }
  }

  function SortByProba(ps: seq<ConstellationPoint>): (sorted: seq<ConstellationPoint>)
    ensures multiset(sorted) == multiset(ps) && Descending(sorted)
  {
    if ps == [] then []
    else
      assert ps == [ps[0]] + ps[1..];
      InsertByProba(ps[0], SortByProba(ps[1..]))
  }

  class Constellation {
    var prio: seq<ConstellationPoint>
    var histPos: seq<nat>
    var posMin: int
    var posMax: int
    var posCount: nat

    /** The bounds enclose all points, and no point is counted twice. */
    ghost predicate Valid()
      reads this
    {
      && (posCount == 0 ==> posMin == INT32_MAX && posMax == INT32_MIN)
      && (posCount > 0 ==> 0 <= posMin < posMax <= |histPos|)
      && (forall i :: 0 <= i < |histPos| && (i < posMin || posMax <= i) ==> histPos[i] == 0)
      && posCount == Sum(histPos)
    }

    ghost function Histogram(ignoreUnder: real): Clusters.Histogram
      reads this
    {
      Clusters.Histogram(histPos, posCount, ignoreUnder)
    }

    constructor ()
      ensures Valid() && posCount == 0 && prio == [] && |histPos| == FIRST_SIZE
    {
      prio, posCount := [], 0;
      posMin, posMax := INT32_MAX, INT32_MIN;
      histPos := seq(FIRST_SIZE, _ => 0);
      new;
      SumOfZeros(histPos);
    }

    function GetHistAt(position: nat): nat
      reads this
    {
      if position < |histPos| then histPos[position] else 0
    }

    /** Makes room for a position in the table. */
    method Grow(position: nat)
      modifies this`histPos
      ensures |histPos| == TableSizeFor(|old(histPos)|, position) && Sum(histPos) == Sum(old(histPos))
      ensures forall i :: 0 <= i < |histPos| ==> histPos[i] == if i < |old(histPos)| then old(histPos)[i] else 0
    {
      if |histPos| < position {
        var room := seq(position * 2 - |histPos|, _ => 0);
        SumConcat(histPos, room);
        SumOfZeros(room);
        histPos := histPos + room;
      }
    }

    /** Counts a point, except at the one position where the table has no room. */
    method AddPoint(position: nat)
      requires Valid() && position != |histPos| && position < INT32_MAX
      modifies this`histPos, this`posMin, this`posMax, this`posCount
      ensures Valid() && posCount == old(posCount) + 1 && |histPos| == TableSizeFor(|old(histPos)|, position)
      ensures posMin == Min(old(posMin), position) && posMax == Max(old(posMax), position + 1)
      ensures forall i: nat :: GetHistAt(i) == old(GetHistAt(i)) + if i == position then 1 else 0
    {
      hide Sum;
      if position < posMin {
        posMin := position;
      }
      if position >= posMax {
        posMax := position + 1;
      }
      Grow(position);
      SumUpdate(histPos, position, histPos[position] + 1);
      histPos := histPos[position := histPos[position] + 1];
      posCount := posCount + 1;
    }

    /** The weight of a bin, with improbable bins ignored. */
    method CountAt(i: nat, ignoreUnder: real) returns (count: nat)
      requires posCount > 0
      ensures count == Kept(Histogram(ignoreUnder), i)
    {
      count := GetHistAt(i);
      if count as real / posCount as real < ignoreUnder {
        count := 0;
      }
    }

    /** One walk over the bins, opening a cluster at a kept bin and closing it when
        one ignored bin too many has followed. The clusters are added to the list. */
    method CreateClusters(sampleDistMax: real, ignoreUnder: real) returns (ghost found: seq<ConstellationPoint>)
      requires Valid() && 0.0 <= sampleDistMax
      modifies this`prio
      ensures prio == old(prio) + found
      ensures posCount == 0 ==> found == []
      ensures posCount > 0 ==>
                var h, gap := Histogram(ignoreUnder), Gap(sampleDistMax, posMin, posMax);
                && AreClusters(h, gap, found, posMin, posMax)
                && forall i :: posMin <= i < posMax && Kept(h, i) > 0 ==> InExactlyOne(found, i)
    {
      hide Kept, Tracked, Scanned, IsCluster, AreClusters, Scaled, InExactlyOne;
      found := [];
      if posMin >= posMax {
        // no point was ever added: the loop over the bins does not start
        return;
      }
      var gap := Gap(sampleDistMax, posMin, posMax);
      ghost var h := Histogram(ignoreUnder);
      var start, end, weighted, sum, zeros := -1, -1, 0, 0, 0;
      NothingTracked(h, gap, posMin);
      var i := posMin;
      while i < posMax
        invariant posMin <= i <= posMax
        invariant prio == old(prio) + found
        invariant Tracked(h, gap, found, posMin, i, start, end, weighted, sum, zeros)
      {
        var count := CountAt(i, ignoreUnder);
        TrackedCluster(h, gap, found, posMin, i, start, end, weighted, sum, zeros);
        if count > 0 {
          TrackKept(h, gap, found, posMin, i, start, end, weighted, sum, zeros);
          weighted := weighted + i * count;
          sum := sum + count;
          if start < 0 {
            start := i;
          }
          end := i + 1;
          zeros := 0;
        } else if sum > 0 && zeros == gap {
          var c := ConstellationPoint(weighted as real / sum as real, start, end, sum as real / posCount as real);
          TrackEnd(h, gap, found, posMin, i, start, end, weighted, sum, zeros, c);
          prio := prio + [c];
          found := found + [c];
          weighted, sum, start, end := 0, 0, -1, -1;
        } else {
          TrackIgnored(h, gap, found, posMin, i, start, end, weighted, sum, zeros);
          zeros := zeros + 1;
        }
        i := i + 1;
      }
      TrackedCluster(h, gap, found, posMin, i, start, end, weighted, sum, zeros);
      if sum > 0 {
        var c := ConstellationPoint(weighted as real / sum as real, start, end, sum as real / posCount as real);
        TrackFinish(h, gap, found, posMin, posMax, start, end, weighted, sum, zeros, [c]);
        prio := prio + [c];
        found := found + [c];
      } else {
        TrackFinish(h, gap, found, posMin, posMax, start, end, weighted, sum, zeros, []);
        assert found + [] == found;
      }
      KeptBinsInExactlyOne(h, gap, found, posMin, posMax);
    }

    /** The clusters, with the most probable first. How equally probable ones are ordered
        is left to the sort. */
    method Clusterize(sampleDistMax: real, ignoreUnder: real) returns (ghost found: seq<ConstellationPoint>)
      requires Valid() && 0.0 <= sampleDistMax
      modifies this`prio
      ensures multiset(prio) == multiset(old(prio) + found) && Descending(prio)
      ensures posCount == 0 ==> found == []
      ensures posCount > 0 ==>
                AreClusters(Histogram(ignoreUnder), Gap(sampleDistMax, posMin, posMax), found, posMin, posMax)
    {
      hide AreClusters, Descending;
      found := CreateClusters(sampleDistMax, ignoreUnder);
      prio := SortByProba(prio);
    }

    function MostProbabilisticPoint(n: nat): ConstellationPoint
      reads this
    {
      PointAt(prio, n)
    }
  }

  lemma {:induction false} MassOfTable(h: Clusters.Histogram, n: nat)
    requires n <= |h.bins|
    ensures Mass(h, 0, n) == Sum(h.bins[..n])
  {
    if n > 0 {
      MassOfTable(h, n - 1);
      assert h.bins[..n][..n - 1] == h.bins[..n - 1];
    }
  }

  /** Conservation: the clusters' masses and the ignored mass make up all points. */
  lemma NoPointIsLost(c: Constellation, ignoreUnder: real, gap: nat, found: seq<ConstellationPoint>)
    requires c.Valid() && 0 < c.posCount
    requires AreClusters(c.Histogram(ignoreUnder), gap, found, c.posMin, c.posMax)
    ensures var h := c.Histogram(ignoreUnder);
            TotalMass(h, found) + IgnoredMass(h, c.posMin, c.posMax) == c.posCount
  {
    hide AreClusters, Kept, Sum;
    var h, n := c.Histogram(ignoreUnder), |c.histPos|;
    ClustersCarryTheKeptMass(h, gap, found, c.posMin, c.posMax);
    NothingIsLost(h, c.posMin, c.posMax);
    MassOfTable(h, n);
    assert h.bins[..n] == c.histPos;
    EmptyBins(h, 0, c.posMin);
    EmptyBins(h, c.posMax, n);
    MassSplit(h, 0, c.posMin, n);
    MassSplit(h, c.posMin, c.posMax, n);
  }
}
