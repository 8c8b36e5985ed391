// Clusters of a histogram: what they should be, by declaration.

module Clusters {
  import opened Slots

  /** A histogram of non-negative positions, the number of points in it, and the
      probability under which a bin is ignored. */
  datatype Histogram = Histogram(bins: seq<nat>, total: nat, ignoreUnder: real)

  datatype ConstellationPoint = ConstellationPoint(pos: real, posMin: int, posMax: int, proba: real)

  function BinAt(h: Histogram, i: int): nat {
    if 0 <= i < |h.bins| then h.bins[i] else 0
  }

  /** The weight of a bin: nothing if it is too improbable. */
  function Kept(h: Histogram, i: int): nat {
    if h.total > 0 && BinAt(h, i) as real / h.total as real < h.ignoreUnder then 0 else BinAt(h, i)
  }

  function KeptMass(h: Histogram, lo: int, hi: int): nat
    decreases hi - lo
  {
    if hi <= lo then 0 else KeptMass(h, lo, hi - 1) + Kept(h, hi - 1)
  }

  function Weighted(h: Histogram, lo: int, hi: int): int
    decreases hi - lo
  {
    if hi <= lo then 0 else Weighted(h, lo, hi - 1) + (hi - 1) * Kept(h, hi - 1)
  }

  function Mass(h: Histogram, lo: int, hi: int): nat
    decreases hi - lo
  {
    if hi <= lo then 0 else Mass(h, lo, hi - 1) + BinAt(h, hi - 1)
  }

  function IgnoredMass(h: Histogram, lo: int, hi: int): nat
    decreases hi - lo
  {
    if hi <= lo then 0 else IgnoredMass(h, lo, hi - 1) + (BinAt(h, hi - 1) - Kept(h, hi - 1))
  }

  /** No more than `gap` ignored bins in a row inside [lo, hi). */
  ghost predicate Dense(h: Histogram, gap: nat, lo: int, hi: int) {
    forall j :: lo <= j && j + gap < hi ==> SomeKept(h, j, gap)
  }

  ghost predicate SomeKept(h: Histogram, lo: int, gap: nat) {
    exists i :: lo <= i <= lo + gap && Kept(h, i) > 0
  }

  /** A cluster: it starts and ends with a kept bin, has no wide gap inside, and
      carries the centre and the share of the mass it covers. */
  ghost predicate IsCluster(h: Histogram, gap: nat, c: ConstellationPoint) {
    && c.posMin < c.posMax
    && Kept(h, c.posMin) > 0 && Kept(h, c.posMax - 1) > 0
    && Dense(h, gap, c.posMin, c.posMax)
    && 0 < KeptMass(h, c.posMin, c.posMax)
    && c.pos == Weighted(h, c.posMin, c.posMax) as real / KeptMass(h, c.posMin, c.posMax) as real
    && (h.total > 0 ==> c.proba == KeptMass(h, c.posMin, c.posMax) as real / h.total as real)
  }

  /** In order, with more than `gap` bins between the end of one and the next. */
  ghost predicate Apart(cs: seq<ConstellationPoint>, gap: nat) {
    forall k, l :: 0 <= k < l < |cs| ==> cs[k].posMax + gap + 1 <= cs[l].posMin
  }

  ghost predicate Inside(c: ConstellationPoint, i: int) {
    c.posMin <= i < c.posMax
  }

  ghost predicate Covered(cs: seq<ConstellationPoint>, i: int) {
    exists k :: 0 <= k < |cs| && Inside(cs[k], i)
  }

  /** The clusters of the bins [lo, hi): every kept bin is in one of them. */
  ghost predicate AreClusters(h: Histogram, gap: nat, cs: seq<ConstellationPoint>, lo: int, hi: int) {
    && (forall k :: 0 <= k < |cs| ==> IsCluster(h, gap, cs[k]) && lo <= cs[k].posMin && cs[k].posMax <= hi)
    && Apart(cs, gap)
    && (forall i :: lo <= i < hi && Kept(h, i) > 0 ==> Covered(cs, i))
  }

  function TotalMass(h: Histogram, cs: seq<ConstellationPoint>): nat {
    if cs == [] then 0
    else TotalMass(h, cs[..|cs| - 1]) + KeptMass(h, cs[|cs| - 1].posMin, cs[|cs| - 1].posMax)
  }

  // ------------------------------------------------------------------- sums

  lemma {:induction false} KeptMassSplit(h: Histogram, lo: int, mid: int, hi: int)
    requires lo <= mid <= hi
    ensures KeptMass(h, lo, hi) == KeptMass(h, lo, mid) + KeptMass(h, mid, hi)
    decreases hi - mid
  {
    if mid < hi {
      KeptMassSplit(h, lo, mid, hi - 1);
    }
  }

  /** Kept and ignored mass make up the whole. */
  lemma {:induction false} NothingIsLost(h: Histogram, lo: int, hi: int)
    ensures KeptMass(h, lo, hi) + IgnoredMass(h, lo, hi) == Mass(h, lo, hi)
    decreases hi - lo
  {
    if lo < hi {
      NothingIsLost(h, lo, hi - 1);
    }
  }

  lemma {:induction false} WeightedBounds(h: Histogram, lo: int, hi: int)
    requires lo < hi
    ensures lo * KeptMass(h, lo, hi) <= Weighted(h, lo, hi) <= (hi - 1) * KeptMass(h, lo, hi)
    decreases hi - lo
  {
    hide Kept;
    if lo + 1 == hi {
      assert KeptMass(h, lo, lo) == 0 && Weighted(h, lo, lo) == 0;
    } else {
      WeightedBounds(h, lo, hi - 1);
      MoreWeight(lo, hi - 1, KeptMass(h, lo, hi - 1), Weighted(h, lo, hi - 1), Kept(h, hi - 1));
    }
  }

  lemma MoreWeight(lo: int, last: int, m: nat, w: int, k: nat)
    requires lo < last && lo * m <= w <= (last - 1) * m
    ensures lo * (m + k) <= w + last * k <= last * (m + k)
  {
    MulMono(lo, last, k);
    MulMono(last - 1, last, m);
    assert lo * (m + k) == lo * m + lo * k;
    assert last * (m + k) == last * m + last * k;
  }

  /** A bin is kept, with all its points, exactly when there are some in it and their share is
      large enough. */
  lemma KeptWithItsPoints(h: Histogram, i: int)
    requires 0 < h.total
    ensures Kept(h, i) > 0 <==> BinAt(h, i) > 0 && h.ignoreUnder * h.total as real <= BinAt(h, i) as real
    ensures Kept(h, i) > 0 ==> Kept(h, i) == BinAt(h, i)
  {
    var share, total := BinAt(h, i) as real / h.total as real, h.total as real;
    assert share * total == BinAt(h, i) as real;
    if share < h.ignoreUnder {
      assert (h.ignoreUnder - share) * total > 0.0;
    } else {
      assert (share - h.ignoreUnder) * total >= 0.0;
    }
  }

  /** The distances of the kept points of some bins from a centre, added up with their
      signs. */
  function Imbalance(h: Histogram, centre: real, lo: int, hi: int): real
    decreases hi - lo
  {
    if hi <= lo then 0.0
    else Imbalance(h, centre, lo, hi - 1) + Kept(h, hi - 1) as real * ((hi - 1) as real - centre)
  }

  lemma {:induction false} ImbalanceIsMoment(h: Histogram, centre: real, lo: int, hi: int)
    ensures Imbalance(h, centre, lo, hi) == Weighted(h, lo, hi) as real - centre * KeptMass(h, lo, hi) as real
    decreases hi - lo
  {
    hide Kept;
    if lo < hi {
      ImbalanceIsMoment(h, centre, lo, hi - 1);
      OneMore(centre, hi - 1, Kept(h, hi - 1), Weighted(h, lo, hi - 1), KeptMass(h, lo, hi - 1));
    }
  }

  lemma OneMore(centre: real, i: int, k: nat, w: int, m: nat)
    ensures w as real - centre * m as real + k as real * (i as real - centre) ==
            (w + i * k) as real - centre * (m + k) as real
  {
    assert (i * k) as real == i as real * k as real;
    assert centre * (m + k) as real == centre * m as real + centre * k as real;
  }

  /** The centre of a cluster is where its kept points balance. */
  lemma CentreBalances(h: Histogram, gap: nat, c: ConstellationPoint)
    requires IsCluster(h, gap, c)
    ensures Imbalance(h, c.pos, c.posMin, c.posMax) == 0.0
    ensures 0 < h.total ==> c.proba * h.total as real == KeptMass(h, c.posMin, c.posMax) as real
  {
    hide Kept, Dense, KeptMass, Weighted, Imbalance;
    ImbalanceIsMoment(h, c.pos, c.posMin, c.posMax);
    QuotientTimes(Weighted(h, c.posMin, c.posMax) as real, KeptMass(h, c.posMin, c.posMax) as real);
    if 0 < h.total {
      QuotientTimes(KeptMass(h, c.posMin, c.posMax) as real, h.total as real);
    }
  }

  lemma QuotientTimes(x: real, y: real)
    requires y != 0.0
    ensures x / y * y == x
  {
  }

  /** The centre of a cluster lies between its first and its last kept bin. */
  lemma CentreIsInside(h: Histogram, gap: nat, c: ConstellationPoint)
    requires IsCluster(h, gap, c)
    ensures c.posMin as real <= c.pos <= (c.posMax - 1) as real
  {
    WeightedBounds(h, c.posMin, c.posMax);
    QuotientBounds(c.posMin, c.posMax - 1, Weighted(h, c.posMin, c.posMax), KeptMass(h, c.posMin, c.posMax));
  }

  lemma QuotientBounds(lo: int, hi: int, w: int, m: nat)
    requires 0 < m && lo * m <= w <= hi * m
    ensures lo as real <= w as real / m as real <= hi as real
  {
    assert lo as real * m as real == (lo * m) as real;
    assert hi as real * m as real == (hi * m) as real;
    RealQuotient(lo as real, w as real, m as real);
    RealQuotient(-(hi as real), -(w as real), m as real);
    assert -(w as real) / m as real == -(w as real / m as real);
  }

  lemma RealQuotient(a: real, w: real, m: real)
    requires 0.0 < m && a * m <= w
    ensures a <= w / m
  {
    var q := w / m;
    assert q * m == w;
    if q < a {
      assert (a - q) * m > 0.0;
    }
  }

  // -------------------------------------------------------------- uniqueness

  ghost predicate InExactlyOne(cs: seq<ConstellationPoint>, i: int) {
    && Covered(cs, i)
    && forall k, l :: 0 <= k < |cs| && 0 <= l < |cs| && Inside(cs[k], i) && Inside(cs[l], i) ==> k == l
  }

  /** Kept bins belong to exactly one cluster. */
  lemma KeptBinsInExactlyOne(h: Histogram, gap: nat, cs: seq<ConstellationPoint>, lo: int, hi: int)
    requires AreClusters(h, gap, cs, lo, hi)
    ensures forall i :: lo <= i < hi && Kept(h, i) > 0 ==> InExactlyOne(cs, i)
  {
    hide Kept, IsCluster;
  }

  lemma StartsInOrder(h: Histogram, gap: nat, cs: seq<ConstellationPoint>, lo: int, hi: int, k: nat, l: nat)
    requires AreClusters(h, gap, cs, lo, hi) && k <= l < |cs|
    ensures cs[k].posMin <= cs[l].posMin && cs[k].posMin < cs[k].posMax
    ensures k < l ==> cs[k].posMax + gap + 1 <= cs[l].posMin
  {
    hide Kept;
    assert IsCluster(h, gap, cs[k]);
  }

  /** Between two clusters of a list nothing is kept. */
  lemma NothingBetween(h: Histogram, gap: nat, cs: seq<ConstellationPoint>, lo: int, hi: int, k: nat, i: int)
    requires AreClusters(h, gap, cs, lo, hi) && k < |cs|
    requires cs[k].posMax <= i < hi && (k + 1 < |cs| ==> i < cs[k + 1].posMin)
    ensures Kept(h, i) == 0
  {
    hide Kept, IsCluster;
    LastIsKept(h, gap, cs[k]);
    forall l | 0 <= l < |cs|
      ensures !Inside(cs[l], i)
    {
      if k < l {
        StartsInOrder(h, gap, cs, lo, hi, k + 1, l);
      } else {
        StartsInOrder(h, gap, cs, lo, hi, l, k);
      }
    }
    assert !Covered(cs, i);
  }

  lemma LastIsKept(h: Histogram, gap: nat, c: ConstellationPoint)
    requires IsCluster(h, gap, c)
    ensures c.posMin < c.posMax && Kept(h, c.posMin) > 0 && Kept(h, c.posMax - 1) > 0
  {
  }

  lemma KeptInWindow(h: Histogram, gap: nat, c: ConstellationPoint, j: int) returns (i: int)
    requires IsCluster(h, gap, c) && c.posMin <= j && j + gap < c.posMax
    ensures j <= i <= j + gap && Kept(h, i) > 0
  {
    hide Kept, KeptMass, Weighted;
    assert SomeKept(h, j, gap);
    i :| j <= i <= j + gap && Kept(h, i) > 0;
  }

  /** A cluster of one list ends where the cluster of the other list ends that starts
      at the same bin: it cannot go on across a gap that is too wide. */
  lemma SameEnd(h: Histogram, gap: nat, cs: seq<ConstellationPoint>, ds: seq<ConstellationPoint>, lo: int, hi: int,
                k: nat, l: nat)
    requires AreClusters(h, gap, cs, lo, hi) && AreClusters(h, gap, ds, lo, hi)
    requires k < |cs| && l < |ds| && cs[k].posMin == ds[l].posMin
    ensures cs[k].posMax <= ds[l].posMax
  {
    hide Kept, IsCluster;
    if ds[l].posMax < cs[k].posMax {
      LastIsKept(h, gap, cs[k]);
      // the last bin of cs[k] is kept, so it lies in a later cluster of ds, and the
      // gap before that cluster is a window without kept bins inside cs[k]
      var j := ds[l].posMax;
      assert IsCluster(h, gap, cs[k]) && IsCluster(h, gap, ds[l]);
      assert Covered(ds, cs[k].posMax - 1);
      var m :| 0 <= m < |ds| && Inside(ds[m], cs[k].posMax - 1);
      if m < l {
        StartsInOrder(h, gap, ds, lo, hi, m, l);
        assert false;
      }
      StartsInOrder(h, gap, ds, lo, hi, l, l + 1);
      StartsInOrder(h, gap, ds, lo, hi, l + 1, m);
      var i := KeptInWindow(h, gap, cs[k], j);
      NothingBetween(h, gap, ds, lo, hi, l, i);
    }
  }

  lemma NextStart(h: Histogram, gap: nat, cs: seq<ConstellationPoint>, ds: seq<ConstellationPoint>, lo: int, hi: int,
                  k: nat)
    requires AreClusters(h, gap, cs, lo, hi) && AreClusters(h, gap, ds, lo, hi)
    requires k < |cs| && k <= |ds| && cs[..k] == ds[..k]
    ensures k < |ds| && ds[k].posMin <= cs[k].posMin
  {
    hide Kept, IsCluster;
    assert IsCluster(h, gap, cs[k]);
    LastIsKept(h, gap, cs[k]);
    forall m | 0 <= m < k
      ensures !Inside(ds[m], cs[k].posMin)
    {
      assert ds[..k][m] == cs[..k][m];
      StartsInOrder(h, gap, cs, lo, hi, m, k);
    }
    assert Covered(ds, cs[k].posMin);
    var m :| 0 <= m < |ds| && Inside(ds[m], cs[k].posMin);
    StartsInOrder(h, gap, ds, lo, hi, k, m);
  }

  lemma {:induction false} SamePrefix(h: Histogram, gap: nat, cs: seq<ConstellationPoint>, ds: seq<ConstellationPoint>,
                                     lo: int, hi: int, k: nat)
    requires AreClusters(h, gap, cs, lo, hi) && AreClusters(h, gap, ds, lo, hi) && 0 < h.total
    requires k <= |cs|
    ensures k <= |ds| && cs[..k] == ds[..k]
  {
    hide Kept, IsCluster;
    if k > 0 {
      var j := k - 1;
      SamePrefix(h, gap, cs, ds, lo, hi, j);
      NextStart(h, gap, cs, ds, lo, hi, j);
      NextStart(h, gap, ds, cs, lo, hi, j);
      SameEnd(h, gap, cs, ds, lo, hi, j, j);
      SameEnd(h, gap, ds, cs, lo, hi, j, j);
      SameCluster(h, gap, cs[j], ds[j]);
      assert cs[..k] == cs[..j] + [cs[j]] && ds[..k] == ds[..j] + [ds[j]];
    }
  }

  lemma SameCluster(h: Histogram, gap: nat, c: ConstellationPoint, d: ConstellationPoint)
    requires IsCluster(h, gap, c) && IsCluster(h, gap, d) && 0 < h.total
    requires c.posMin == d.posMin && c.posMax == d.posMax
    ensures c == d
  {
  }

  /** The declaration leaves no choice: a histogram has one list of clusters. */
  lemma ClustersAreUnique(h: Histogram, gap: nat, cs: seq<ConstellationPoint>, ds: seq<ConstellationPoint>,
                          lo: int, hi: int)
    requires AreClusters(h, gap, cs, lo, hi) && AreClusters(h, gap, ds, lo, hi) && 0 < h.total
    ensures cs == ds
  {
    hide AreClusters;
    SamePrefix(h, gap, cs, ds, lo, hi, |cs|);
    SamePrefix(h, gap, ds, cs, lo, hi, |ds|);
    assert cs[..|cs|] == cs && ds[..|ds|] == ds;
  }

  // ---------------------------------------------------------------- scanning

  /** The bins [lo, i) have been looked at: `cs` are the clusters that are over, and
      the bins [start, end) belong to the one that may go on, if there is one. */
  ghost predicate Scanned(h: Histogram, gap: nat, cs: seq<ConstellationPoint>, lo: int, i: int, start: int, end: int) {
    && (forall k :: 0 <= k < |cs| ==> IsCluster(h, gap, cs[k]) && lo <= cs[k].posMin && cs[k].posMax <= i)
    && Apart(cs, gap)
    && (start < 0 ==> forall k :: 0 <= k < |cs| ==> cs[k].posMax + gap + 1 <= i)
    && (start >= 0 ==> Open(h, gap, lo, i, start, end) && forall k :: 0 <= k < |cs| ==> cs[k].posMax + gap + 1 <= start)
    && forall j :: lo <= j < i && Kept(h, j) > 0 ==> Covered(cs, j) || (start >= 0 && start <= j < end)
  }

  ghost predicate Open(h: Histogram, gap: nat, lo: int, i: int, start: int, end: int) {
    && lo <= start < end <= i <= end + gap
    && Kept(h, start) > 0 && Kept(h, end - 1) > 0 && Dense(h, gap, start, end)
  }

  /** A kept bin prolongs the cluster. */
  lemma ScanKept(h: Histogram, gap: nat, cs: seq<ConstellationPoint>, lo: int, i: int, start: int, end: int)
    requires Scanned(h, gap, cs, lo, i, start, end) && 0 <= lo <= i && Kept(h, i) > 0
    ensures Scanned(h, gap, cs, lo, i + 1, if start < 0 then i else start, i + 1)
  {
    hide Kept, IsCluster;
    if start >= 0 {
      forall j | start <= j && j + gap < i + 1
        ensures SomeKept(h, j, gap)
      {
        if j + gap < end {
        } else if j <= end - 1 {
          assert j <= end - 1 <= j + gap && Kept(h, end - 1) > 0;
        } else {
          assert j <= i <= j + gap;
        }
      }
    } else {
      forall j | i <= j && j + gap < i + 1
        ensures SomeKept(h, j, gap)
      {
        assert j <= i <= j + gap;
      }
    }
  }

  /** An ignored bin that does not end the cluster. */
  lemma ScanIgnored(h: Histogram, gap: nat, cs: seq<ConstellationPoint>, lo: int, i: int, start: int, end: int)
    requires Scanned(h, gap, cs, lo, i, start, end) && lo <= i && Kept(h, i) == 0
    requires start >= 0 ==> i < end + gap
    ensures Scanned(h, gap, cs, lo, i + 1, start, end)
  {
    hide Kept, IsCluster;
  }

  /** The cluster is over: one more ignored bin would make its gap too wide. */
  lemma ScanEnd(h: Histogram, gap: nat, cs: seq<ConstellationPoint>, lo: int, i: int, start: int, end: int,
                c: ConstellationPoint)
    requires Scanned(h, gap, cs, lo, i, start, end) && lo <= i && start >= 0 && i == end + gap && Kept(h, i) == 0
    requires IsCluster(h, gap, c) && c.posMin == start && c.posMax == end
    ensures Scanned(h, gap, cs + [c], lo, i + 1, -1, -1)
  {
    hide Kept, IsCluster;
    forall j | lo <= j < i + 1 && Kept(h, j) > 0
      ensures Covered(cs + [c], j)
    {
      CoveredSnoc(cs, c, j);
    }
  }

  lemma CoveredSnoc(cs: seq<ConstellationPoint>, c: ConstellationPoint, j: int)
    ensures Covered(cs, j) || Inside(c, j) ==> Covered(cs + [c], j)
  {
    if Covered(cs, j) {
      var k :| 0 <= k < |cs| && Inside(cs[k], j);
      assert Inside((cs + [c])[k], j);
    } else if Inside(c, j) {
      assert Inside((cs + [c])[|cs|], j);
    }
  }

  /** After the last bin, the open cluster is a cluster too. */
  lemma ScanFinish(h: Histogram, gap: nat, cs: seq<ConstellationPoint>, lo: int, hi: int, start: int, end: int,
                   last: seq<ConstellationPoint>)
    requires Scanned(h, gap, cs, lo, hi, start, end)
    requires if start < 0 then last == []
             else |last| == 1 && IsCluster(h, gap, last[0]) && last[0].posMin == start && last[0].posMax == end
    ensures AreClusters(h, gap, cs + last, lo, hi)
  {
    hide Kept, IsCluster;
    if start < 0 {
      assert cs + last == cs;
    } else {
      assert last == [last[0]];
      forall j | lo <= j < hi && Kept(h, j) > 0
        ensures Covered(cs + last, j)
      {
        CoveredSnoc(cs, last[0], j);
      }
    }
  }

  /** The accumulators of the scan: the open cluster's weighted sum, its mass, and the
      ignored bins since its last kept one. */
  ghost predicate Tracked(h: Histogram, gap: nat, cs: seq<ConstellationPoint>, lo: int, i: int, start: int, end: int,
                          weighted: int, sum: int, zeros: int) {
    && Scanned(h, gap, cs, lo, i, start, end)
    && (start < 0 ==> sum == 0 && weighted == 0)
    && (start >= 0 ==>
          sum == KeptMass(h, start, end) && 0 < sum && weighted == Weighted(h, start, end) && zeros == i - end)
  }

  /** Ignored bins add nothing. */
  lemma {:induction false} QuietBins(h: Histogram, start: int, end: int, i: int)
    requires start <= end <= i && forall j :: end <= j < i ==> Kept(h, j) == 0
    ensures KeptMass(h, start, i) == KeptMass(h, start, end) && Weighted(h, start, i) == Weighted(h, start, end)
    decreases i - end
  {
    hide Kept;
    if end < i {
      QuietBins(h, start, end, i - 1);
      assert Kept(h, i - 1) == 0;
    }
  }

  lemma NothingSinceEnd(h: Histogram, gap: nat, cs: seq<ConstellationPoint>, lo: int, i: int, start: int, end: int,
                        j: int)
    requires Scanned(h, gap, cs, lo, i, start, end) && start >= 0 && end <= j < i
    ensures Kept(h, j) == 0
  {
    hide Kept, IsCluster, Dense;
    forall k | 0 <= k < |cs|
      ensures !Inside(cs[k], j)
    {
      assert cs[k].posMax + gap + 1 <= start;
    }
    assert !Covered(cs, j);
  }

  lemma TrackKept(h: Histogram, gap: nat, cs: seq<ConstellationPoint>, lo: int, i: int, start: int, end: int,
                  weighted: int, sum: int, zeros: int)
    requires Tracked(h, gap, cs, lo, i, start, end, weighted, sum, zeros) && 0 <= lo <= i && Kept(h, i) > 0
    ensures Tracked(h, gap, cs, lo, i + 1, if start < 0 then i else start, i + 1,
                    weighted + i * Kept(h, i), sum + Kept(h, i), 0)
  {
    hide Kept, Scanned;
    ScanKept(h, gap, cs, lo, i, start, end);
    if start < 0 {
      assert KeptMass(h, i, i) == 0 && Weighted(h, i, i) == 0;
    } else {
      assert start <= end <= i by {
        OpenBounds(h, gap, cs, lo, i, start, end);
      }
      forall j | end <= j < i
        ensures Kept(h, j) == 0
      {
        NothingSinceEnd(h, gap, cs, lo, i, start, end, j);
      }
      QuietBins(h, start, end, i);
    }
  }

  lemma OpenBounds(h: Histogram, gap: nat, cs: seq<ConstellationPoint>, lo: int, i: int, start: int, end: int)
    requires Scanned(h, gap, cs, lo, i, start, end) && start >= 0
    ensures lo <= start < end <= i <= end + gap && Open(h, gap, lo, i, start, end)
  {
    hide Kept, IsCluster;
  }

  lemma TrackIgnored(h: Histogram, gap: nat, cs: seq<ConstellationPoint>, lo: int, i: int, start: int, end: int,
                     weighted: int, sum: int, zeros: int)
    requires Tracked(h, gap, cs, lo, i, start, end, weighted, sum, zeros) && lo <= i && Kept(h, i) == 0
    requires !(0 < sum && zeros == gap)
    ensures Tracked(h, gap, cs, lo, i + 1, start, end, weighted, sum, zeros + 1)
  {
    hide Kept, Scanned;
    if start >= 0 {
      OpenBounds(h, gap, cs, lo, i, start, end);
    }
    ScanIgnored(h, gap, cs, lo, i, start, end);
  }

  lemma TrackEnd(h: Histogram, gap: nat, cs: seq<ConstellationPoint>, lo: int, i: int, start: int, end: int,
                 weighted: int, sum: int, zeros: int, c: ConstellationPoint)
    requires Tracked(h, gap, cs, lo, i, start, end, weighted, sum, zeros) && lo <= i && Kept(h, i) == 0
    requires 0 < sum && zeros == gap && IsCluster(h, gap, c) && c.posMin == start && c.posMax == end
    ensures Tracked(h, gap, cs + [c], lo, i + 1, -1, -1, 0, 0, zeros)
  {
    hide Kept, Scanned, IsCluster;
    ScanEnd(h, gap, cs, lo, i, start, end, c);
  }

  /** When there is mass, there is an open cluster, and it is one by itself. */
  lemma TrackedCluster(h: Histogram, gap: nat, cs: seq<ConstellationPoint>, lo: int, i: int, start: int, end: int,
                       weighted: int, sum: int, zeros: int)
    requires Tracked(h, gap, cs, lo, i, start, end, weighted, sum, zeros)
    ensures 0 < sum <==> start >= 0
    ensures 0 < sum && 0 < h.total ==>
              var c := ConstellationPoint(weighted as real / sum as real, start, end, sum as real / h.total as real);
              IsCluster(h, gap, c)
  {
    hide Kept, Scanned;
    if start >= 0 {
      OpenBounds(h, gap, cs, lo, i, start, end);
    }
  }

  lemma NothingTracked(h: Histogram, gap: nat, lo: int)
    ensures Tracked(h, gap, [], lo, lo, -1, -1, 0, 0, 0)
  {
  }

  lemma TrackFinish(h: Histogram, gap: nat, cs: seq<ConstellationPoint>, lo: int, hi: int, start: int, end: int,
                    weighted: int, sum: int, zeros: int, last: seq<ConstellationPoint>)
    requires Tracked(h, gap, cs, lo, hi, start, end, weighted, sum, zeros)
    requires if start < 0 then last == []
             else |last| == 1 && IsCluster(h, gap, last[0]) && last[0].posMin == start && last[0].posMax == end
    ensures AreClusters(h, gap, cs + last, lo, hi)
  {
    hide Kept, IsCluster, AreClusters, Scanned;
    ScanFinish(h, gap, cs, lo, hi, start, end, last);
  }

  // ------------------------------------------------------------ conservation

  lemma FrontClusters(h: Histogram, gap: nat, cs: seq<ConstellationPoint>, lo: int, hi: int)
    requires AreClusters(h, gap, cs, lo, hi) && cs != []
    ensures var n := |cs| - 1; AreClusters(h, gap, cs[..n], lo, cs[n].posMin) && lo <= cs[n].posMin < cs[n].posMax <= hi
    ensures var n := |cs| - 1; forall i :: cs[n].posMax <= i < hi ==> Kept(h, i) == 0
  {
    hide Kept, IsCluster;
    var n := |cs| - 1;
    var front := cs[..n];
    LastIsKept(h, gap, cs[n]);
    forall k | 0 <= k < n
      ensures IsCluster(h, gap, front[k]) && lo <= front[k].posMin && front[k].posMax <= cs[n].posMin
    {
      assert front[k] == cs[k];
    }
    forall i | lo <= i < cs[n].posMin && Kept(h, i) > 0
      ensures Covered(front, i)
    {
      assert Covered(cs, i);
      var k :| 0 <= k < |cs| && Inside(cs[k], i);
      assert Inside(front[k], i);
    }
    forall i | cs[n].posMax <= i < hi
      ensures Kept(h, i) == 0
    {
      NothingBetween(h, gap, cs, lo, hi, n, i);
    }
  }

  /** The clusters carry all the kept mass. */
  lemma {:induction false} ClustersCarryTheKeptMass(
      h: Histogram, gap: nat, cs: seq<ConstellationPoint>, lo: int, hi: int)
    requires AreClusters(h, gap, cs, lo, hi) && lo <= hi
    ensures TotalMass(h, cs) == KeptMass(h, lo, hi)
    decreases |cs|
  {
    hide Kept, IsCluster;
    if cs == [] {
      assert forall i :: lo <= i < hi ==> Kept(h, i) == 0 by {
        forall i | lo <= i < hi ensures Kept(h, i) == 0 {
          assert !Covered(cs, i);
        }
      }
      QuietBins(h, lo, lo, hi);
    } else {
      var last := cs[|cs| - 1];
      FrontClusters(h, gap, cs, lo, hi);
      ClustersCarryTheKeptMass(h, gap, cs[..|cs| - 1], lo, last.posMin);
      KeptMassSplit(h, lo, last.posMin, last.posMax);
      QuietBins(h, lo, last.posMax, hi);
    }
  }

  lemma {:induction false} MassSplit(h: Histogram, lo: int, mid: int, hi: int)
    requires lo <= mid <= hi
    ensures Mass(h, lo, hi) == Mass(h, lo, mid) + Mass(h, mid, hi)
    decreases hi - mid
  {
    if mid < hi {
      MassSplit(h, lo, mid, hi - 1);
    }
  }

  lemma {:induction false} EmptyBins(h: Histogram, lo: int, hi: int)
    requires forall i :: lo <= i < hi ==> BinAt(h, i) == 0
    ensures Mass(h, lo, hi) == 0
    decreases hi - lo
  {
    if lo < hi {
      EmptyBins(h, lo, hi - 1);
    }
  }
}
