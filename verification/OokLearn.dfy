// What the on-off keying demodulator learns from a burst: the two lengths of its pulses
// and of its gaps, and whether it trusts them.

module OokLearning {
  import opened Slots
  import opened Reception
  import opened Clusters
  import opened Constellations
  import opened OokDemod

  // ---------------------------------------------------------- the histogram of lengths

  function Count(data: seq<nat>, i: int): nat
    decreases |data|
  {
    if data == [] then 0 else Count(data[..|data| - 1], i) + if data[|data| - 1] == i then 1 else 0
  }

  lemma CountAppend(data: seq<nat>, x: nat, i: int)
    ensures Count(data + [x], i) == Count(data, i) + if x == i then 1 else 0
  {
    assert (data + [x])[..|data|] == data;
  }

  function MinOf(data: seq<nat>): nat
    requires data != []
    decreases |data|
  {
    if |data| == 1 then data[0] else Min(MinOf(data[..|data| - 1]), data[|data| - 1])
  }

  function MaxOf(data: seq<nat>): nat
    requires data != []
    decreases |data|
  {
    if |data| == 1 then data[0] else Max(MaxOf(data[..|data| - 1]), data[|data| - 1])
  }

  const SAMPLE_DIST_MAX: real := 0.01
  const IGNORE_UNDER: real := 0.01

  /** A histogram of some lengths, however long its table is. */
  ghost predicate Counts(h: Histogram, data: seq<nat>) {
    h.total == |data| && h.ignoreUnder == IGNORE_UNDER && forall i :: BinAt(h, i) == Count(data, i)
  }

  lemma {:induction false} BoundsOf(data: seq<nat>)
    requires data != []
    ensures 0 <= MinOf(data) <= MaxOf(data)
    ensures forall k :: 0 <= k < |data| ==> MinOf(data) <= data[k] <= MaxOf(data)
    ensures exists k :: 0 <= k < |data| && data[k] == MinOf(data)
    ensures exists k :: 0 <= k < |data| && data[k] == MaxOf(data)
    decreases |data|
  {
    var n := |data| - 1;
    if n == 0 {
      assert data[0] == MinOf(data) == MaxOf(data);
    } else {
      var front := data[..n];
      BoundsOf(front);
      var j :| 0 <= j < |front| && front[j] == MinOf(front);
      var k :| 0 <= k < |front| && front[k] == MaxOf(front);
      assert data[j] == front[j] && data[k] == front[k];
      assert MinOf(data) == data[j] || MinOf(data) == data[n];
      assert MaxOf(data) == data[k] || MaxOf(data) == data[n];
    }
  }

  /** How many ignored lengths in a row a cluster tolerates. */
  function GapOf(data: seq<nat>): nat
    requires data != []
  {
    BoundsOf(data);
    Gap(SAMPLE_DIST_MAX, MinOf(data), MaxOf(data) + 1)
  }

  /** The clusters of some lengths. */
  ghost predicate ClustersOf(data: seq<nat>, h: Histogram, cs: seq<ConstellationPoint>) {
    Counts(h, data) && if data == [] then cs == [] else AreClusters(h, GapOf(data), cs, MinOf(data), MaxOf(data) + 1)
  }

  /** The clusters of some lengths, with the most probable first. */
  ghost predicate Ranked(data: seq<nat>, prio: seq<ConstellationPoint>) {
    && Descending(prio)
    && exists h, cs :: ClustersOf(data, h, cs) && multiset(prio) == multiset(cs)
  }

  // ------------------------------------------------------------- what is made of it

  /** The bits per symbol: one when the two most probable lengths are probable enough and
      far enough from each other. */
  function Bps(c: (ConstellationPoint, ConstellationPoint)): nat {
    var min, max := MinOfTwo(c.0.pos, c.1.pos), MaxOfTwo(c.0.pos, c.1.pos);
    var share := c.0.proba + c.1.proba;
    if share >= 0.7 && c.1.proba >= 0.1 * share && max >= min * 1.5 then 1
    else if share >= 0.85 && max >= min * 1.8 && max <= min * 2.2 then 1
    else 0
  }

  function TopTwo(prio: seq<ConstellationPoint>): (ConstellationPoint, ConstellationPoint) {
    (PointAt(prio, 0), PointAt(prio, 1))
  }

  /** What a channel knows after some lengths. */
  ghost predicate Learned(data: seq<nat>, ch: Channel) {
    ch.data == data && exists prio :: Ranked(data, prio) && ch.points == TopTwo(prio) && ch.bps == Bps(ch.points)
  }

  /** What the demodulator knows after a burst. */
  ghost predicate LearnedFrom(subs: seq<SubBurst>, on: Channel, off: Channel) {
    InOrder(subs) && Learned(Lengths(subs), on) && Learned(Gaps(subs), off)
  }

  /** How sure the demodulator is of itself: half of its trust in the lengths, and half for
      more than ten pulses. */
  function Score(pulses: nat, on: Channel, off: Channel): nat {
    (if on.bps == 1 || off.bps == 1 then 127 else 0) + (if pulses > 10 then 128 else 0)
  }

  /** It is taken before the phase-shift demodulator, which is always sure of itself. */
  predicate Chosen(pulses: nat, on: Channel, off: Channel) {
    Score(pulses, on, off) == 255
  }

  lemma ChosenIff(pulses: nat, on: Channel, off: Channel)
    ensures Chosen(pulses, on, off) <==> pulses > 10 && (on.bps == 1 || off.bps == 1)
  {
  }

  /** The burst goes to this demodulator, which returns these messages. */
  ghost predicate Returned(subs: seq<SubBurst>, on: Channel, off: Channel, msgs: seq<seq<bool>>) {
    && 0 < |on.data| <= |off.data| + 1
    && Chosen(|subs|, on, off) && Demodulated(on, off) == msgs
  }

  // --------------------------------------------------------------- few lengths occur

  /** A cluster of one length. */
  function Single(h: Histogram, p: int): ConstellationPoint {
    ConstellationPoint(p as real, p, p + 1,
                       if h.total == 0 then 0.0 else Kept(h, p) as real / h.total as real)
  }

  lemma QuotientOfProduct(p: int, m: nat)
    requires 0 < m
    ensures (p * m) as real / m as real == p as real
  {
    assert (p * m) as real == p as real * m as real;
  }

  lemma MassOfOne(h: Histogram, p: int)
    ensures KeptMass(h, p, p + 1) == Kept(h, p) && Weighted(h, p, p + 1) == p * Kept(h, p)
  {
    hide Kept;
    assert KeptMass(h, p, p) == 0 && Weighted(h, p, p) == 0;
  }

  lemma SingleIsExact(h: Histogram, gap: nat, c: ConstellationPoint, p: int)
    requires IsCluster(h, gap, c) && c.posMin == p && c.posMax == p + 1 && 0 < h.total
    ensures c == Single(h, p)
  {
    hide Kept, KeptMass, Weighted, Dense;
    MassOfOne(h, p);
    QuotientOfProduct(p, Kept(h, p));
  }

  /** What is kept of lengths of which `a` and `b` are the only ones. */
  ghost predicate KeptOnly(h: Histogram, a: int, b: int, g: int) {
    forall i :: Kept(h, i) > 0 ==> i == a || i == b || i == g
  }

  /** A cluster without a second kept length close enough is a single one. */
  lemma LonelyCluster(h: Histogram, gap: nat, c: ConstellationPoint)
    requires IsCluster(h, gap, c)
    requires forall i :: c.posMin < i <= c.posMin + gap + 1 ==> Kept(h, i) == 0
    ensures c.posMax == c.posMin + 1
  {
    hide Kept, KeptMass, Weighted;
    assert !SomeKept(h, c.posMin + 1, gap);
  }

  /** Where a cluster starts and ends. */
  lemma ClusterEnds(h: Histogram, gap: nat, cs: seq<ConstellationPoint>, lo: int, hi: int, k: nat)
    requires AreClusters(h, gap, cs, lo, hi) && k < |cs|
    ensures IsCluster(h, gap, cs[k]) && cs[k].posMin < cs[k].posMax
    ensures Kept(h, cs[k].posMin) > 0 && Kept(h, cs[k].posMax - 1) > 0
    ensures k + 1 < |cs| ==> cs[k].posMax + gap + 1 <= cs[k + 1].posMin
  {
  }

  /** Two clusters, when only two lengths are kept, are those lengths. */
  lemma TwoClustersAreSingle(h: Histogram, gap: nat, cs: seq<ConstellationPoint>, lo: int, hi: int, a: int, b: int)
    requires AreClusters(h, gap, cs, lo, hi) && 0 < h.total && a < b && KeptOnly(h, a, b, b) && |cs| >= 2
    ensures Kept(h, a) > 0 && Kept(h, b) > 0 && cs == [Single(h, a), Single(h, b)]
  {
    hide Kept, IsCluster, Single, AreClusters;
    ClusterEnds(h, gap, cs, lo, hi, 0);
    ClusterEnds(h, gap, cs, lo, hi, 1);
    if |cs| > 2 {
      ClusterEnds(h, gap, cs, lo, hi, 2);
      assert false;
    }
    SingleIsExact(h, gap, cs[0], a);
    SingleIsExact(h, gap, cs[1], b);
  }

  lemma CoveredKept(h: Histogram, gap: nat, cs: seq<ConstellationPoint>, lo: int, hi: int, p: int) returns (k: nat)
    requires AreClusters(h, gap, cs, lo, hi) && lo <= p < hi && Kept(h, p) > 0
    ensures k < |cs| && Inside(cs[k], p)
  {
    hide Kept, IsCluster;
    assert Covered(cs, p);
    k :| 0 <= k < |cs| && Inside(cs[k], p);
  }

  /** Two kept lengths that are far enough apart are in two clusters. */
  lemma TwoClusters(h: Histogram, gap: nat, cs: seq<ConstellationPoint>, lo: int, hi: int, a: int, b: int)
    requires AreClusters(h, gap, cs, lo, hi) && 0 < h.total && a + gap + 2 <= b && KeptOnly(h, a, b, b)
    requires lo <= a && b < hi && Kept(h, a) > 0 && Kept(h, b) > 0
    ensures |cs| >= 2
  {
    hide Kept, IsCluster, Single, AreClusters;
    var k := CoveredKept(h, gap, cs, lo, hi, a);
    var l := CoveredKept(h, gap, cs, lo, hi, b);
    ClusterEnds(h, gap, cs, lo, hi, k);
    LonelyCluster(h, gap, cs[k]);
  }

  /** Far enough from each other not to share a cluster. */
  predicate Apart3(gap: nat, a: int, b: int, g: int) {
    a + gap + 2 <= b && (a + gap + 2 <= g || g + gap + 2 <= a) && (b + gap + 2 <= g || g + gap + 2 <= b)
  }

  /** Three lengths, each far enough from the others, are clusters by themselves. */
  lemma SingleCluster(h: Histogram, gap: nat, c: ConstellationPoint, a: int, b: int, g: int)
    requires IsCluster(h, gap, c) && 0 < h.total && KeptOnly(h, a, b, g) && Apart3(gap, a, b, g)
    ensures c == Single(h, c.posMin) && c.posMax == c.posMin + 1 && c.posMin in [a, b, g]
  {
    hide Kept, IsCluster, Single;
    LastIsKept(h, gap, c);
    LonelyCluster(h, gap, c);
    SingleIsExact(h, gap, c, c.posMin);
  }

  lemma SingleClusters(h: Histogram, gap: nat, cs: seq<ConstellationPoint>, lo: int, hi: int, a: int, b: int, g: int)
    requires AreClusters(h, gap, cs, lo, hi) && 0 < h.total && KeptOnly(h, a, b, g) && Apart3(gap, a, b, g)
    ensures forall k :: 0 <= k < |cs| ==> cs[k] in [Single(h, a), Single(h, b), Single(h, g)]
    ensures forall k, l :: 0 <= k < l < |cs| ==> cs[k] != cs[l]
    ensures lo <= a < hi && Kept(h, a) > 0 ==> Single(h, a) in cs
    ensures lo <= b < hi && Kept(h, b) > 0 ==> Single(h, b) in cs
  {
    hide Kept, IsCluster, Single, KeptOnly;
    forall k | 0 <= k < |cs|
      ensures cs[k] == Single(h, cs[k].posMin) && cs[k].posMax == cs[k].posMin + 1 && cs[k].posMin in [a, b, g]
    {
      SingleCluster(h, gap, cs[k], a, b, g);
    }
    if lo <= a < hi && Kept(h, a) > 0 {
      var k := CoveredKept(h, gap, cs, lo, hi, a);
      assert cs[k].posMin == a;
    }
    if lo <= b < hi && Kept(h, b) > 0 {
      var k := CoveredKept(h, gap, cs, lo, hi, b);
      assert cs[k].posMin == b;
    }
  }

  // ------------------------------------------------------------ how often, how far

  lemma {:induction false} CountPositive(data: seq<nat>, i: int)
    ensures Count(data, i) > 0 <==> exists k :: 0 <= k < |data| && data[k] == i
    ensures Count(data, i) <= |data|
    decreases |data|
  {
    if data != [] {
      var front := data[..|data| - 1];
      CountPositive(front, i);
      if k :| 0 <= k < |front| && front[k] == i {
        assert data[k] == i;
      }
      if k :| 0 <= k < |data| && data[k] == i && data[|data| - 1] != i {
        assert front[k] == i;
      }
    }
  }

  lemma {:induction false} CountBoth(data: seq<nat>, a: nat, b: nat)
    requires a != b && forall k :: 0 <= k < |data| ==> data[k] == a || data[k] == b
    ensures Count(data, a) + Count(data, b) == |data|
    decreases |data|
  {
    if data != [] {
      CountBoth(data[..|data| - 1], a, b);
    }
  }

  lemma KeptIff(h: Histogram, data: seq<nat>, i: int)
    requires Counts(h, data) && data != []
    ensures Kept(h, i) > 0 <==> Count(data, i) > 0 && 100 * Count(data, i) >= |data|
    ensures Kept(h, i) > 0 ==> Kept(h, i) == Count(data, i)
  {
    assert BinAt(h, i) == Count(data, i);
    ShareAtLeast(Count(data, i), |data|, 1, 100);
  }

  /** A share of `num / den`, in whole numbers. */
  lemma ShareAtLeast(x: nat, total: nat, num: nat, den: nat)
    requires 0 < total && 0 < den
    ensures x as real / total as real >= num as real / den as real <==> den * x >= num * total
  {
    var r := x as real / total as real;
    assert r * total as real == x as real;
    var q := num as real / den as real;
    assert q * den as real == num as real;
    Products(x, total, num, den, r, q);
  }

  lemma Products(x: nat, total: nat, num: nat, den: nat, r: real, q: real)
    requires 0 < total && 0 < den && r * total as real == x as real && q * den as real == num as real
    ensures r >= q <==> den * x >= num * total
  {
    var n, d := total as real, den as real;
    assert (den * x) as real == d * (r * n) && (num * total) as real == (q * d) * n;
    assert d * (r * n) - (q * d) * n == (r - q) * (d * n);
    assert 0.0 < d * n;
    if r >= q {
      assert (r - q) * (d * n) >= 0.0;
    } else {
      assert (q - r) * (d * n) > 0.0;
    }
  }

  /** The tests on the two most probable lengths, in whole numbers: their shares, and how
      far they are from each other. */
  predicate Trusted(a: nat, b: nat, as_: nat, bs: nat, total: nat) {
    || (10 * (as_ + bs) >= 7 * total && 10 * Min(as_, bs) >= as_ + bs && 3 * a <= 2 * b)
    || (20 * (as_ + bs) >= 17 * total && 9 * a <= 5 * b <= 11 * a)
  }

  lemma ShareOfShare(x: nat, y: nat, total: nat)
    requires 0 < total
    ensures x as real / total as real >= 0.1 * ((x + y) as real / total as real) <==> 10 * x >= x + y
  {
    var n := total as real;
    var p, q := x as real / n, (x + y) as real / n;
    assert p * n == x as real && q * n == (x + y) as real;
    assert (10.0 * p - q) * n == 10.0 * x as real - (x + y) as real;
    if 10.0 * p >= q {
      assert (10.0 * p - q) * n >= 0.0;
    } else {
      assert (q - 10.0 * p) * n > 0.0;
    }
  }

  lemma SumOfShares(x: nat, y: nat, total: nat)
    requires 0 < total
    ensures x as real / total as real + y as real / total as real == (x + y) as real / total as real
  {
  }

  lemma Smaller(x: nat, y: nat, total: nat)
    requires 0 < total
    ensures x as real / total as real >= y as real / total as real <==> x >= y
  {
    var n := total as real;
    assert (x as real / n - y as real / n) * n == x as real - y as real;
  }

  lemma Ratios(a: nat, b: nat)
    ensures b as real >= a as real * 1.5 <==> 3 * a <= 2 * b
    ensures b as real >= a as real * 1.8 <==> 9 * a <= 5 * b
    ensures b as real <= a as real * 2.2 <==> 5 * b <= 11 * a
  {
  }

  /** The bits per symbol of two lengths, the more frequent one first. */
  lemma BpsOfLengths(c: (ConstellationPoint, ConstellationPoint), a: nat, b: nat, x: nat, y: nat, total: nat)
    requires a < b && 0 < total && y <= x
    requires (c.0.pos == a as real && c.1.pos == b as real) || (c.0.pos == b as real && c.1.pos == a as real)
    requires c.0.proba == x as real / total as real && c.1.proba == y as real / total as real
    ensures Bps(c) == if Trusted(a, b, x, y, total) then 1 else 0
  {
    SumOfShares(x, y, total);
    ShareAtLeast(x + y, total, 7, 10);
    ShareAtLeast(x + y, total, 17, 20);
    ShareOfShare(y, x, total);
    Ratios(a, b);
  }

  // ------------------------------------------------------------- one or two lengths

  /** Fewer than two clusters are not trusted. */
  lemma FewClustersAreNotTrusted(prio: seq<ConstellationPoint>)
    requires |prio| <= 1 && (prio != [] ==> prio[0].pos > 0.0 && prio[0].proba > 0.0)
    ensures Bps(TopTwo(prio)) == 0
  {
  }

  lemma PositiveQuotient(m: nat, n: nat)
    requires 0 < m && 0 < n
    ensures m as real / n as real > 0.0
  {
  }

  lemma ClusterIsPositive(h: Histogram, gap: nat, cs: seq<ConstellationPoint>, lo: int, hi: int, k: nat)
    requires AreClusters(h, gap, cs, lo, hi) && 0 < lo && 0 < h.total && k < |cs|
    ensures cs[k].pos > 0.0 && cs[k].proba > 0.0
  {
    hide Kept, KeptMass, Weighted, Dense, Covered, Apart;
    CentreIsInside(h, gap, cs[k]);
    PositiveQuotient(KeptMass(h, cs[k].posMin, cs[k].posMax), h.total);
  }

  lemma ArrangedTwo<T>(prio: seq<T>, x: T, y: T)
    requires multiset(prio) == multiset([x, y])
    ensures prio == [x, y] || prio == [y, x]
  {
    assert |prio| == |multiset(prio)| == 2;
    assert prio == [prio[0], prio[1]];
    assert prio[0] in multiset([x, y]) && prio[1] in multiset([x, y]);
    assert multiset([x, y])[x] == if x == y then 2 else 1;
  }

  lemma ArrangedFew<T>(prio: seq<T>, cs: seq<T>)
    requires multiset(prio) == multiset(cs)
    ensures |prio| == |cs|
    ensures |cs| == 1 ==> prio == cs
  {
    assert |prio| == |multiset(prio)| && |cs| == |multiset(cs)|;
    if |cs| == 1 {
      assert prio[0] in multiset(cs);
    }
  }

  /** When two lengths are learned: both occur, the shorter one is not too rare, and they
      are far enough from each other. */
  predicate Taught(a: nat, b: nat, as_: nat, bs: nat) {
    && 0 < as_ && 0 < bs
    && ((10 * Min(as_, bs) >= as_ + bs && 3 * a <= 2 * b) ||
        (100 * Min(as_, bs) >= as_ + bs && 9 * a <= 5 * b <= 11 * a))
  }

  /** Lengths that far from each other are never in one cluster. */
  lemma RatioSeparates(a: nat, b: nat)
    requires 19 <= a && (3 * a <= 2 * b || 9 * a <= 5 * b)
    ensures a + Gap(SAMPLE_DIST_MAX, a, b + 1) + 2 <= b
  {
    assert Scaled(SAMPLE_DIST_MAX, a) as real <= SAMPLE_DIST_MAX * a as real;
    assert Scaled(SAMPLE_DIST_MAX, b + 1 - a) as real <= SAMPLE_DIST_MAX * (b + 1 - a) as real;
  }

  ghost predicate TwoValued(data: seq<nat>, a: nat, b: nat) {
    forall k :: 0 <= k < |data| ==> data[k] == a || data[k] == b
  }

  lemma OnlyTwoKept(h: Histogram, data: seq<nat>, a: nat, b: nat)
    requires Counts(h, data) && data != [] && TwoValued(data, a, b)
    ensures KeptOnly(h, a, b, b)
  {
    hide Kept, Count;
    forall i | Kept(h, i) > 0
      ensures i == a || i == b
    {
      KeptIff(h, data, i);
      CountPositive(data, i);
    }
  }

  /** With both lengths occurring, they are the bounds. */
  lemma BoundsOfTwo(data: seq<nat>, a: nat, b: nat)
    requires TwoValued(data, a, b) && a < b && Count(data, a) > 0 && Count(data, b) > 0
    ensures data != [] && MinOf(data) == a && MaxOf(data) == b
  {
    hide Count, MinOf, MaxOf;
    CountPositive(data, a);
    CountPositive(data, b);
    BoundsOf(data);
  }

  /** Two clusters of the two lengths, in the order of their shares. */
  lemma TwoAreTrusted(h: Histogram, data: seq<nat>, prio: seq<ConstellationPoint>, a: nat, b: nat)
    requires Counts(h, data) && data != [] && TwoValued(data, a, b) && a < b && Descending(prio)
    requires Kept(h, a) > 0 && Kept(h, b) > 0 && multiset(prio) == multiset([Single(h, a), Single(h, b)])
    ensures Bps(TopTwo(prio)) == if Taught(a, b, Count(data, a), Count(data, b)) then 1 else 0
    ensures MinOfTwo(TopTwo(prio).0.pos, TopTwo(prio).1.pos) == a as real
    ensures MaxOfTwo(TopTwo(prio).0.pos, TopTwo(prio).1.pos) == b as real
  {
    hide Count, Kept, Bps, Single;
    CountBoth(data, a, b);
    KeptIff(h, data, a);
    KeptIff(h, data, b);
    ArrangedTwo(prio, Single(h, a), Single(h, b));
    TopAreTrusted(data, h, prio, a, b);
  }

  lemma LearnedGives(data: seq<nat>, ch: Channel)
    returns (h: Histogram, cs: seq<ConstellationPoint>, prio: seq<ConstellationPoint>)
    requires Learned(data, ch)
    ensures ch.data == data && ch.points == TopTwo(prio) && ch.bps == Bps(TopTwo(prio))
    ensures Descending(prio) && ClustersOf(data, h, cs) && multiset(prio) == multiset(cs)
  {
    hide ClustersOf, Descending, Bps;
    prio :| Ranked(data, prio) && ch.points == TopTwo(prio) && ch.bps == Bps(ch.points);
    h, cs :| ClustersOf(data, h, cs) && multiset(prio) == multiset(cs);
  }

  lemma OneClusterIsNotTrusted(
      data: seq<nat>, h: Histogram, cs: seq<ConstellationPoint>, prio: seq<ConstellationPoint>)
    requires ClustersOf(data, h, cs) && multiset(prio) == multiset(cs) && |cs| <= 1
    requires forall k :: 0 <= k < |data| ==> 0 < data[k]
    ensures Bps(TopTwo(prio)) == 0
  {
    hide AreClusters, Bps, Count;
    ArrangedFew(prio, cs);
    if cs != [] {
      BoundsOf(data);
      ClusterIsPositive(h, GapOf(data), cs, MinOf(data), MaxOf(data) + 1, 0);
    }
    FewClustersAreNotTrusted(prio);
  }

  /** What is learned from lengths of which only two occur: exactly when both are learned,
      and then they are told apart. */
  lemma TaughtIff(data: seq<nat>, ch: Channel, a: nat, b: nat)
    requires Learned(data, ch) && TwoValued(data, a, b) && 19 <= a < b
    ensures ch.bps == if Taught(a, b, Count(data, a), Count(data, b)) then 1 else 0
    ensures ch.bps == 1 ==> MinPos(ch) == a as real && MaxPos(ch) == b as real
  {
    hide AreClusters, Bps, Count, Kept, Counts, Single, Descending, Gap, MinOf, MaxOf, Learned;
    var h, cs, prio := LearnedGives(data, ch);
    if |cs| >= 2 {
      OnlyTwoKept(h, data, a, b);
      CountsTotal(h, data);
      TwoClustersAreSingle(h, GapOf(data), cs, MinOf(data), MaxOf(data) + 1, a, b);
      TwoAreTrusted(h, data, prio, a, b);
    } else {
      OneClusterIsNotTrusted(data, h, cs, prio);
      if Taught(a, b, Count(data, a), Count(data, b)) {
        TaughtAreTwo(data, h, cs, a, b);
      }
    }
  }

  lemma CountsTotal(h: Histogram, data: seq<nat>)
    requires Counts(h, data)
    ensures h.total == |data|
  {
  }

  lemma TaughtAreTwo(data: seq<nat>, h: Histogram, cs: seq<ConstellationPoint>, a: nat, b: nat)
    requires ClustersOf(data, h, cs) && TwoValued(data, a, b) && 19 <= a < b
    requires Taught(a, b, Count(data, a), Count(data, b))
    ensures |cs| >= 2
  {
    hide AreClusters, Count, Kept, Counts, Gap;
    BoundsOfTwo(data, a, b);
    OnlyTwoKept(h, data, a, b);
    CountsTotal(h, data);
    CountBoth(data, a, b);
    KeptIff(h, data, a);
    KeptIff(h, data, b);
    RatioSeparates(a, b);
    TwoClusters(h, GapOf(data), cs, a, b + 1, a, b);
  }

  /** One length alone is never learned. */
  lemma OneLengthIsNotTaught(data: seq<nat>, ch: Channel, a: nat)
    requires Learned(data, ch) && TwoValued(data, a, a) && 19 <= a
    ensures ch.bps == 0
  {
    hide Learned, Count;
    TaughtIff(data, ch, a, a + 1);
    CountPositive(data, a + 1);
  }

  // ---------------------------------------------------------------- a third length

  /** The two most probable of at most three points, when the third is less probable. */
  lemma TopOfThree(prio: seq<ConstellationPoint>, cs: seq<ConstellationPoint>,
                   x: ConstellationPoint, y: ConstellationPoint, z: ConstellationPoint)
    requires multiset(prio) == multiset(cs) && Descending(prio)
    requires forall k :: 0 <= k < |cs| ==> cs[k] in [x, y, z]
    requires forall k, l :: 0 <= k < l < |cs| ==> cs[k] != cs[l]
    requires x in cs && y in cs && x != y && z.proba < x.proba && z.proba < y.proba
    ensures |prio| >= 2 && (TopTwo(prio) == (x, y) || TopTwo(prio) == (y, x))
  {
    assert x in multiset(prio) && y in multiset(prio);
    var i :| 0 <= i < |prio| && prio[i] == x;
    var j :| 0 <= j < |prio| && prio[j] == y;
    forall k | 0 <= k < |prio|
      ensures prio[k] in [x, y, z]
    {
      assert prio[k] in multiset(cs);
    }
    OnceIn(cs, x);
    OnceIn(cs, y);
    OnceIn(prio, x);
    OnceIn(prio, y);
    assert prio[0] != z && prio[1] != z;
    TwiceIn(prio);
  }

  /** How often a point occurs in points that are all different. */
  lemma {:induction false} OnceIn(cs: seq<ConstellationPoint>, x: ConstellationPoint)
    ensures (forall k, l :: 0 <= k < l < |cs| ==> cs[k] != cs[l]) ==> multiset(cs)[x] <= 1
    decreases |cs|
  {
    if cs != [] {
      assert cs == [cs[0]] + cs[1..];
      OnceIn(cs[1..], x);
      if (forall k, l :: 0 <= k < l < |cs| ==> cs[k] != cs[l]) && cs[0] == x {
        assert x !in cs[1..];
      }
    }
  }

  lemma TwiceIn(prio: seq<ConstellationPoint>)
    requires |prio| >= 2
    ensures prio[0] == prio[1] ==> multiset(prio)[prio[0]] >= 2
  {
    assert prio == [prio[0]] + ([prio[1]] + prio[2..]);
  }

  ghost predicate ThreeValued(data: seq<nat>, a: nat, b: nat, g: nat) {
    forall k :: 0 <= k < |data| ==> data[k] == a || data[k] == b || data[k] == g
  }

  /** A third length that is rarer than the other two, and far enough from them, does not
      keep them from being learned; it only makes their shares smaller. */
  lemma TaughtAmongThree(data: seq<nat>, ch: Channel, a: nat, b: nat, g: nat)
    requires Learned(data, ch) && data != [] && ThreeValued(data, a, b, g) && a < b
    requires Apart3(GapOf(data), a, b, g) && Count(data, g) < Min(Count(data, a), Count(data, b))
    requires 100 * Min(Count(data, a), Count(data, b)) >= |data|
    ensures ch.bps == if Trusted(a, b, Count(data, a), Count(data, b), |data|) then 1 else 0
    ensures MinPos(ch) == a as real && MaxPos(ch) == b as real
  {
    hide AreClusters, Bps, Count, Kept, Single, Descending, MinOf, MaxOf, Learned, GapOf, Trusted;
    var h, cs, prio := LearnedGives(data, ch);
    OnlyThreeKept(h, data, a, b, g);
    CountsTotal(h, data);
    KeptIff(h, data, a);
    KeptIff(h, data, b);
    KeptIff(h, data, g);
    CountPositive(data, a);
    CountPositive(data, b);
    BoundsOf(data);
    SingleClusters(h, GapOf(data), cs, MinOf(data), MaxOf(data) + 1, a, b, g);
    SingleFields(h, a);
    SingleFields(h, b);
    SingleFields(h, g);
    Smaller(Kept(h, g), Kept(h, a), |data|);
    Smaller(Kept(h, g), Kept(h, b), |data|);
    TopOfThree(prio, cs, Single(h, a), Single(h, b), Single(h, g));
    TopAreTrusted(data, h, prio, a, b);
  }

  lemma SingleFields(h: Histogram, p: int)
    requires 0 < h.total
    ensures Single(h, p).pos == p as real && Single(h, p).proba == Kept(h, p) as real / h.total as real
  {
  }

  lemma OnlyThreeKept(h: Histogram, data: seq<nat>, a: nat, b: nat, g: nat)
    requires Counts(h, data) && data != [] && ThreeValued(data, a, b, g)
    ensures KeptOnly(h, a, b, g)
  {
    hide Kept, Count;
    forall i | Kept(h, i) > 0
      ensures i == a || i == b || i == g
    {
      KeptIff(h, data, i);
      CountPositive(data, i);
    }
  }

  /** When the two lengths are the most probable ones. */
  lemma TopAreTrusted(data: seq<nat>, h: Histogram, prio: seq<ConstellationPoint>, a: nat, b: nat)
    requires h.total == |data| && data != [] && a < b && Descending(prio) && |prio| >= 2
    requires Kept(h, a) == Count(data, a) && Kept(h, b) == Count(data, b)
    requires TopTwo(prio) == (Single(h, a), Single(h, b)) || TopTwo(prio) == (Single(h, b), Single(h, a))
    ensures Bps(TopTwo(prio)) == if Trusted(a, b, Count(data, a), Count(data, b), |data|) then 1 else 0
    ensures MinOfTwo(TopTwo(prio).0.pos, TopTwo(prio).1.pos) == a as real
    ensures MaxOfTwo(TopTwo(prio).0.pos, TopTwo(prio).1.pos) == b as real
  {
    hide Count, Kept, Bps;
    var x, y, total := Count(data, a), Count(data, b), |data|;
    SingleFields(h, a);
    SingleFields(h, b);
    Smaller(x, y, total);
    Smaller(y, x, total);
    assert prio[1].proba <= prio[0].proba;
    if TopTwo(prio) == (Single(h, a), Single(h, b)) {
      BpsOfLengths(TopTwo(prio), a, b, x, y, total);
    } else {
      BpsOfLengths(TopTwo(prio), a, b, y, x, total);
    }
  }
}
