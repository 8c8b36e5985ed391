// The power distribution of one frequency: a histogram of 256 half-decibel bins
// that is halved whenever it has grown too large.

module Calibration {
  import opened Basics
  import opened Sums

  const BINS: nat := 256
  const TWO32: nat := 0x1_0000_0000

  function OddCount(s: seq<nat>): nat {
    if s == [] then 0 else OddCount(s[..|s| - 1]) + s[|s| - 1] % 2
  }

  function Halved(s: seq<nat>): (t: seq<nat>)
    ensures |t| == |s|
  {
    seq(|s|, i requires 0 <= i < |s| => s[i] / 2)
  }

  /** Halving every bin loses one half for every odd bin. */
  lemma {:induction false} SumOfHalved(s: seq<nat>)
    ensures 2 * Sum(Halved(s)) + OddCount(s) == Sum(s)
    ensures OddCount(s) <= |s|
  {
    if s == [] {
    } else {
      var front := s[..|s| - 1];
      SumOfHalved(front);
      assert Halved(s)[..|s| - 1] == Halved(front);
    }
  }

  /** The drift between the count and the bins stays below one per bin, however often
      both are halved, because only odd bins lose a half. */
  predicate SmallDrift(count: nat, total: nat) {
    total <= count <= total + BINS - 1
  }

  lemma HalvingKeepsDriftSmall(count: nat, s: seq<nat>)
    requires |s| == BINS && SmallDrift(count, Sum(s))
    ensures SmallDrift(count / 2, Sum(Halved(s)))
  {
    SumOfHalved(s);
  }

  // ------------------------------------------------------------------- power

  /** Half-decibel bins from -150 dBm, with everything outside put into the first or
      the last one. */
  function PwrToIndex(power: real): (index: nat)
    ensures index < BINS
  {
    var index := Trunc((150.0 + power) * 2.0);
    if index < 0 then 0 else if index > 255 then 255 else index
  }

  function IndexToPwr(index: real): real {
    index / 2.0 - 150.0
  }

  /** Bin `index` holds the powers from its own value to the next bin's. */
  lemma BinOfPower(power: real, index: nat)
    requires index < BINS
    ensures PwrToIndex(power) == index <==>
              && (index == 0 || IndexToPwr(index as real) <= power)
              && (index == 255 || power < IndexToPwr((index + 1) as real))
  {
    var x := (150.0 + power) * 2.0;
    if x >= 0.0 {
      assert x.Floor as real <= x < x.Floor as real + 1.0;
    } else {
      assert Trunc(x) <= 0;
    }
  }

  // ---------------------------------------------------------------- the object

  class CalibrationPoint {
    var maxSampleCount: nat
    var minSampleCount: nat
    var lastUpdate: nat
    const distrib: array<nat>
    var samplesCount: nat

    /** The counters fit their 32 bits, even with one sample more, and the bins account
        for all samples but the drift. */
    ghost predicate Valid()
      reads this, distrib
    {
      && distrib.Length == BINS
      && maxSampleCount < TWO32 && samplesCount + 1 < TWO32
      && SmallDrift(samplesCount, Sum(distrib[..]))
    }

    constructor (maxSampleCount: nat, minSampleCount: nat)
      requires maxSampleCount < TWO32 && minSampleCount < TWO32
      ensures Valid() && samplesCount == 0 && fresh(distrib)
      ensures this.maxSampleCount == maxSampleCount && this.minSampleCount == minSampleCount
    {
      this.maxSampleCount, this.minSampleCount := maxSampleCount, minSampleCount;
      distrib := new nat[BINS];
      samplesCount, lastUpdate := 0, 0;
      new;
      Reset();
    }

    method Reset()
      requires distrib.Length == BINS && maxSampleCount < TWO32
      modifies this`samplesCount, this`lastUpdate, distrib
      ensures Valid() && samplesCount == 0 && lastUpdate == 0
      ensures forall i :: 0 <= i < BINS ==> distrib[i] == 0
    {
      samplesCount, lastUpdate := 0, 0;
      forall i | 0 <= i < BINS {
        distrib[i] := 0;
      }
      SumOfZeros(distrib[..]);
    }

    method SetMaxSampleCount(maxSampleCount: nat)
      requires Valid() && maxSampleCount < TWO32
      modifies this`maxSampleCount
      ensures Valid() && this.maxSampleCount == maxSampleCount && samplesCount == old(samplesCount)
    {
      this.maxSampleCount := maxSampleCount;
    }

    method Halve()
      requires distrib.Length == BINS
      modifies distrib
      ensures distrib[..] == Halved(old(distrib[..]))
    {
      for i := 0 to BINS
        invariant forall k :: 0 <= k < i ==> distrib[k] == old(distrib[k]) / 2
        invariant forall k :: i <= k < BINS ==> distrib[k] == old(distrib[k])
      {
        distrib[i] := distrib[i] / 2;
      }
    }

    /** Counts one sample. The count is back under the maximum afterwards exactly when
        it had not reached twice the maximum: always, unless the maximum was lowered. */
    method AddData(power: real)
      requires Valid()
      modifies this`samplesCount, this`lastUpdate, distrib
      ensures Valid()
      ensures samplesCount ==
              if old(samplesCount) + 1 >= maxSampleCount then (old(samplesCount) + 1) / 2 else old(samplesCount) + 1
      ensures var counted := old(distrib[..])[PwrToIndex(power) := old(distrib[..])[PwrToIndex(power)] + 1];
              distrib[..] == if old(samplesCount) + 1 >= maxSampleCount then Halved(counted) else counted
      ensures samplesCount < maxSampleCount <==> old(samplesCount) + 1 < 2 * maxSampleCount
      ensures lastUpdate ==
              if && old(samplesCount) + 1 < maxSampleCount && minSampleCount <= old(samplesCount) + 1
                 && old(lastUpdate) * 10 % TWO32 <= old(samplesCount) + 1
              then old(samplesCount) + 1 else old(lastUpdate)
      ensures old(samplesCount) < maxSampleCount ==> samplesCount < maxSampleCount
    {
      var index := PwrToIndex(power);
      SumUpdate(distrib[..], index, distrib[index] + 1);
      ghost var counted := distrib[..][index := distrib[index] + 1];
      distrib[index] := distrib[index] + 1;
      assert distrib[..] == counted;
      samplesCount := samplesCount + 1;
      if samplesCount >= maxSampleCount {
        HalvingKeepsDriftSmall(samplesCount, counted);
        Halve();
        samplesCount := samplesCount / 2;
      } else if samplesCount >= lastUpdate * 10 % TWO32 && samplesCount >= minSampleCount {
        lastUpdate := samplesCount;
      }
    }
  }

  /** A bin fits its 32 bits, even with one sample more. */
  lemma BinsFit(c: CalibrationPoint, i: nat)
    requires c.Valid() && i < BINS
    ensures c.distrib[i] + 1 < TWO32
  {
    SummandAtMostSum(c.distrib[..], i);
  }

  /** The count exceeds its maximum: ten samples below a maximum of 100, one more after
      the maximum has been lowered to 3. */
  method CountExceedsMaximum(power: real) returns (c: CalibrationPoint)
    ensures c.Valid() && c.maxSampleCount == 3 && c.samplesCount == 5
  {
    c := new CalibrationPoint(100, 100);
    for k := 0 to 10
      invariant c.Valid() && fresh(c) && fresh(c.distrib) && c.maxSampleCount == 100 && c.samplesCount == k
    {
      c.AddData(power);
    }
    c.SetMaxSampleCount(3);
    c.AddData(power);
  }
}
