// More than one copy in a burst, and messages that end with a pulse: the demodulator meets
// a third length, that of the stop symbol.

module Repetitions {
  import opened Slots
  import opened Sums
  import opened Reception
  import opened Constellations
  import opened PulseTrains
  import opened OokDemod
  import opened OokLearning
  import opened KeyedSounds
  import opened Link
  import Activity
  import S = Synthesis
  import P = Program
  import M = Modulations

  // ------------------------------------------------- a channel with a third length

  /** Two lengths are learned although a third one occurs `n` times: it is rarer than both
      and far enough from them, and leaves them enough of the whole. */
  predicate TeachesDespite(zero: nat, one: nat, zeros: nat, ones: nat, third: nat, n: nat) {
    && zero < one && 0 < n < Min(zeros, ones)
    && Apart3(Gap(SAMPLE_DIST_MAX, Min(zero, third), Max(one, third) + 1), zero, one, third)
    && 100 * Min(zeros, ones) >= zeros + ones + n
    && Trusted(zero, one, zeros, ones, zeros + ones + n)
  }

  lemma {:induction false} CountThree(data: seq<nat>, a: nat, b: nat, g: nat)
    requires ThreeValued(data, a, b, g) && a != b && a != g && b != g
    ensures Count(data, a) + Count(data, b) + Count(data, g) == |data|
    decreases |data|
  {
    if data != [] {
      CountThree(data[..|data| - 1], a, b, g);
    }
  }

  lemma GapOfThree(data: seq<nat>, a: nat, b: nat, g: nat)
    requires ThreeValued(data, a, b, g) && a < b
    requires Count(data, a) > 0 && Count(data, b) > 0 && Count(data, g) > 0
    ensures data != [] && GapOf(data) == Gap(SAMPLE_DIST_MAX, Min(a, g), Max(b, g) + 1)
  {
    hide Count, MinOf, MaxOf, Gap;
    CountPositive(data, a);
    CountPositive(data, b);
    CountPositive(data, g);
    BoundsOf(data);
  }

  lemma LearnedDespite(data: seq<nat>, ch: Channel, zero: nat, one: nat, third: nat)
    requires OokLearning.Learned(data, ch) && ThreeValued(data, zero, one, third)
    requires TeachesDespite(zero, one, Count(data, zero), Count(data, one), third, Count(data, third))
    ensures ch.bps == 1 && Classify(ch, zero) == Bit(false) && Classify(ch, one) == Bit(true)
    ensures MinPos(ch) == zero as real && MaxPos(ch) == one as real
  {
    hide OokLearning.Learned, Count, Trusted, Gap, Classify, GapOf, MinPos, MaxPos;
    GapOfThree(data, zero, one, third);
    CountThree(data, zero, one, third);
    TaughtAmongThree(data, ch, zero, one, third);
    LearnedLengths(ch, zero, one);
  }

  function Distance(x: nat, y: nat): nat {
    if x < y then y - x else x - y
  }

  /** How a length is read by a channel that has learned two. */
  function ReadBy(zero: nat, one: nat, len: nat): Mapped
    requires zero < one
  {
    if 2 * Distance(len, zero) < one - zero then Bit(false)
    else if 2 * Distance(len, one) < one - zero then Bit(true)
    else Unknown
  }

  lemma IsReadBy(ch: Channel, zero: nat, one: nat, len: nat)
    requires ch.bps == 1 && MinPos(ch) == zero as real && MaxPos(ch) == one as real && zero < one
    ensures Classify(ch, len) == ReadBy(zero, one, len)
  {
  }

  // -------------------------------------------------------- lengths of many copies

  /** What is seen of the pulses, and of the gaps, of a train. */
  function PulsesSeen(lens: seq<nat>): (data: seq<nat>)
    ensures |data| == (|lens| + 1) / 2 && forall k :: 0 <= k < |data| ==> data[k] == Seen(lens, 2 * k)
  {
    seq((|lens| + 1) / 2, k requires 0 <= k < (|lens| + 1) / 2 => Seen(lens, 2 * k))
  }

  function GapsSeen(lens: seq<nat>): (data: seq<nat>)
    requires lens != []
    ensures |data| == (|lens| - 1) / 2 && forall k :: 0 <= k < |data| ==> data[k] == Seen(lens, 2 * k + 1)
  {
    seq((|lens| - 1) / 2, k requires 0 <= k < (|lens| - 1) / 2 => Seen(lens, 2 * k + 1))
  }

  lemma HoldsSeen(on: Channel, off: Channel, lens: seq<nat>)
    requires LongPulses(lens) && lens != [] && ClosedChain(Subs(lens)) && Holds(on, off, Subs(lens))
    ensures on.data == PulsesSeen(lens) && off.data == GapsSeen(lens)
  {
    hide Subs, Gaps, ClosedChain, InOrder;
    MeasuredLengths(lens, 0);
    forall k | 0 <= k < |on.data|
      ensures on.data[k] == PulsesSeen(lens)[k]
    {
      MeasuredLengths(lens, k);
    }
    forall k | 0 <= k < |off.data|
      ensures off.data[k] == GapsSeen(lens)[k]
    {
      MeasuredLengths(lens, k);
    }
  }

  lemma PulsesAppend(a: seq<nat>, b: seq<nat>)
    requires |a| % 2 == 0
    ensures PulsesSeen(a + b) == PulsesSeen(a) + PulsesSeen(b)
  {
    var whole, parts := PulsesSeen(a + b), PulsesSeen(a) + PulsesSeen(b);
    forall k | 0 <= k < |whole|
      ensures whole[k] == parts[k]
    {
      assert 2 * k >= |a| ==> (a + b)[2 * k] == b[2 * k - |a|];
    }
  }

  lemma GapsAppend(a: seq<nat>, b: seq<nat>)
    requires |a| % 2 == 0 && a != [] && b != []
    ensures GapsSeen(a + b) == GapsSeen(a) + [Activity.Last(a) + 1] + GapsSeen(b)
  {
    var whole, parts := GapsSeen(a + b), GapsSeen(a) + [Activity.Last(a) + 1] + GapsSeen(b);
    forall k | 0 <= k < |whole|
      ensures whole[k] == parts[k]
    {
      assert 2 * k + 1 >= |a| ==> (a + b)[2 * k + 1] == b[2 * k + 1 - |a|];
    }
  }

  lemma {:induction false} CountConcat(a: seq<nat>, b: seq<nat>, i: int)
    ensures Count(a + b, i) == Count(a, i) + Count(b, i)
    decreases |b|
  {
    if b == [] {
      assert a + b == a;
    } else {
      var n := |b| - 1;
      assert a + b == (a + b[..n]) + [b[n]] && b == b[..n] + [b[n]];
      CountConcat(a, b[..n], i);
      CountAppend(a + b[..n], b[n], i);
      CountAppend(b[..n], b[n], i);
    }
  }

  /** How often a length occurs in all copies. */
  lemma {:induction false} CopiesCount(lens: seq<nat>, copies: nat, i: int)
    requires |lens| % 2 == 0 && lens != [] && copies > 0
    ensures CopyLens(lens, copies) != [] && Activity.Last(CopyLens(lens, copies)) == Activity.Last(lens)
    ensures Count(PulsesSeen(CopyLens(lens, copies)), i) == Times(Count(PulsesSeen(lens), i), copies)
    ensures Count(GapsSeen(CopyLens(lens, copies)), i) ==
            Times(Count(GapsSeen(lens), i), copies) + if i == Activity.Last(lens) + 1 then copies - 1 else 0
    decreases copies
  {
    hide Count, PulsesSeen, GapsSeen;
    if copies == 1 {
      OneCopy(lens);
    } else {
      var before, gap := CopyLens(lens, copies - 1), Activity.Last(lens) + 1;
      CopiesCount(lens, copies - 1, i);
      PulsesAppend(before, lens);
      GapsAppend(before, lens);
      CountConcat(PulsesSeen(before), PulsesSeen(lens), i);
      CountConcat(GapsSeen(before) + [gap], GapsSeen(lens), i);
      CountAppend(GapsSeen(before), gap, i);
    }
  }

  // ------------------------------------------------------ copies that share a burst

  /** Copies in one burst that come back: there are more than ten pulses, the pulses teach
      their lengths, and so do the gaps, despite the stop gaps between the copies. */
  predicate SharedComesBack(s: M.Scheme, rate: real, bits: seq<bool>, copies: nat)
    requires s.Ook? && M.ValidScheme(s) && 0.0 <= rate
  {
    && copies > 1 && |bits| % 2 == 1 && copies * (|bits| + 1) > 20
    && Teaches(PulseBits(bits), MeasuredPulse(s, rate, false), MeasuredPulse(s, rate, true))
    && TeachesDespite(MeasuredGap(s, rate, false), MeasuredGap(s, rate, true),
                      copies * HowMany(GapBits(bits), false), copies * HowMany(GapBits(bits), true),
                      StopCount(s, rate) + 1, copies - 1)
  }

  lemma Factor(k: nat, x: nat, y: nat, n: nat)
    ensures n * x >= y ==> n * (k * x) >= k * y
  {
    if n * x >= y {
      MulMono(y, n * x, k);
      assert n * (k * x) == n * x * k;
    }
  }

  lemma MinTimes(x: nat, y: nat, k: nat)
    ensures Min(k * x, k * y) == k * Min(x, y) && k * x + k * y == k * (x + y)
  {
    if x < y {
      MulMono(x, y, k);
    } else {
      MulMono(y, x, k);
    }
  }

  lemma TaughtTimes(a: nat, b: nat, as_: nat, bs: nat, k: nat)
    requires Taught(a, b, as_, bs) && 0 < k
    ensures Taught(a, b, Times(as_, k), Times(bs, k))
  {
    TimesIsProduct(as_, k);
    TimesIsProduct(bs, k);
    MinTimes(as_, bs, k);
    MulMono(1, as_, k);
    MulMono(1, bs, k);
    var min: nat := if as_ < bs then as_ else bs;
    Factor(k, min, as_ + bs, 10);
    Factor(k, min, as_ + bs, 100);
  }

  lemma SeenOfMessage(s: M.Scheme, rate: real, bits: seq<bool>, amp: real, k: nat)
    requires s.Ook? && M.ValidScheme(s) && 0.0 <= rate && k < |bits|
    ensures Seen(LengthsOf(s, bits, amp, rate), k) ==
            if k % 2 == 0 then MeasuredPulse(s, rate, bits[k]) else MeasuredGap(s, rate, bits[k])
  {
    hide PulseCount;
  }

  /** The pulses, and the gaps, of a message of odd length. */
  lemma MessageLengths(s: M.Scheme, rate: real, bits: seq<bool>, amp: real)
    requires s.Ook? && M.ValidScheme(s) && 0.0 <= rate && |bits| % 2 == 1
    ensures var lens := LengthsOf(s, bits, amp, rate);
            var zero, one := MeasuredPulse(s, rate, false), MeasuredPulse(s, rate, true);
            && LengthsFor(PulsesSeen(lens), PulseBits(bits), zero, one)
            && LengthsFor(GapsSeen(lens), GapBits(bits), MeasuredGap(s, rate, false), MeasuredGap(s, rate, true))
  {
    hide LengthsOf, Seen, MeasuredPulse, MeasuredGap;
    var lens := LengthsOf(s, bits, amp, rate);
    forall k | 0 <= k < |PulseBits(bits)|
      ensures PulsesSeen(lens)[k] == MeasuredPulse(s, rate, bits[2 * k])
    {
      SeenOfMessage(s, rate, bits, amp, 2 * k);
    }
    forall k | 0 <= k < |GapBits(bits)|
      ensures GapsSeen(lens)[k] == MeasuredGap(s, rate, bits[2 * k + 1])
    {
      SeenOfMessage(s, rate, bits, amp, 2 * k + 1);
    }
  }

  lemma ValuesOfBits(data: seq<nat>, bs: seq<bool>, zero: nat, one: nat, i: int)
    requires LengthsFor(data, bs, zero, one) && Count(data, i) > 0
    ensures i == zero || i == one
  {
    hide Count;
    CountPositive(data, i);
  }

  /** The pulses of all copies teach as those of one. */
  lemma SharedPulses(data: seq<nat>, one_: seq<nat>, ch: Channel, bs: seq<bool>, zero: nat, one: nat, copies: nat)
    requires OokLearning.Learned(data, ch) && LengthsFor(one_, bs, zero, one) && Teaches(bs, zero, one)
    requires 19 <= zero && copies > 0
    requires forall i :: Count(data, i) == Times(Count(one_, i), copies)
    ensures ch.bps == 1 && Classify(ch, zero) == Bit(false) && Classify(ch, one) == Bit(true)
  {
    hide OokLearning.Learned, Classify, HowMany, Count, Taught, MinPos, MaxPos;
    forall k | 0 <= k < |data|
      ensures data[k] == zero || data[k] == one
    {
      CountPositive(data, data[k]);
      TimesOfZero(Count(one_, data[k]), copies);
      ValuesOfBits(one_, bs, zero, one, data[k]);
    }
    CountOfBits(one_, bs, zero, one);
    TaughtTimes(zero, one, HowMany(bs, false), HowMany(bs, true), copies);
    TaughtIff(data, ch, zero, one);
    LearnedLengths(ch, zero, one);
  }

  lemma {:induction false} TimesOfZero(n: nat, k: nat)
    ensures n == 0 ==> Times(n, k) == 0
  {
    if k > 0 {
      TimesOfZero(n, k - 1);
    }
  }

  lemma SharedGaps(
      data: seq<nat>, one_: seq<nat>, ch: Channel, bs: seq<bool>, zero: nat, one: nat, third: nat, copies: nat)
    requires OokLearning.Learned(data, ch) && LengthsFor(one_, bs, zero, one) && copies > 1
    requires TeachesDespite(zero, one, copies * HowMany(bs, false), copies * HowMany(bs, true), third, copies - 1)
    requires forall i :: Count(data, i) == Times(Count(one_, i), copies) + if i == third then copies - 1 else 0
    ensures ch.bps == 1 && Classify(ch, zero) == Bit(false) && Classify(ch, one) == Bit(true)
    ensures MinPos(ch) == zero as real && MaxPos(ch) == one as real
  {
    hide OokLearning.Learned, Classify, HowMany, Count, Trusted, MinPos, MaxPos, Gap;
    forall k | 0 <= k < |data|
      ensures data[k] == zero || data[k] == one || data[k] == third
    {
      CountPositive(data, data[k]);
      TimesOfZero(Count(one_, data[k]), copies);
      if data[k] != third {
        ValuesOfBits(one_, bs, zero, one, data[k]);
      }
    }
    CountOfBits(one_, bs, zero, one);
    TimesIsProduct(HowMany(bs, false), copies);
    TimesIsProduct(HowMany(bs, true), copies);
    ThirdIsNew(one_, bs, zero, one, third);
    TimesOfZero(Count(one_, third), copies);
    LearnedDespite(data, ch, zero, one, third);
  }

  lemma ThirdIsNew(data: seq<nat>, bs: seq<bool>, zero: nat, one: nat, third: nat)
    requires LengthsFor(data, bs, zero, one) && third != zero && third != one
    ensures Count(data, third) == 0
  {
    hide Count;
    CountPositive(data, third);
  }

  lemma ReadIsLegible(
      s: M.Scheme, rate: real, bits: seq<bool>, amp: real, on: Channel, off: Channel)
    requires s.Ook? && M.ValidScheme(s) && 0.0 <= rate
    requires forall b :: Classify(on, MeasuredPulse(s, rate, b)) == Bit(b)
    requires forall b :: Classify(off, MeasuredGap(s, rate, b)) == Bit(b)
    ensures Legible(on, off, LengthsOf(s, bits, amp, rate), bits)
  {
    hide LengthsOf, Seen, MeasuredPulse, MeasuredGap, Classify;
    var lens := LengthsOf(s, bits, amp, rate);
    forall k | 0 <= k < |bits|
      ensures SymbolSeen(on, off, lens, k) == Bit(bits[k])
    {
      SeenOfMessage(s, rate, bits, amp, k);
    }
  }

  /** Copies in one burst: whatever the demodulator has learned from the burst, it takes it
      and returns the copies, parted or joined by their stop gap. */
  lemma SharedBurstComesBack(
      s: M.Scheme, rate: real, bits: seq<bool>, amp: real, copies: nat, on: Channel, off: Channel)
    requires s.Ook? && M.ValidScheme(s) && 0.0 <= rate && Receivable(s, rate) && SharedComesBack(s, rate, bits, copies)
    requires var all := CopyLens(LengthsOf(s, bits, amp, rate), copies);
             LongPulses(all) && all != [] && ClosedChain(Subs(all)) && LearnedFrom(Subs(all), on, off)
    ensures var gap := ReadBy(MeasuredGap(s, rate, false), MeasuredGap(s, rate, true), StopCount(s, rate) + 1);
            Returned(Subs(CopyLens(LengthsOf(s, bits, amp, rate), copies)), on, off, CopyMessages(bits, gap, copies))
  {
    hide Subs, LongPulses, ClosedChain, CopyLens, OokLearning.Learned, Gaps, InOrder, Classify, LengthsOf, Count,
      PulsesSeen, GapsSeen, MeasuredPulse, MeasuredGap, StopCount, Demodulated, Teaches, TeachesDespite, ReadBy,
      MinPos, MaxPos, CopyMessages, Legible, HowMany;
    var lens := LengthsOf(s, bits, amp, rate);
    var all := CopyLens(lens, copies);
    LearnedHolds(on, off, Subs(all));
    HoldsSeen(on, off, all);
    MessageLengths(s, rate, bits, amp);
    MeasuredAtLeast(s, rate);
    forall i
      ensures Count(on.data, i) == Times(Count(PulsesSeen(lens), i), copies)
      ensures Count(off.data, i) ==
              Times(Count(GapsSeen(lens), i), copies) + if i == StopCount(s, rate) + 1 then copies - 1 else 0
    {
      CopiesCount(lens, copies, i);
    }
    SharedPulses(on.data, PulsesSeen(lens), on, PulseBits(bits),
                 MeasuredPulse(s, rate, false), MeasuredPulse(s, rate, true), copies);
    SharedGaps(off.data, GapsSeen(lens), off, GapBits(bits),
               MeasuredGap(s, rate, false), MeasuredGap(s, rate, true), StopCount(s, rate) + 1, copies);
    ReadIsLegible(s, rate, bits, amp, on, off);
    DespiteIsOrdered(s, rate, bits, copies);
    IsReadBy(off, MeasuredGap(s, rate, false), MeasuredGap(s, rate, true), StopCount(s, rate) + 1);
    CopiesAreDecoded(bits, lens, copies, on, off);
    CopyLensLength(lens, copies);
    ChosenIff(|Subs(all)|, on, off);
  }

  lemma DespiteIsOrdered(s: M.Scheme, rate: real, bits: seq<bool>, copies: nat)
    requires s.Ook? && M.ValidScheme(s) && 0.0 <= rate && SharedComesBack(s, rate, bits, copies)
    ensures MeasuredGap(s, rate, false) < MeasuredGap(s, rate, true)
  {
  }

  // ----------------------------------------------------------- messages of even length

  /** The lengths of a message that ends with a pulse, sent over and over: the last pulse of
      a copy and the first one of the next become one. */
  function MergedLens(lens: seq<nat>, copies: nat): (all: seq<nat>)
    requires lens != [] && 0 < copies
    ensures all != [] && (|lens| % 2 == 1 ==> |all| % 2 == 1)
    ensures |lens| > 1 ==> Activity.Last(all) == Activity.Last(lens)
  {
    if copies == 1 then lens
    else
      var before := MergedLens(lens, copies - 1);
      Activity.Front(before) + ([Activity.Last(before) + lens[0]] + lens[1..])
  }

  lemma LoudMerge<Iq>(hist: seq<Sample<Iq>>, mid: nat, before: nat, n: nat)
    requires before <= mid && mid + n == |hist|
    requires AllAre(hist[..mid][mid - before..], true) && AllAre(hist[mid..], true)
    ensures AllAre(hist[mid - before..], true)
  {
    var tail := hist[mid - before..];
    forall p | 0 <= p < |tail|
      ensures tail[p].above
    {
      if p < before {
        assert tail[p] == hist[..mid][mid - before..][p];
      } else {
        assert tail[p] == hist[mid..][p - before];
      }
    }
  }

  /** A train that begins with a pulse, right behind one that ends with a pulse. */
  lemma {:induction false} KeyedMerge<Iq>(a: seq<nat>, b: seq<nat>, base: nat, mid: nat, hist: seq<Sample<Iq>>)
    requires |a| % 2 == 1 && b != [] && mid <= |hist| && Keyed(a, base, hist[..mid]) && Keyed(b, mid, hist)
    ensures Keyed(Activity.Front(a) + ([Activity.Last(a) + b[0]] + b[1..]), base, hist)
    decreases |b|
  {
    hide Keyed, AllAre;
    var front, last := Activity.Front(a), Activity.Last(a);
    FrontAndLast(a);
    KeyedSnoc(front, last, base, hist[..mid]);
    FrontAndLast(b);
    KeyedSnoc(Activity.Front(b), Activity.Last(b), mid, hist);
    KeyedLength(b, mid, hist);
    if |b| == 1 {
      KeyedLength([], mid, hist[..|hist| - b[0]]);
      assert hist[..|hist| - (last + b[0])] == hist[..mid][..mid - last];
      LoudMerge(hist, mid, last, b[0]);
      KeyedSnoc(front, last + b[0], base, hist);
      assert front + ([last + b[0]] + b[1..]) == front + [last + b[0]];
    } else {
      var n := Activity.Last(b);
      var cut := hist[..|hist| - n];
      KeyedLength(Activity.Front(b), mid, cut);
      assert cut[..mid] == hist[..mid];
      KeyedMerge(a, Activity.Front(b), base, mid, cut);
      var merged := front + ([last + b[0]] + Activity.Front(b)[1..]);
      KeyedSnoc(merged, n, base, hist);
      assert merged + [n] == front + ([last + b[0]] + b[1..]);
    }
  }

  lemma {:induction false} MergedIsKeyed<Iq>(lens: seq<nat>, copies: nat, base: nat, hist: seq<Sample<Iq>>)
    requires |lens| % 2 == 1 && copies > 0 && KeyedCopies(lens, copies, base, hist)
    ensures Keyed(MergedLens(lens, copies), base, hist)
    decreases copies
  {
    hide Keyed, Sum;
    var mid := base + Times(Sum(lens), copies - 1);
    if copies == 1 {
      assert hist[..mid] == hist[..base];
    } else {
      MergedIsKeyed(lens, copies - 1, base, hist[..mid]);
      KeyedMerge(MergedLens(lens, copies - 1), lens, base, mid, hist);
    }
  }

  lemma {:induction false} MergedIsSeparable(coalesce: nat, lens: seq<nat>, copies: nat)
    requires |lens| % 2 == 1 && copies > 0 && Separable(coalesce, lens)
    ensures Separable(coalesce, MergedLens(lens, copies))
    decreases copies
  {
    hide SeparableAt;
    if copies > 1 {
      MergedIsSeparable(coalesce, lens, copies - 1);
      SeparableMerge(coalesce, MergedLens(lens, copies - 1), lens);
    }
  }

  lemma SeparableMerge(coalesce: nat, a: seq<nat>, b: seq<nat>)
    requires |a| % 2 == 1 && |b| % 2 == 1 && Separable(coalesce, a) && Separable(coalesce, b)
    ensures Separable(coalesce, Activity.Front(a) + ([Activity.Last(a) + b[0]] + b[1..]))
  {
    var n, whole := |a| - 1, Activity.Front(a) + ([Activity.Last(a) + b[0]] + b[1..]);
    forall k | 0 <= k < |whole|
      ensures SeparableAt(coalesce, whole, k)
    {
      if k < n {
        assert SeparableAt(coalesce, a, k);
      } else {
        assert SeparableAt(coalesce, b, k - n) && SeparableAt(coalesce, a, n);
      }
    }
  }

  /** What is seen of the copies, but for the stop pulse at the end: the first bit of a
      later copy is lost in the merged pulse. */
  function MergedSymbols(ms: seq<Mapped>, merged: Mapped, copies: nat): seq<Mapped>
    requires ms != [] && 0 < copies
  {
    if copies == 1 then ms else MergedSymbols(ms, merged, copies - 1) + [merged] + ms[1..]
  }

  lemma SeenPrefix(on: Channel, off: Channel, lens: seq<nat>, n: nat)
    requires n <= |lens|
    ensures SymbolsSeen(on, off, lens[..n], n) == SymbolsSeen(on, off, lens, n)
  {
    hide Classify;
  }

  /** The merged pulse, and then the other bits. */
  lemma SeenFromMerged(on: Channel, off: Channel, lens: seq<nat>, first: nat)
    requires |lens| > 1 && first > 0
    ensures SymbolsSeen(on, off, [first] + lens[1..], |lens| - 1) ==
            [Classify(on, first - 1)] + SymbolsSeen(on, off, lens, |lens| - 1)[1..]
  {
    hide Classify;
    var changed := [first] + lens[1..];
    forall k | 0 < k < |lens| - 1
      ensures SymbolSeen(on, off, changed, k) == SymbolSeen(on, off, lens, k)
    {
      assert changed[k] == lens[k];
    }
  }

  /** What is seen of one copy more behind its merged pulse. */
  lemma SeenOfOneMerged(on: Channel, off: Channel, before: seq<nat>, lens: seq<nat>, first: nat)
    requires |before| % 2 == 1 && |lens| > 1 && first > 0
    ensures var all := Activity.Front(before) + ([first] + lens[1..]);
            SymbolsSeen(on, off, all, |all| - 1) ==
            SymbolsSeen(on, off, before, |before| - 1) + [Classify(on, first - 1)] +
            SymbolsSeen(on, off, lens, |lens| - 1)[1..]
  {
    hide Classify, SymbolSeen, SymbolsSeen;
    var front, later := Activity.Front(before), [first] + lens[1..];
    SeenPrefix(on, off, before, |before| - 1);
    SeenBehind(on, off, front, later, |lens| - 1);
    SeenFromMerged(on, off, lens, first);
    assert |front + later| - 1 == |front| + (|lens| - 1);
  }

  lemma {:induction false} SeenOfMerged(on: Channel, off: Channel, lens: seq<nat>, copies: nat)
    requires |lens| % 2 == 1 && |lens| > 1 && copies > 0 && Activity.Last(lens) > 0
    ensures var all := MergedLens(lens, copies);
            var merged := Classify(on, Activity.Last(lens) + lens[0] - 1);
            var ms := SymbolsSeen(on, off, lens, |lens| - 1);
            SymbolsSeen(on, off, all, |all| - 1) == MergedSymbols(ms, merged, copies)
    decreases copies
  {
    hide Classify, SymbolSeen, SymbolsSeen;
    if copies > 1 {
      SeenOfMerged(on, off, lens, copies - 1);
      SeenOfOneMerged(on, off, MergedLens(lens, copies - 1), lens, Activity.Last(lens) + lens[0]);
    }
  }

  /** What has been decoded of the copies before the stop pulse at the end: the merged pulse
      parts the copies when it is unknown, and joins them otherwise. */
  function MergedDecoder(bits: seq<bool>, merged: Mapped, copies: nat): Decoder
    requires bits != [] && 0 < copies
  {
    if copies == 1 then Decoder([], bits)
    else
      var before := MergedDecoder(bits, merged, copies - 1);
      if merged.Bit? then before.(current := before.current + [merged.bit] + bits[1..])
      else Decoder(before.msgs + [before.current], bits[1..])
  }

  /** The messages of the copies, by how the merged pulses and the last one are read. */
  function MergedMessages(bits: seq<bool>, merged: Mapped, stop: Mapped, copies: nat): seq<seq<bool>>
    requires bits != [] && 0 < copies
  {
    var d := MergedDecoder(bits, merged, copies);
    d.msgs + [if stop.Bit? then d.current + [stop.bit] else d.current]
  }

  /** One more copy behind its merged pulse. */
  lemma MergedStep(before: seq<Mapped>, merged: Mapped, ms: seq<Mapped>, bits: seq<bool>)
    requires |ms| == |bits| && (forall k :: 0 <= k < |bits| ==> ms[k] == Bit(bits[k]))
    requires merged != NoBit && Decode(before).current != []
    ensures var d := Decode(before);
            Decode(before + [merged] + ms) ==
              if merged.Bit? then d.(current := d.current + [merged.bit] + bits)
              else Decoder(d.msgs + [d.current], bits)
  {
    hide Decode;
    DecodeSnoc(before, merged);
    DecodeBits(before + [merged], ms, bits);
    assert [] + bits == bits;
  }

  lemma {:induction false} MergedDecoded(ms: seq<Mapped>, merged: Mapped, bits: seq<bool>, copies: nat)
    requires |ms| == |bits| && (forall k :: 0 <= k < |bits| ==> ms[k] == Bit(bits[k])) && |bits| > 1
    requires copies > 0 && merged != NoBit
    ensures Decode(MergedSymbols(ms, merged, copies)) == MergedDecoder(bits, merged, copies)
    ensures MergedDecoder(bits, merged, copies).current != []
    decreases copies
  {
    hide Decode;
    if copies == 1 {
      AllBits(ms, bits);
    } else {
      MergedDecoded(ms, merged, bits, copies - 1);
      MergedStep(MergedSymbols(ms, merged, copies - 1), merged, ms[1..], bits[1..]);
    }
  }

  lemma LastOfMerged(before: seq<Mapped>, stop: Mapped, d: Decoder)
    requires Decode(before) == d && d.current != [] && stop != NoBit
    ensures Flush(Decode(before + [stop])).msgs == d.msgs + [if stop.Bit? then d.current + [stop.bit] else d.current]
  {
    DecodeSnoc(before, stop);
  }

  lemma MergedAreDecoded(bits: seq<bool>, lens: seq<nat>, copies: nat, on: Channel, off: Channel)
    requires |bits| % 2 == 0 && bits != [] && |lens| == |bits| + 1 && copies > 0 && Activity.Last(lens) > 0
    requires var all := MergedLens(lens, copies);
             LongPulses(all) && ClosedChain(Subs(all)) && Holds(on, off, Subs(all))
    requires Legible(on, off, lens, bits)
    ensures DecodesTo(on, off, MergedMessages(bits, Classify(on, Activity.Last(lens) + lens[0] - 1),
                                              Classify(on, Activity.Last(lens) - 1), copies))
  {
    hide Subs, LongPulses, ClosedChain, Decode, Classify, MergedLens, InOrder, Gaps, Demodulated, MergedDecoder;
    var all, stop := MergedLens(lens, copies), Activity.Last(lens);
    TrainIsDecoded(on, off, all);
    SeenOfMerged(on, off, lens, copies);
    SeenSnoc(on, off, all, |all| - 1);
    LegibleIsLearned(on, off, lens, bits);
    BitOrUnknown(on, stop + lens[0] - 1);
    BitOrUnknown(on, stop - 1);
    var ms, merged := SymbolsSeen(on, off, lens, |bits|), Classify(on, stop + lens[0] - 1);
    MergedDecoded(ms, merged, bits, copies);
    LastOfMerged(MergedSymbols(ms, merged, copies), Classify(on, stop - 1), MergedDecoder(bits, merged, copies));
  }

  lemma LegibleIsLearned(on: Channel, off: Channel, lens: seq<nat>, bits: seq<bool>)
    requires Legible(on, off, lens, bits) && bits != []
    ensures on.bps == 1
  {
    assert SymbolSeen(on, off, lens, 0) == Bit(bits[0]);
  }

  /** A message of even length, repeated, whose stop symbol is a pulse that is kept: there
      is one burst for all copies, in which the stop pulses merge with the first pulses of
      the next copies. When its bits are read, a single copy comes back whole exactly when
      its stop pulse looks like neither pulse. */
  lemma EvenCopiesShareABurst<Iq>(
      env: S.Env, s: M.Scheme, bits: seq<bool>, repeat: nat, phy: M.Phy, amp: real, a: S.Analog, n: nat,
      lead: nat, hist: seq<Sample<Iq>>)
    requires Tuned(env, s, phy.sampleRate, amp) && 0.0 <= a.rate && |bits| % 2 == 0 && bits != []
    requires SAMPLES_UNDER_THRS <= StopCount(s, phy.sampleRate)
    requires |M.MessageSound(env, s, bits, repeat, phy, amp)| <= n
    requires var sound := Played(env, s, bits, repeat, phy, amp, a, n);
             Heard(sound, lead, hist) && lead + |sound| + Silence(CoalescingCount(phy.sampleRate)) <= |hist|
    ensures var rate := phy.sampleRate;
            var lens, finished := LengthsOf(s, bits, amp, rate), Run(CoalescingCount(rate), hist).finished;
            && |finished| == 1 && finished[0].origin == lead
            && finished[0].subs == Subs(MergedLens(lens, repeat + 1)) && ClosedChain(finished[0].subs)
            && forall on, off :: Holds(on, off, finished[0].subs) && Legible(on, off, lens, bits) ==>
                 DecodesTo(on, off, MergedMessages(bits, Classify(on, StopCount(s, rate) + lens[0] - 1),
                                                   Classify(on, StopCount(s, rate) - 1), repeat + 1))
  {
    hide Run, Played, LengthsOf, CoalescingCount, StopCount, KeyedCopies, Keyed, AllAre, Separable, Subs, DecodesTo,
      Receivable, Audible, Sum, M.MessageWave, P.Copies, LongPulses, ClosedChain, HeardAt, Classify, MergedLens,
      Holds, Legible, MergedMessages;
    var rate, lens := phy.sampleRate, LengthsOf(s, bits, amp, phy.sampleRate);
    var coalesce, end := CoalescingCount(rate), lead + |P.Copies(M.MessageWave(env, s, bits, phy, amp), repeat + 1)|;
    SoundIsKeyed(env, s, bits, repeat + 1, phy, amp, lead, hist[..end]);
    MergedIsKeyed(lens, repeat + 1, lead, hist[..end]);
    MessageIsSeparable(s, bits, amp, rate);
    MergedIsSeparable(coalesce, lens, repeat + 1);
    var all := MergedLens(lens, repeat + 1);
    assert hist[..end][..lead] == hist[..lead];
    TrainIsReported(coalesce, all, lead, end, hist);
    var f := Run(coalesce, hist).finished[0];
    FinishedIsChain(coalesce, hist, f);
    forall on, off | Holds(on, off, Subs(all)) && Legible(on, off, lens, bits)
      ensures DecodesTo(on, off, MergedMessages(bits, Classify(on, StopCount(s, rate) + lens[0] - 1),
                                                Classify(on, StopCount(s, rate) - 1), repeat + 1))
    {
      MergedAreDecoded(bits, lens, repeat + 1, on, off);
    }
  }

  /** A message of even length that comes back: more than ten pulses with the stop pulse,
      gaps that teach their lengths, and pulses that teach theirs despite the stop pulse. */
  predicate EvenComesBack(s: M.Scheme, rate: real, bits: seq<bool>)
    requires s.Ook? && M.ValidScheme(s) && 0.0 <= rate
  {
    && |bits| >= 20 && |bits| % 2 == 0 && SAMPLES_UNDER_THRS <= StopCount(s, rate)
    && Teaches(GapBits(bits), MeasuredGap(s, rate, false), MeasuredGap(s, rate, true))
    && TeachesDespite(MeasuredPulse(s, rate, false), MeasuredPulse(s, rate, true),
                      HowMany(PulseBits(bits), false), HowMany(PulseBits(bits), true), StopCount(s, rate) - 1, 1)
  }

  lemma EvenPulses(s: M.Scheme, rate: real, bits: seq<bool>, amp: real)
    requires s.Ook? && M.ValidScheme(s) && 0.0 <= rate && |bits| % 2 == 0
    requires SAMPLES_UNDER_THRS <= StopCount(s, rate)
    ensures var lens := LengthsOf(s, bits, amp, rate);
            var zero, one := MeasuredPulse(s, rate, false), MeasuredPulse(s, rate, true);
            && LengthsFor(PulsesSeen(lens)[..|bits| / 2], PulseBits(bits), zero, one)
            && PulsesSeen(lens) == PulsesSeen(lens)[..|bits| / 2] + [StopCount(s, rate) - 1]
  {
    hide MeasuredPulse, StopCount, PulseCount, LengthsOf;
    var lens := LengthsOf(s, bits, amp, rate);
    var data := PulsesSeen(lens)[..|bits| / 2];
    forall k | 0 <= k < |PulseBits(bits)|
      ensures data[k] == MeasuredPulse(s, rate, bits[2 * k])
    {
      SeenOfMessage(s, rate, bits, amp, 2 * k);
    }
    assert Seen(lens, |bits|) == StopCount(s, rate) - 1;
  }

  lemma EvenGaps(s: M.Scheme, rate: real, bits: seq<bool>, amp: real)
    requires s.Ook? && M.ValidScheme(s) && 0.0 <= rate && |bits| % 2 == 0
    ensures var data := GapsSeen(LengthsOf(s, bits, amp, rate));
            LengthsFor(data, GapBits(bits), MeasuredGap(s, rate, false), MeasuredGap(s, rate, true))
  {
    hide MeasuredGap, LengthsOf, Seen;
    var data := GapsSeen(LengthsOf(s, bits, amp, rate));
    forall k | 0 <= k < |GapBits(bits)|
      ensures data[k] == MeasuredGap(s, rate, bits[2 * k + 1])
    {
      SeenOfMessage(s, rate, bits, amp, 2 * k + 1);
    }
  }

  lemma PulsesDespiteStop(data: seq<nat>, ch: Channel, bs: seq<bool>, zero: nat, one: nat, third: nat)
    requires OokLearning.Learned(data + [third], ch) && LengthsFor(data, bs, zero, one)
    requires TeachesDespite(zero, one, HowMany(bs, false), HowMany(bs, true), third, 1)
    ensures ch.bps == 1 && Classify(ch, zero) == Bit(false) && Classify(ch, one) == Bit(true)
    ensures MinPos(ch) == zero as real && MaxPos(ch) == one as real
  {
    hide OokLearning.Learned, Classify, HowMany, Count, Trusted, MinPos, MaxPos, Gap;
    CountOfBits(data, bs, zero, one);
    ThirdIsNew(data, bs, zero, one, third);
    CountAppend(data, third, zero);
    CountAppend(data, third, one);
    CountAppend(data, third, third);
    LearnedDespite(data + [third], ch, zero, one, third);
  }

  /** A single copy of a message of even length: whatever the demodulator has learned from
      the burst, it takes it and returns the message, with one bit more if the stop pulse
      looks like one. */
  lemma EvenBurstComesBack(s: M.Scheme, rate: real, bits: seq<bool>, amp: real, on: Channel, off: Channel)
    requires s.Ook? && M.ValidScheme(s) && 0.0 <= rate && Receivable(s, rate) && EvenComesBack(s, rate, bits)
    requires var lens := LengthsOf(s, bits, amp, rate);
             LongPulses(lens) && ClosedChain(Subs(lens)) && LearnedFrom(Subs(lens), on, off)
    ensures var stop := ReadBy(MeasuredPulse(s, rate, false), MeasuredPulse(s, rate, true), StopCount(s, rate) - 1);
            Returned(Subs(LengthsOf(s, bits, amp, rate)), on, off, [if stop.Bit? then bits + [stop.bit] else bits])
  {
    hide Subs, LongPulses, ClosedChain, OokLearning.Learned, Gaps, InOrder, Classify, LengthsOf, Count, PulsesSeen,
      GapsSeen, MeasuredPulse, MeasuredGap, StopCount, Demodulated, Teaches, TeachesDespite, ReadBy, MinPos, MaxPos,
      Legible, HowMany;
    var lens := LengthsOf(s, bits, amp, rate);
    LearnedHolds(on, off, Subs(lens));
    HoldsSeen(on, off, lens);
    EvenPulses(s, rate, bits, amp);
    EvenGaps(s, rate, bits, amp);
    MeasuredAtLeast(s, rate);
    PulsesDespiteStop(PulsesSeen(lens)[..|bits| / 2], on, PulseBits(bits),
                      MeasuredPulse(s, rate, false), MeasuredPulse(s, rate, true), StopCount(s, rate) - 1);
    ChannelReads(off.data, off, GapBits(bits), MeasuredGap(s, rate, false), MeasuredGap(s, rate, true));
    GapsAreTaught(off.data, off, GapBits(bits), MeasuredGap(s, rate, false), MeasuredGap(s, rate, true));
    ReadIsLegible(s, rate, bits, amp, on, off);
    PulseIsOrdered(s, rate, bits);
    IsReadBy(on, MeasuredPulse(s, rate, false), MeasuredPulse(s, rate, true), StopCount(s, rate) - 1);
    MergedAreDecoded(bits, lens, 1, on, off);
    ChosenIff(|Subs(lens)|, on, off);
    assert MergedLens(lens, 1) == lens;
  }

  lemma PulseIsOrdered(s: M.Scheme, rate: real, bits: seq<bool>)
    requires s.Ook? && M.ValidScheme(s) && 0.0 <= rate && EvenComesBack(s, rate, bits)
    ensures MeasuredPulse(s, rate, false) < MeasuredPulse(s, rate, true)
  {
  }

  /** A channel that reads all its bits, both of which occur, reads both lengths. */
  lemma GapsAreTaught(data: seq<nat>, ch: Channel, bs: seq<bool>, zero: nat, one: nat)
    requires OokLearning.Learned(data, ch) && LengthsFor(data, bs, zero, one) && Teaches(bs, zero, one) && 19 <= zero
    ensures Classify(ch, zero) == Bit(false) && Classify(ch, one) == Bit(true)
  {
    hide OokLearning.Learned, Classify, HowMany, Count, Taught, MinPos, MaxPos;
    CountOfBits(data, bs, zero, one);
    TaughtIff(data, ch, zero, one);
    LearnedLengths(ch, zero, one);
  }

  /** Without its stop symbol, a message of even length ends with a gap that does not end
      a burst. */
  lemma EvenTrain(s: M.Scheme, bits: seq<bool>, amp: real, rate: real)
    requires s.Ook? && M.ValidScheme(s) && 0.0 <= rate && Receivable(s, rate)
    requires |bits| % 2 == 0 && bits != []
    ensures var train, coalesce := LengthsOf(s, bits, amp, rate)[..|bits|], CoalescingCount(rate);
            && Separable(coalesce, train)
            && SAMPLES_UNDER_THRS < Activity.Last(train) < Silence(coalesce)
  {
    hide PulseCount, LengthsOf, CoalescingCount, StopCount;
    var lens, train := LengthsOf(s, bits, amp, rate), LengthsOf(s, bits, amp, rate)[..|bits|];
    forall k | 0 <= k < |train|
      ensures SeparableAt(CoalescingCount(rate), train, k)
    {
      assert lens[k] == PulseCount(PulseOf(s, k), rate, bits[k]);
    }
    assert lens[|bits| - 1] == PulseCount(PulseOf(s, |bits| - 1), rate, bits[|bits| - 1]);
  }

  /** Without a stop pulse that is kept, a message of even length loses its last bit: it is
      received as the message without that bit. */
  lemma EvenWithoutStop<Iq>(
      env: S.Env, s: M.Scheme, bits: seq<bool>, phy: M.Phy, amp: real, a: S.Analog, n: nat,
      lead: nat, hist: seq<Sample<Iq>>)
    requires Tuned(env, s, phy.sampleRate, amp) && 0.0 <= a.rate && |bits| % 2 == 0 && bits != []
    requires StopCount(s, phy.sampleRate) < SAMPLES_UNDER_THRS
    requires |M.MessageSound(env, s, bits, 0, phy, amp)| <= n
    requires var sound := Played(env, s, bits, 0, phy, amp, a, n);
             Heard(sound, lead, hist) && lead + |sound| + Silence(CoalescingCount(phy.sampleRate)) <= |hist|
    ensures var rate, shorter := phy.sampleRate, bits[..|bits| - 1];
            var finished := Run(CoalescingCount(rate), hist).finished;
            && |finished| == 1 && finished[0].origin == lead
            && ReturnedIff(finished[0].subs, [shorter], ComesBack(s, rate, shorter))
  {
    hide Run, LengthsOf, CoalescingCount, StopCount, Keyed, AllAre, Subs, HeardAt, Receivable, Audible, Sum,
      M.MessageWave, ReturnedIff, ComesBack;
    var rate, wave := phy.sampleRate, M.MessageWave(env, s, bits, phy, amp);
    var end := lead + |wave|;
    assert P.Copies(wave, 1) == wave;
    assert M.MessageSound(env, s, bits, 0, phy, amp) == wave;
    WaveIsKeyed(env, s, bits, phy, amp, lead, hist[..end]);
    assert hist[..end][..lead] == hist[..lead];
    EvenTrainIsReturned(s, bits, rate, amp, lead, end, hist);
  }

  lemma EvenTrainIsReturned<Iq>(
      s: M.Scheme, bits: seq<bool>, rate: real, amp: real, lead: nat, end: nat, hist: seq<Sample<Iq>>)
    requires s.Ook? && M.ValidScheme(s) && 0.0 <= rate && Receivable(s, rate) && |bits| % 2 == 0 && bits != []
    requires Received(LengthsOf(s, bits, amp, rate), lead, end, hist)
    requires StopCount(s, rate) < SAMPLES_UNDER_THRS && end + Silence(CoalescingCount(rate)) <= |hist|
    ensures var shorter, finished := bits[..|bits| - 1], Run(CoalescingCount(rate), hist).finished;
            && |finished| == 1 && finished[0].origin == lead
            && ReturnedIff(finished[0].subs, [shorter], ComesBack(s, rate, shorter))
  {
    hide Run, LengthsOf, CoalescingCount, StopCount, Keyed, AllAre, Subs, Separable, PulseEnd, Receivable, LongPulses,
      Sum, ReturnedIff, ComesBack, PulseCount;
    var lens, coalesce, short := LengthsOf(s, bits, amp, rate), CoalescingCount(rate), StopCount(s, rate);
    var train, cut := lens[..|bits|], end - short;
    assert lens == train + [short];
    EvenTrain(s, bits, amp, rate);
    KeyedSnoc(train, short, lead, hist[..end]);
    assert hist[..end][..cut] == hist[..cut] && hist[..end][cut..] == hist[cut..end];
    KeyedLength(train, lead, hist[..cut]);
    if short == 0 {
      PulseEndInside(train);
      TrainIsReported(coalesce, train, lead, end, hist);
    } else {
      ShortPulseIsDropped(coalesce, train, lead, cut, short, hist);
    }
    OddBurstReturnedIff(s, rate, bits[..|bits| - 1], train, coalesce, hist, Run(coalesce, hist).finished[0]);
  }
}
