// On-off keying on one side: pulses of two lengths between gaps that carry nothing, or
// gaps of two lengths between such pulses. Long lengths in between part the messages.

module OneSided {
  import opened Reception
  import opened Clusters
  import opened Constellations
  import opened OokDemod
  import opened OokLearning
  import opened Activity

  /** The bits, in messages that end where there is a cut. */
  function Parted(bits: seq<bool>, cuts: seq<bool>): (msgs: seq<seq<bool>>)
    requires |bits| == |cuts| + 1
    ensures msgs != []
    decreases |cuts|
  {
    if cuts == [] then [bits]
    else
      var n := |cuts| - 1;
      var before := Parted(bits[..n + 1], cuts[..n]);
      if cuts[n] then before + [[bits[n + 1]]] else Front(before) + [Last(before) + [bits[n + 1]]]
  }

  /** Symbols of bits, with symbols in between that carry none. */
  ghost predicate Carries(ms: seq<Mapped>, bits: seq<bool>, cuts: seq<bool>)
    requires |bits| == |cuts| + 1
  {
    && |ms| == 2 * |bits| - 1
    && (forall k :: 0 <= k < |bits| ==> ms[2 * k] == Bit(bits[k]))
    && (forall k :: 0 <= k < |cuts| ==> ms[2 * k + 1] == if cuts[k] then Unknown else NoBit)
  }

  lemma PartedSnoc(bits: seq<bool>, cuts: seq<bool>, last: bool, cut: bool)
    requires |bits| == |cuts| + 1
    ensures var before := Parted(bits, cuts);
            Parted(bits + [last], cuts + [cut]) ==
              if cut then before + [[last]] else Front(before) + [Last(before) + [last]]
  {
    assert (bits + [last])[..|bits|] == bits && (cuts + [cut])[..|cuts|] == cuts;
  }

  /** Decoding parts the bits at the cuts. */
  lemma {:induction false} CarriedBits(ms: seq<Mapped>, bits: seq<bool>, cuts: seq<bool>)
    requires |bits| == |cuts| + 1 && Carries(ms, bits, cuts)
    ensures Decode(ms) == Decoder(Front(Parted(bits, cuts)), Last(Parted(bits, cuts))) && Decode(ms).current != []
    decreases |cuts|
  {
    hide Decode, Parted;
    if cuts == [] {
      FirstBit(ms, bits);
    } else {
      var n := |cuts| - 1;
      var front, before := ms[..2 * n + 1], Parted(bits[..n + 1], cuts[..n]);
      CarriedBits(front, bits[..n + 1], cuts[..n]);
      NextBit(front, before, cuts[n], bits[n + 1]);
      PartedSnoc(bits[..n + 1], cuts[..n], bits[n + 1], cuts[n]);
      assert bits == bits[..n + 1] + [bits[n + 1]] && cuts == cuts[..n] + [cuts[n]];
      assert ms == front + [ms[2 * n + 1]] + [ms[2 * n + 2]];
      assert ms[2 * n + 2] == ms[2 * (n + 1)];
    }
  }

  lemma FirstBit(ms: seq<Mapped>, bits: seq<bool>)
    requires |bits| == |ms| == 1 && ms[0] == Bit(bits[0])
    ensures Decode(ms) == Decoder([], bits) && Parted(bits, []) == [bits]
  {
    assert ms == [] + [Bit(bits[0])];
    DecodeSnoc([], Bit(bits[0]));
    assert bits == [] + [bits[0]];
  }

  /** One more bit, behind a symbol that carries none. */
  lemma NextBit(front: seq<Mapped>, before: seq<seq<bool>>, cut: bool, bit: bool)
    requires before != [] && Decode(front) == Decoder(Front(before), Last(before)) && Last(before) != []
    ensures var msgs := if cut then before + [[bit]] else Front(before) + [Last(before) + [bit]];
            Decode(front + [if cut then Unknown else NoBit] + [Bit(bit)]) == Decoder(Front(msgs), Last(msgs))
  {
    hide Decode;
    DecodeSnoc(front, if cut then Unknown else NoBit);
    DecodeSnoc(front + [if cut then Unknown else NoBit], Bit(bit));
    assert Front(before) + [Last(before)] == before;
  }

  /** Between symbols of which every second one carries no bit, all bits are found exactly
      when all the others carry one. */
  lemma {:induction false} EverySecond(ms: seq<Mapped>, n: nat)
    requires |ms| == 2 * n - 1 && forall k :: 0 <= k < n - 1 ==> !ms[2 * k + 1].Bit?
    ensures |BitsOf(ms)| <= n
    ensures |BitsOf(ms)| == n ==> forall k :: 0 <= k < n ==> ms[2 * k] == Bit(BitsOf(ms)[k])
    decreases n
  {
    if n == 1 {
      assert ms[..0] == [];
    } else {
      var front := ms[..2 * n - 3];
      EverySecond(front, n - 1);
      assert ms[..2 * n - 2][..2 * n - 3] == front;
      assert !ms[2 * (n - 2) + 1].Bit?;
      assert BitsOf(ms[..2 * n - 2]) == BitsOf(front);
    }
  }

  lemma {:induction false} PartedKeepsBits(bits: seq<bool>, cuts: seq<bool>)
    requires |bits| == |cuts| + 1
    ensures Concat(Parted(bits, cuts)) == bits
    decreases |cuts|
  {
    hide Parted, Concat;
    if cuts == [] {
      FirstBit([Bit(bits[0])], bits);
      ConcatOne(bits);
    } else {
      var n := |cuts| - 1;
      PartedKeepsBits(bits[..n + 1], cuts[..n]);
      PartedSnoc(bits[..n + 1], cuts[..n], bits[n + 1], cuts[n]);
      ConcatMore(Parted(bits[..n + 1], cuts[..n]), bits[n + 1]);
      assert bits == bits[..n + 1] + [bits[n + 1]] && cuts == cuts[..n] + [cuts[n]];
    }
  }

  lemma ConcatMore(before: seq<seq<bool>>, last: bool)
    requires before != []
    ensures Concat(before + [[last]]) == Concat(Front(before) + [Last(before) + [last]]) == Concat(before) + [last]
  {
    hide Concat;
    ConcatSnoc(before, [last]);
    ConcatSnoc(Front(before), Last(before));
    ConcatSnoc(Front(before), Last(before) + [last]);
    assert Front(before) + [Last(before)] == before;
  }

  /** The messages of symbols that carry bits in turns with others that do not. */
  lemma CarriedIff(ms: seq<Mapped>, bits: seq<bool>, cuts: seq<bool>)
    requires |bits| == |cuts| + 1 && |ms| == 2 * |bits| - 1
    requires forall k :: 0 <= k < |cuts| ==> ms[2 * k + 1] == if cuts[k] then Unknown else NoBit
    ensures Flush(Decode(ms)).msgs == Parted(bits, cuts) <==> forall k :: 0 <= k < |bits| ==> ms[2 * k] == Bit(bits[k])
  {
    hide Decode, Parted, BitsOf, Concat, Flush;
    if forall k :: 0 <= k < |bits| ==> ms[2 * k] == Bit(bits[k]) {
      CarriedBits(ms, bits, cuts);
      FlushParted(Decode(ms), Parted(bits, cuts));
    }
    if Flush(Decode(ms)).msgs == Parted(bits, cuts) {
      FlushedBits(ms);
      PartedKeepsBits(bits, cuts);
      forall k | 0 <= k < |bits| - 1
        ensures !ms[2 * k + 1].Bit?
      {
        assert ms[2 * k + 1] == if cuts[k] then Unknown else NoBit;
      }
      EverySecond(ms, |bits|);
    }
  }

  lemma FlushParted(d: Decoder, msgs: seq<seq<bool>>)
    requires msgs != [] && d == Decoder(Front(msgs), Last(msgs)) && d.current != []
    ensures Flush(d).msgs == msgs
  {
  }

  /** The messages hold all the bits. */
  lemma FlushedBits(ms: seq<Mapped>)
    ensures Concat(Flush(Decode(ms)).msgs) == BitsOf(ms)
  {
    hide Decode, BitsOf, Concat;
    var d := Decode(ms);
    DecodeKeepsBits(ms);
    ConcatSnoc(d.msgs, d.current);
    assert Concat(d.msgs) + [] == Concat(d.msgs);
  }

  // ------------------------------------------------------------------ one channel is silent

  /** Longer than one and a half times the end of the most probable lengths. */
  predicate TooLong(ch: Channel, len: nat) {
    2 * len > 3 * ch.points.0.posMax
  }

  lemma SilentLength(ch: Channel, len: nat)
    requires ch.bps == 0
    ensures Classify(ch, len) == if TooLong(ch, len) then Unknown else NoBit
  {
  }

  function TooLongOnes(ch: Channel, lens: seq<nat>): (cuts: seq<bool>)
    ensures |cuts| == |lens|
    ensures forall k :: 0 <= k < |lens| ==> (cuts[k] <==> TooLong(ch, lens[k]))
  {
    seq(|lens|, k requires 0 <= k < |lens| => TooLong(ch, lens[k]))
  }

  lemma SymbolsTakeTurns(on: Channel, off: Channel, k: nat)
    requires k < |on.data|
    ensures SymbolAt(on, off, 2 * k) == Classify(on, on.data[k])
    ensures k < |off.data| ==> SymbolAt(on, off, 2 * k + 1) == Classify(off, off.data[k])
  {
  }

  /** The pulses carry the bits: they come back, parted at the gaps that are too long,
      exactly when every pulse is within the jitter bound. */
  lemma PulsesCarryBits(on: Channel, off: Channel, bits: seq<bool>)
    requires TwoLengths(on) && off.bps == 0
    requires |bits| == |on.data| == |off.data| + 1
    ensures Demodulated(on, off) == Parted(bits, TooLongOnes(off, off.data)) <==>
            forall k :: 0 <= k < |bits| ==> WithinJitter(on, on.data[k], bits[k])
  {
    hide Classify, WithinJitter, Decode, Parted, TooLong, Flush, SymbolAt;
    var ms, cuts := Symbols(on, off, 2 * |bits| - 1), TooLongOnes(off, off.data);
    forall k | 0 <= k < |cuts|
      ensures ms[2 * k + 1] == if cuts[k] then Unknown else NoBit
    {
      SymbolsTakeTurns(on, off, k);
      SilentLength(off, off.data[k]);
    }
    forall k | 0 <= k < |bits|
      ensures ms[2 * k] == Bit(bits[k]) <==> WithinJitter(on, on.data[k], bits[k])
    {
      SymbolsTakeTurns(on, off, k);
      JitterIsCorrected(on, on.data[k], bits[k]);
    }
    CarriedIff(ms, bits, cuts);
  }

  /** A symbol without a bit does nothing before the first bit. */
  lemma {:induction false} NothingBefore(first: Mapped, ms: seq<Mapped>)
    requires !first.Bit?
    ensures Decode([first] + ms) == Decode(ms)
    decreases |ms|
  {
    if ms == [] {
      assert [first] + ms == [] + [first];
      DecodeSnoc([], first);
    } else {
      var front, last := ms[..|ms| - 1], ms[|ms| - 1];
      NothingBefore(first, front);
      DecodeSnoc(front, last);
      DecodeSnoc([first] + front, last);
      assert front + [last] == ms && [first] + front + [last] == [first] + ms;
    }
  }

  /** Nor behind the last one. */
  lemma NothingBehind(ms: seq<Mapped>, last: Mapped)
    requires !last.Bit?
    ensures Flush(Decode(ms + [last])).msgs == Flush(Decode(ms)).msgs
  {
    DecodeSnoc(ms, last);
  }

  /** The gaps carry the bits: they come back, parted at the pulses between them that are too
      long, exactly when every gap is within the jitter bound. */
  lemma GapsCarryBits(on: Channel, off: Channel, bits: seq<bool>)
    requires on.bps == 0 && TwoLengths(off)
    requires |bits| == |off.data| == |on.data| - 1 && bits != []
    ensures Demodulated(on, off) == Parted(bits, TooLongOnes(on, on.data[1..|bits|])) <==>
            forall k :: 0 <= k < |bits| ==> WithinJitter(off, off.data[k], bits[k])
  {
    hide Classify, WithinJitter, Decode, Parted, TooLong, Flush, SymbolAt;
    var n, whole := |bits|, Symbols(on, off, 2 * |bits| + 1);
    var ms, cuts := whole[1..2 * n], TooLongOnes(on, on.data[1..n]);
    forall k | 0 <= k < |cuts|
      ensures ms[2 * k + 1] == if cuts[k] then Unknown else NoBit
    {
      assert ms[2 * k + 1] == SymbolAt(on, off, 2 * (k + 1));
      SymbolsTakeTurns(on, off, k + 1);
      SilentLength(on, on.data[k + 1]);
    }
    forall k | 0 <= k < n
      ensures ms[2 * k] == Bit(bits[k]) <==> WithinJitter(off, off.data[k], bits[k])
    {
      assert ms[2 * k] == SymbolAt(on, off, 2 * k + 1);
      SymbolsTakeTurns(on, off, k);
      JitterIsCorrected(off, off.data[k], bits[k]);
    }
    CarriedIff(ms, bits, cuts);
    SilentLength(on, on.data[0]);
    SilentLength(on, on.data[n]);
    SymbolsTakeTurns(on, off, 0);
    SymbolsTakeTurns(on, off, n);
    NothingBefore(whole[0], ms);
    NothingBehind([whole[0]] + ms, whole[2 * n]);
    assert whole == [whole[0]] + ms + [whole[2 * n]];
  }

  // ----------------------------------------------------------------- what a burst teaches

  lemma KeptAreIn(h: Histogram, gap: nat, cs: seq<ConstellationPoint>, lo: int, hi: int, g: nat)
    requires AreClusters(h, gap, cs, lo, hi) && |cs| <= 1 && lo <= g < hi && Kept(h, g) > 0
    requires forall i :: Kept(h, i) > 0 ==> i == g
    ensures |cs| == 1 && cs[0].posMax == g + 1
  {
    hide Kept, IsCluster, AreClusters;
    var k := CoveredKept(h, gap, cs, lo, hi, g);
    ClusterEnds(h, gap, cs, lo, hi, 0);
  }

  /** One length more frequent than another, which is more than half longer: when they are not
      both learned, the end of the most probable lengths is the end of the frequent one. */
  lemma OneIsKnown(data: seq<nat>, ch: Channel, g: nat, w: nat)
    requires Learned(data, ch) && TwoValued(data, g, w) && 19 <= g && 3 * (g + 1) < 2 * w
    requires Count(data, w) < Count(data, g) && !Taught(g, w, Count(data, g), Count(data, w))
    ensures ch.bps == 0 && ch.points.0.posMax == g + 1
  {
    hide AreClusters, Bps, Count, Kept, Counts, Single, Gap, MinOf, MaxOf, Learned, Taught, GapOf;
    TaughtIff(data, ch, g, w);
    var h, cs, prio := LearnedGives(data, ch);
    CountPositive(data, g);
    CountsTotal(h, data);
    OnlyTwoKept(h, data, g, w);
    CountBoth(data, g, w);
    KeptIff(h, data, g);
    KeptIff(h, data, w);
    BoundsOf(data);
    if |cs| >= 2 {
      TwoClustersAreSingle(h, GapOf(data), cs, MinOf(data), MaxOf(data) + 1, g, w);
      FrequentFirst(h, prio, g, w);
    } else {
      if Kept(h, w) > 0 {
        FarApart(data, h, cs, g, w);
      }
      KeptAreIn(h, GapOf(data), cs, MinOf(data), MaxOf(data) + 1, g);
      ArrangedFew(prio, cs);
    }
  }

  lemma FrequentFirst(h: Histogram, prio: seq<ConstellationPoint>, g: nat, w: nat)
    requires Descending(prio) && multiset(prio) == multiset([Single(h, g), Single(h, w)])
    requires 0 < h.total && Kept(h, w) < Kept(h, g)
    ensures PointAt(prio, 0).posMax == g + 1
  {
    hide Kept;
    ArrangedTwo(prio, Single(h, g), Single(h, w));
    Smaller(Kept(h, w), Kept(h, g), h.total);
  }

  /** Both are kept, so they are two clusters. */
  lemma FarApart(data: seq<nat>, h: Histogram, cs: seq<ConstellationPoint>, g: nat, w: nat)
    requires ClustersOf(data, h, cs) && data != [] && TwoValued(data, g, w) && 19 <= g && 3 * g <= 2 * w
    requires Kept(h, g) > 0 && Kept(h, w) > 0
    ensures |cs| >= 2
  {
    hide AreClusters, Count, Kept, Counts, Gap;
    CountsTotal(h, data);
    KeptIff(h, data, g);
    KeptIff(h, data, w);
    BoundsOfTwo(data, g, w);
    OnlyTwoKept(h, data, g, w);
    RatioSeparates(g, w);
    TwoClusters(h, GapOf(data), cs, g, w + 1, g, w);
  }

  // ------------------------------------------------------------------- whole bursts

  /** The gaps of a burst are of one length, and of a rarer one that is more than half
      longer; they do not teach two lengths. */
  ghost predicate OneUsual(data: seq<nat>, g: nat, w: nat) {
    && TwoValued(data, g, w) && 19 <= g && 3 * (g + 1) < 2 * w
    && Count(data, w) < Count(data, g) && !Taught(g, w, Count(data, g), Count(data, w))
  }

  /** The lengths of some bits. */
  ghost predicate KeyedAs(data: seq<nat>, bits: seq<bool>, a: nat, b: nat) {
    |data| == |bits| && forall k :: 0 <= k < |bits| ==> data[k] == if bits[k] then b else a
  }

  /** Where a long length stands. */
  function Longs(data: seq<nat>, w: nat): (cuts: seq<bool>)
    ensures |cuts| == |data|
  {
    seq(|data|, k requires 0 <= k < |data| => data[k] == w)
  }

  lemma LongsAreTooLong(ch: Channel, data: seq<nat>, g: nat, w: nat)
    requires TwoValued(data, g, w) && 3 * (g + 1) < 2 * w && ch.points.0.posMax == g + 1
    ensures TooLongOnes(ch, data) == Longs(data, w)
  {
    forall k | 0 <= k < |data|
      ensures TooLongOnes(ch, data)[k] == Longs(data, w)[k]
    {
      assert data[k] == g || data[k] == w;
    }
  }

  lemma KeyedIsTwoValued(data: seq<nat>, bits: seq<bool>, a: nat, b: nat)
    requires KeyedAs(data, bits, a, b)
    ensures TwoValued(data, a, b)
  {
  }

  lemma ExactIsWithinJitter(ch: Channel, data: seq<nat>, bits: seq<bool>, a: nat, b: nat)
    requires ch.data == data && KeyedAs(data, bits, a, b) && a < b && MinPos(ch) == a as real && MaxPos(ch) == b as real
    ensures forall k :: 0 <= k < |bits| ==> WithinJitter(ch, ch.data[k], bits[k])
  {
  }

  /** A burst whose pulses carry the bits is returned as its messages, which end at the long
      gaps, exactly when it has more than ten pulses and they teach their two lengths. */
  lemma PulseKeyedComesBack(
      subs: seq<SubBurst>, on: Channel, off: Channel, bits: seq<bool>, a: nat, b: nat, g: nat, w: nat)
    requires ClosedChain(subs) && subs != [] && LearnedFrom(subs, on, off)
    requires KeyedAs(Lengths(subs), bits, a, b) && 19 <= a < b && OneUsual(Gaps(subs), g, w)
    ensures |bits| == |Gaps(subs)| + 1
    ensures Returned(subs, on, off, Parted(bits, Longs(Gaps(subs), w))) <==>
            |subs| > 10 && Taught(a, b, Count(Lengths(subs), a), Count(Lengths(subs), b))
  {
    hide Learned, Count, Taught, Parted, Gaps, ClosedChain, Demodulated, WithinJitter, TooLong, MinPos, MaxPos, InOrder;
    GapsOfChain(subs, 0);
    KeyedIsTwoValued(Lengths(subs), bits, a, b);
    TaughtIff(Lengths(subs), on, a, b);
    OneIsKnown(Gaps(subs), off, g, w);
    ChosenIff(|subs|, on, off);
    LearnedFields(Lengths(subs), on);
    LearnedFields(Gaps(subs), off);
    if on.bps == 1 {
      Different(on, a, b);
      LongsAreTooLong(off, Gaps(subs), g, w);
      PulsesCarryBits(on, off, bits);
      ExactIsWithinJitter(on, Lengths(subs), bits, a, b);
    }
  }

  lemma LearnedFields(data: seq<nat>, ch: Channel)
    requires Learned(data, ch)
    ensures ch.data == data && ch.bps <= 1
  {
  }

  lemma Different(ch: Channel, a: nat, b: nat)
    requires ch.bps == 1 && MinPos(ch) == a as real && MaxPos(ch) == b as real && a < b
    ensures TwoLengths(ch)
  {
  }

  /** The same for a burst whose gaps carry the bits: its messages end at the long pulses
      between them. */
  lemma GapKeyedComesBack(
      subs: seq<SubBurst>, on: Channel, off: Channel, bits: seq<bool>, a: nat, b: nat, g: nat, w: nat)
    requires ClosedChain(subs) && |subs| > 1 && LearnedFrom(subs, on, off)
    requires KeyedAs(Gaps(subs), bits, a, b) && 19 <= a < b && OneUsual(Lengths(subs), g, w)
    ensures |bits| == |subs| - 1
    ensures Returned(subs, on, off, Parted(bits, Longs(Lengths(subs)[1..|bits|], w))) <==>
            |subs| > 10 && Taught(a, b, Count(Gaps(subs), a), Count(Gaps(subs), b))
  {
    hide Learned, Count, Taught, Parted, Gaps, ClosedChain, Demodulated, WithinJitter, TooLong, MinPos, MaxPos, InOrder;
    GapsOfChain(subs, 0);
    KeyedIsTwoValued(Gaps(subs), bits, a, b);
    TaughtIff(Gaps(subs), off, a, b);
    OneIsKnown(Lengths(subs), on, g, w);
    ChosenIff(|subs|, on, off);
    LearnedFields(Lengths(subs), on);
    LearnedFields(Gaps(subs), off);
    if off.bps == 1 {
      Different(off, a, b);
      LongsAreTooLong(on, Lengths(subs)[1..|bits|], g, w);
      GapsCarryBits(on, off, bits);
      ExactIsWithinJitter(off, Gaps(subs), bits, a, b);
    }
  }
}
