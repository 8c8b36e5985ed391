// The on-off keying demodulator: pulse and gap lengths become bits again.

module OokDemod {
  import opened Reception
  import opened Clusters

  /** What is known about the pulses, or about the gaps, of a burst. */
  datatype Channel = Channel(data: seq<nat>, points: (ConstellationPoint, ConstellationPoint), bps: nat)

  datatype Mapped = Bit(bit: bool) | NoBit | Unknown

  function MinOfTwo(x: real, y: real): real {
    if x < y then x else y
  }

  function MaxOfTwo(x: real, y: real): real {
    if x > y then x else y
  }

  function MinPos(ch: Channel): real {
    MinOfTwo(ch.points.0.pos, ch.points.1.pos)
  }

  function MaxPos(ch: Channel): real {
    MaxOfTwo(ch.points.0.pos, ch.points.1.pos)
  }

  function Abs(x: real): real {
    if x < 0.0 then -x else x
  }

  function Classify(ch: Channel, len: nat): Mapped {
    var dist := (MaxPos(ch) - MinPos(ch)) / 2.0;
    if ch.bps == 1 then
      if Abs(len as real - MinPos(ch)) < dist then Bit(false)
      else if Abs(len as real - MaxPos(ch)) < dist then Bit(true)
      else Unknown
    else if ch.bps == 0 then
      if len as real > ch.points.0.posMax as real * 1.5 then Unknown else NoBit
    else NoBit
  }

  /** Length `k` of a burst: pulses and gaps take turns. */
  function SymbolAt(on: Channel, off: Channel, k: nat): Mapped
    requires k / 2 < |on.data| && (k % 2 == 1 ==> k / 2 < |off.data|)
  {
    if k % 2 == 0 then Classify(on, on.data[k / 2]) else Classify(off, off.data[k / 2])
  }

  /** The first `n` symbols of a burst. */
  function Symbols(on: Channel, off: Channel, n: nat): (ms: seq<Mapped>)
    requires n <= 2 * |on.data| - 1 && n <= 2 * |off.data| + 1
    ensures |ms| == n
  {
    seq(n, k requires 0 <= k < n => SymbolAt(on, off, k))
  }

  datatype Decoder = Decoder(msgs: seq<seq<bool>>, current: seq<bool>)

  /** An unknown symbol ends the message in progress. */
  function Decode(ms: seq<Mapped>): Decoder
    decreases |ms|
  {
    if ms == [] then Decoder([], [])
    else
      var d := Decode(ms[..|ms| - 1]);
      match ms[|ms| - 1]
      case Bit(bit) => d.(current := d.current + [bit])
      case NoBit => d
      case Unknown => Flush(d)
  }

  function Flush(d: Decoder): Decoder {
    if d.current == [] then d else Decoder(d.msgs + [d.current], [])
  }

  lemma DecodeSnoc(ms: seq<Mapped>, last: Mapped)
    ensures Decode(ms + [last]) == match last
              case Bit(bit) => Decode(ms).(current := Decode(ms).current + [bit])
              case NoBit => Decode(ms)
              case Unknown => Flush(Decode(ms))
  {
    assert (ms + [last])[..|ms|] == ms;
  }

  // --------------------------------------------------------- what decoding means

  function BitsOf(ms: seq<Mapped>): seq<bool>
    decreases |ms|
  {
    if ms == [] then []
    else BitsOf(ms[..|ms| - 1]) + if ms[|ms| - 1].Bit? then [ms[|ms| - 1].bit] else []
  }

  function Concat(msgs: seq<seq<bool>>): seq<bool>
    decreases |msgs|
  {
    if msgs == [] then [] else Concat(msgs[..|msgs| - 1]) + msgs[|msgs| - 1]
  }

  lemma ConcatSnoc(msgs: seq<seq<bool>>, m: seq<bool>)
    ensures Concat(msgs + [m]) == Concat(msgs) + m
  {
    assert (msgs + [m])[..|msgs|] == msgs;
  }

  /** Every recognised bit ends up in exactly one message, in order, and no message is
      empty. */
  lemma {:induction false} DecodeKeepsBits(ms: seq<Mapped>)
    ensures Concat(Decode(ms).msgs) + Decode(ms).current == BitsOf(ms)
    ensures forall i :: 0 <= i < |Decode(ms).msgs| ==> Decode(ms).msgs[i] != []
    decreases |ms|
  {
    if ms == [] {
    } else {
      var before := Decode(ms[..|ms| - 1]);
      DecodeKeepsBits(ms[..|ms| - 1]);
      ConcatSnoc(before.msgs, before.current);
    }
  }

  /** Without unknown symbols there is one message: all the bits. */
  lemma {:induction false} NothingUnknownNothingSplit(ms: seq<Mapped>)
    requires forall i :: 0 <= i < |ms| ==> ms[i] != Unknown
    ensures Decode(ms) == Decoder([], BitsOf(ms))
    decreases |ms|
  {
    if ms == [] {
    } else {
      NothingUnknownNothingSplit(ms[..|ms| - 1]);
    }
  }

  /** An unknown symbol starts decoding afresh behind it. */
  lemma {:induction false} UnknownSplits(before: seq<Mapped>, after: seq<Mapped>)
    ensures var left, right := Flush(Decode(before)), Decode(after);
            Decode(before + [Unknown] + after) == Decoder(left.msgs + right.msgs, right.current)
    decreases |after|
  {
    var whole := before + [Unknown] + after;
    if after == [] {
      assert whole[..|whole| - 1] == before;
    } else {
      UnknownSplits(before, after[..|after| - 1]);
      assert whole[..|whole| - 1] == before + [Unknown] + after[..|after| - 1];
    }
  }

  // ------------------------------------------------------------- the round trip

  /** Two lengths, apart from each other, that stand for zero and one. */
  predicate TwoLengths(ch: Channel) {
    ch.bps == 1 && ch.points.0.pos != ch.points.1.pos
  }

  /** The shorter length stands for zero. */
  function SentLength(ch: Channel, bit: bool): real {
    if bit then MaxPos(ch) else MinPos(ch)
  }

  /** A measured length that is off by less than half the spacing. */
  predicate WithinJitter(ch: Channel, len: nat, bit: bool) {
    2.0 * Abs(len as real - SentLength(ch, bit)) < MaxPos(ch) - MinPos(ch)
  }

  lemma JitterIsCorrected(ch: Channel, len: nat, bit: bool)
    requires TwoLengths(ch)
    ensures Classify(ch, len) == Bit(bit) <==> WithinJitter(ch, len, bit)
  {
  }

  /** The measured lengths of a message whose bits are sent as on and off in turns. */
  ghost predicate Measured(on: Channel, off: Channel, bits: seq<bool>) {
    && |bits| <= 2 * |on.data| - 1 && |bits| <= 2 * |off.data| + 1
    && forall k :: 0 <= k < |bits| ==>
         if k % 2 == 0 then WithinJitter(on, on.data[k / 2], bits[k]) else WithinJitter(off, off.data[k / 2], bits[k])
  }

  lemma MeasuredSymbols(on: Channel, off: Channel, bits: seq<bool>)
    requires TwoLengths(on) && TwoLengths(off) && Measured(on, off, bits)
    ensures forall k :: 0 <= k < |bits| ==> Symbols(on, off, |bits|)[k] == Bit(bits[k])
  {
    forall k | 0 <= k < |bits|
      ensures Symbols(on, off, |bits|)[k] == Bit(bits[k])
    {
      var len := if k % 2 == 0 then on.data[k / 2] else off.data[k / 2];
      JitterIsCorrected(if k % 2 == 0 then on else off, len, bits[k]);
    }
  }

  lemma {:induction false} BitsOfBits(ms: seq<Mapped>, bits: seq<bool>)
    requires |ms| == |bits| && forall k :: 0 <= k < |bits| ==> ms[k] == Bit(bits[k])
    ensures BitsOf(ms) == bits
    decreases |ms|
  {
    if ms == [] {
    } else {
      BitsOfBits(ms[..|ms| - 1], bits[..|bits| - 1]);
    }
  }

  /** The messages `Demod` returns for a burst. */
  function Demodulated(on: Channel, off: Channel): seq<seq<bool>>
    requires 0 < |on.data| <= |off.data| + 1
  {
    Flush(Decode(Symbols(on, off, 2 * |on.data| - 1))).msgs
  }

  /** Nothing is recognised that is not there, and as many bits as symbols are recognised
      only when every symbol is one. */
  lemma {:induction false} BitsOfFull(ms: seq<Mapped>)
    ensures |BitsOf(ms)| <= |ms|
    ensures |BitsOf(ms)| == |ms| ==> forall k :: 0 <= k < |ms| ==> ms[k] == Bit(BitsOf(ms)[k])
    decreases |ms|
  {
    if ms != [] {
      BitsOfFull(ms[..|ms| - 1]);
    }
  }

  lemma ConcatOne(m: seq<bool>)
    ensures Concat([m]) == m
  {
    assert [] + [m] == [m];
    ConcatSnoc([], m);
  }

  /** Exactly `bits` come back, as one message, if and only if every length is read as its
      bit. */
  lemma ExactlyTheBits(on: Channel, off: Channel, bits: seq<bool>)
    requires 0 < |on.data| <= |off.data| + 1 && |bits| == 2 * |on.data| - 1
    ensures Demodulated(on, off) == [bits] <==>
            forall k :: 0 <= k < |bits| ==> Symbols(on, off, |bits|)[k] == Bit(bits[k])
  {
    hide Symbols, Decode, BitsOf, Concat;
    var ms := Symbols(on, off, |bits|);
    var d := Decode(ms);
    DecodeKeepsBits(ms);
    BitsOfFull(ms);
    if forall k :: 0 <= k < |bits| ==> ms[k] == Bit(bits[k]) {
      BitsOfBits(ms, bits);
      NothingUnknownNothingSplit(ms);
    }
    if Demodulated(on, off) == [bits] {
      ConcatOne(bits);
      ConcatSnoc(d.msgs, d.current);
      assert d.current == [] ==> Concat(d.msgs) + [] == Concat(d.msgs);
      assert BitsOf(ms) == bits;
    }
  }

  /** A message of odd length ends with a pulse, and its stop symbol is the silence
      after it: it comes back exactly when every length is within the jitter bound. */
  lemma OddMessageRoundTrip(on: Channel, off: Channel, bits: seq<bool>)
    requires TwoLengths(on) && TwoLengths(off)
    requires |bits| == 2 * |on.data| - 1 && 0 < |on.data| <= |off.data| + 1
    ensures Demodulated(on, off) == [bits] <==> Measured(on, off, bits)
  {
    hide Classify, WithinJitter, Demodulated;
    ExactlyTheBits(on, off, bits);
    forall k | 0 <= k < |bits|
      ensures Symbols(on, off, |bits|)[k] == Bit(bits[k]) <==>
              if k % 2 == 0 then WithinJitter(on, on.data[k / 2], bits[k])
              else WithinJitter(off, off.data[k / 2], bits[k])
    {
      var len := if k % 2 == 0 then on.data[k / 2] else off.data[k / 2];
      JitterIsCorrected(if k % 2 == 0 then on else off, len, bits[k]);
    }
  }

  /** A message of even length ends with a gap, and its stop symbol is one more pulse.
      It comes back exactly when that pulse looks like neither of the two. */
  lemma EvenMessageRoundTrip(on: Channel, off: Channel, bits: seq<bool>)
    requires TwoLengths(on) && TwoLengths(off) && Measured(on, off, bits)
    requires |bits| == 2 * |on.data| - 2 && 0 < |on.data| <= |off.data| + 1 && bits != []
    ensures var stop := on.data[|on.data| - 1];
            && (Demodulated(on, off) == [bits] <==> !WithinJitter(on, stop, false) && !WithinJitter(on, stop, true))
            && (forall b :: WithinJitter(on, stop, b) ==> Demodulated(on, off) == [bits + [b]])
  {
    hide Classify, WithinJitter, Measured;
    var n, stop := |bits|, on.data[|on.data| - 1];
    var front := Symbols(on, off, n);
    MeasuredSymbols(on, off, bits);
    BitsOfBits(front, bits);
    NothingUnknownNothingSplit(front);
    SymbolsSnoc(on, off, n);
    LastSymbol(front, bits, Classify(on, stop));
    JitterIsCorrected(on, stop, false);
    JitterIsCorrected(on, stop, true);
    TwoLengthsNeverPass(on, stop);
  }

  lemma TwoLengthsNeverPass(ch: Channel, len: nat)
    requires TwoLengths(ch)
    ensures Classify(ch, len) != NoBit
  {
  }

  lemma SymbolsSnoc(on: Channel, off: Channel, n: nat)
    requires n + 1 <= 2 * |on.data| - 1 && n + 1 <= 2 * |off.data| + 1
    ensures Symbols(on, off, n + 1) == Symbols(on, off, n) + [SymbolAt(on, off, n)]
  {
  }

  lemma NoSymbols(on: Channel, off: Channel)
    requires on.data != []
    ensures Decode(Symbols(on, off, 0)) == Decoder([], [])
  {
  }

  lemma LastSymbol(front: seq<Mapped>, bits: seq<bool>, last: Mapped)
    requires Decode(front) == Decoder([], bits) && bits != []
    ensures var msgs := Flush(Decode(front + [last])).msgs;
            && (last == Unknown ==> msgs == [bits])
            && (last.Bit? ==> msgs == [bits + [last.bit]] && msgs != [bits])
  {
    assert (front + [last])[..|front|] == front;
    if last.Bit? {
      assert |[bits + [last.bit]][0]| != |[bits][0]|;
    }
  }

  // -------------------------------------------------------- pulses and gaps

  predicate InOrder(subs: seq<SubBurst>) {
    forall i, j :: 0 <= i < j < |subs| ==> subs[i].end <= subs[j].start
  }

  /** The gaps between sub-bursts; a sub-burst that ends at offset zero has none. */
  function Gaps(subs: seq<SubBurst>): seq<nat>
    requires InOrder(subs)
    decreases |subs|
  {
    if |subs| <= 1 then []
    else
      Gaps(subs[..|subs| - 1]) +
      if subs[|subs| - 2].end > 0 then [subs[|subs| - 1].start - subs[|subs| - 2].end] else []
  }

  /** The sub-bursts of the receiver have one gap fewer than pulses, each at least 21
      samples long, so demodulation never runs out of gaps. */
  lemma {:induction false} GapsOfChain(subs: seq<SubBurst>, i: nat)
    requires ClosedChain(subs) && subs != []
    ensures InOrder(subs) && |Gaps(subs)| == |subs| - 1
    ensures i < |subs| - 1 ==> Gaps(subs)[i] == subs[i + 1].start - subs[i].end && 21 <= Gaps(subs)[i]
    decreases |subs|
  {
    if |subs| == 1 {
    } else {
      var front := subs[..|subs| - 1];
      assert forall k :: 0 <= k < |front| ==> front[k] == subs[k];
      GapsOfChain(front, i);
      assert ClosedSub(subs[|subs| - 2]);
    }
  }

  function Lengths(subs: seq<SubBurst>): (lens: seq<nat>)
    ensures |lens| == |subs| && forall k :: 0 <= k < |subs| ==> lens[k] == subs[k].len
  {
    seq(|subs|, k requires 0 <= k < |subs| => subs[k].len)
  }
}
