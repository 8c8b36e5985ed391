// The on-off keying demodulator as an object, and how a burst finds its demodulator.

module OokDemodulator {
  import opened Slots
  import opened Reception
  import opened Clusters
  import opened Constellations
  import opened OokDemod
  import opened OokLearning

  /** The table of a constellation after some points. */
  function TableAfter(data: seq<nat>): nat
    decreases |data|
  {
    if data == [] then FIRST_SIZE else TableSizeFor(TableAfter(data[..|data| - 1]), data[|data| - 1])
  }

  /** No point falls just behind the table. */
  predicate HaveRoom(data: seq<nat>) {
    forall k :: 0 <= k < |data| ==> HasRoom(data, k)
  }

  predicate HasRoom(data: seq<nat>, k: nat)
    requires k < |data|
  {
    data[k] != TableAfter(data[..k]) && data[k] < INT32_MAX
  }

  /** The constellation has counted exactly these points. */
  ghost predicate Counted(c: Constellation, data: seq<nat>)
    reads c
  {
    && c.Valid() && c.prio == [] && c.posCount == |data| && |c.histPos| == TableAfter(data)
    && (data != [] ==> c.posMin == MinOf(data) && c.posMax == MaxOf(data) + 1)
    && forall i: nat :: c.GetHistAt(i) == Count(data, i)
  }

  lemma NothingBelowZero(data: seq<nat>, i: int)
    requires i < 0
    ensures Count(data, i) == 0
  {
  }

  lemma CountedCounts(c: Constellation, data: seq<nat>)
    requires Counted(c, data)
    ensures Counts(c.Histogram(IGNORE_UNDER), data)
  {
    hide Count;
    var h := c.Histogram(IGNORE_UNDER);
    forall i
      ensures BinAt(h, i) == Count(data, i)
    {
      if i < 0 {
        NothingBelowZero(data, i);
      } else {
        assert c.GetHistAt(i) == Count(data, i);
      }
    }
  }

  class Ook {
    var on: Channel
    var off: Channel

    constructor ()
      ensures on.data == off.data == []
    {
      var none := PointAt([], 0);
      on, off := Channel([], (none, none), 0), Channel([], (none, none), 0);
    }

    /** Adds a length to a constellation. */
    method AddLength(c: Constellation, ghost data: seq<nat>, x: nat)
      requires Counted(c, data) && x != TableAfter(data) && x < INT32_MAX
      modifies c
      ensures Counted(c, data + [x])
    {
      hide Count, MinOf, MaxOf;
      FirstBounds(data, x);
      assert (data + [x])[..|data|] == data;
      c.AddPoint(x);
      forall i: nat
        ensures c.GetHistAt(i) == Count(data + [x], i)
      {
        CountAppend(data, x, i);
      }
    }

    /** Puts the pulse and gap lengths of a burst in two vectors, and counts them. */
    method SplitLengths(subs: seq<SubBurst>, cOn: Constellation, cOff: Constellation)
      requires InOrder(subs) && HaveRoom(Lengths(subs)) && HaveRoom(Gaps(subs))
      requires cOn != cOff && Counted(cOn, []) && Counted(cOff, [])
      modifies this, cOn, cOff
      ensures on == old(on).(data := Lengths(subs)) && off == old(off).(data := Gaps(subs))
      ensures Counted(cOn, on.data) && Counted(cOff, off.data)
    {
      hide Counted, HaveRoom, Gaps, InOrder;
      on, off := on.(data := []), off.(data := []);
      var lastStop := 0;
      NoLengths(subs);
      for i := 0 to |subs|
        invariant on == old(on).(data := on.data) && off == old(off).(data := off.data)
        invariant InOrder(subs[..i]) && on.data == Lengths(subs[..i]) && off.data == Gaps(subs[..i])
        invariant Counted(cOn, on.data) && Counted(cOff, off.data)
        invariant lastStop == if i == 0 then 0 else subs[i - 1].end
      {
        GapsSnoc(subs, i);
        if lastStop > 0 {
          OrderAt(subs, i);
          var offLen := subs[i].start - lastStop;
          GapHasRoom(subs, i);
          AddLength(cOff, off.data, offLen);
          off := off.(data := off.data + [offLen]);
        }
        LengthHasRoom(subs, i);
        AddLength(cOn, on.data, subs[i].len);
        on := on.(data := on.data + [subs[i].len]);
        lastStop := subs[i].end;
      }
      assert subs[..|subs|] == subs;
    }

    /** The bits per symbol of the points of a constellation, and what they score. */
    method GetBPS(c: Constellation) returns (points: (ConstellationPoint, ConstellationPoint), bps: nat, score: nat)
      ensures points == TopTwo(c.prio) && bps == Bps(points) && score == if bps == 1 then 255 else 0
    {
      points := (c.MostProbabilisticPoint(0), c.MostProbabilisticPoint(1));
      var min := MinOfTwo(points.0.pos, points.1.pos);
      var max := MaxOfTwo(points.0.pos, points.1.pos);
      var share := points.0.proba + points.1.proba;
      if share >= 0.7 && points.1.proba >= 0.1 * share && max >= min * 1.5 {
        bps, score := 1, 255;
      } else if share >= 0.85 && max >= min * 1.8 && max <= min * 2.2 {
        bps, score := 1, 255;
      } else {
        bps, score := 0, 0;
      }
    }

    /** Learns the two lengths of the pulses and of the gaps of a burst, and says how
        likely the burst is to be keyed on and off. */
    method Likeliness(subs: seq<SubBurst>) returns (score: nat)
      requires InOrder(subs) && HaveRoom(Lengths(subs)) && HaveRoom(Gaps(subs))
      modifies this
      ensures LearnedFrom(subs, on, off) && score == Score(|subs|, on, off)
    {
      hide Counted, Learned, Ranked, AreClusters;
      var cOn := new Constellation();
      var cOff := new Constellation();
      NothingCounted(cOn);
      NothingCounted(cOff);
      SplitLengths(subs, cOn, cOff);
      var onFound := Rank(cOn, on.data);
      var offFound := Rank(cOff, off.data);
      var points, bps, scoreOn := GetBPS(cOn);
      on := on.(points := points, bps := bps);
      var scoreOff;
      points, bps, scoreOff := GetBPS(cOff);
      off := off.(points := points, bps := bps);
      IsLearned(on, cOn.prio);
      IsLearned(off, cOff.prio);
      score := (if scoreOn > scoreOff then scoreOn else scoreOff) / 2;
      if |subs| > 10 {
        score := score + 128;
      }
    }

    /** The clusters of the lengths, with the most probable first. */
    method Rank(c: Constellation, ghost data: seq<nat>) returns (ghost found: seq<ConstellationPoint>)
      requires Counted(c, data)
      modifies c
      ensures Ranked(data, c.prio)
    {
      hide Count, MinOf, MaxOf, AreClusters, Descending;
      CountedCounts(c, data);
      ghost var h := c.Histogram(IGNORE_UNDER);
      found := c.Clusterize(SAMPLE_DIST_MAX, IGNORE_UNDER);
      assert [] + found == found;
      assert ClustersOf(data, h, found);
    }

    /** Appends the bit of a length to the message, unless the length is unknown. */
    method MapSymbol(m: seq<bool>, ch: Channel, len: nat) returns (m': seq<bool>, ok: bool)
      ensures ok <==> Classify(ch, len) != Unknown
      ensures m' == match Classify(ch, len) case Bit(b) => m + [b] case _ => m
    {
      m' := m;
      var min := if ch.points.0.pos < ch.points.1.pos then ch.points.0.pos else ch.points.1.pos;
      var max := if ch.points.0.pos > ch.points.1.pos then ch.points.0.pos else ch.points.1.pos;
      var distMax := (max - min) / 2.0;
      if ch.bps == 1 {
        if Abs(len as real - min) < distMax {
          m' := m + [false];
        } else if Abs(len as real - max) < distMax {
          m' := m + [true];
        } else {
          return m, false;
        }
      } else if ch.bps == 0 {
        if len as real > ch.points.0.posMax as real * 1.5 {
          return m, false;
        }
      }
      ok := true;
    }

    /** One length: an unknown one puts the message in progress away. */
    method DecodeSymbol(msgs: seq<seq<bool>>, m: seq<bool>, ch: Channel, len: nat, ghost ms: seq<Mapped>)
      returns (msgs': seq<seq<bool>>, m': seq<bool>)
      requires Decode(ms) == Decoder(msgs, m)
      ensures Decode(ms + [Classify(ch, len)]) == Decoder(msgs', m')
    {
      assert (ms + [Classify(ch, len)])[..|ms|] == ms;
      var ok;
      msgs' := msgs;
      m', ok := MapSymbol(m, ch, len);
      if !ok && |m'| > 0 {
        msgs' := msgs + [m'];
        m' := [];
      }
    }

    /** All the messages of a burst. */
    method Demod() returns (msgs: seq<seq<bool>>)
      requires 0 < |on.data| <= |off.data| + 1
      ensures msgs == Demodulated(on, off)
    {
      hide Symbols, Decode, Classify;
      var m: seq<bool> := [];
      msgs := [];
      NoSymbols(on, off);
      var n := |on.data|;
      for i := 0 to n - 1
        invariant Decode(Symbols(on, off, 2 * i)) == Decoder(msgs, m)
      {
        SymbolsSnoc(on, off, 2 * i);
        SymbolsSnoc(on, off, 2 * i + 1);
        assert SymbolAt(on, off, 2 * i) == Classify(on, on.data[i]);
        assert SymbolAt(on, off, 2 * i + 1) == Classify(off, off.data[i]);
        msgs, m := DecodeSymbol(msgs, m, on, on.data[i], Symbols(on, off, 2 * i));
        msgs, m := DecodeSymbol(msgs, m, off, off.data[i], Symbols(on, off, 2 * i + 1));
      }
      SymbolsSnoc(on, off, 2 * n - 2);
      DecodeSnoc(Symbols(on, off, 2 * n - 2), Classify(on, on.data[n - 1]));
      var ok;
      m, ok := MapSymbol(m, on, on.data[n - 1]);
      if |m| > 0 {
        msgs := msgs + [m];
      }
    }
  }

  lemma FirstBounds(data: seq<nat>, x: nat)
    ensures MinOf(data + [x]) == if data == [] then x else Min(MinOf(data), x)
    ensures MaxOf(data + [x]) == if data == [] then x else Max(MaxOf(data), x)
  {
    assert (data + [x])[..|data|] == data;
  }

  lemma NoLengths(subs: seq<SubBurst>)
    ensures InOrder(subs[..0]) && Lengths(subs[..0]) == [] && Gaps(subs[..0]) == []
  {
  }

  lemma OrderAt(subs: seq<SubBurst>, i: nat)
    requires InOrder(subs) && 0 < i < |subs|
    ensures subs[i - 1].end <= subs[i].start
  {
  }

  lemma NothingCounted(c: Constellation)
    requires c.Valid() && c.prio == [] && c.posCount == 0 && |c.histPos| == FIRST_SIZE
    ensures Counted(c, [])
  {
    forall i: nat
      ensures c.GetHistAt(i) == 0
    {
    }
  }

  lemma IsLearned(ch: Channel, prio: seq<ConstellationPoint>)
    requires Ranked(ch.data, prio) && ch.points == TopTwo(prio) && ch.bps == Bps(ch.points)
    ensures Learned(ch.data, ch)
  {
  }

  /** The length of sub-burst `i` has room behind those before it. */
  lemma LengthHasRoom(subs: seq<SubBurst>, i: nat)
    requires i < |subs| && HaveRoom(Lengths(subs))
    ensures var before := Lengths(subs[..i]);
            subs[i].len != TableAfter(before) && subs[i].len < INT32_MAX
    ensures Lengths(subs[..i + 1]) == Lengths(subs[..i]) + [subs[i].len]
  {
    hide TableAfter;
    assert HasRoom(Lengths(subs), i);
    assert Lengths(subs)[..i] == Lengths(subs[..i]);
  }

  lemma {:induction false} GapsOfFront(subs: seq<SubBurst>, i: nat)
    requires InOrder(subs) && i <= |subs|
    ensures InOrder(subs[..i]) && Gaps(subs[..i]) <= Gaps(subs)
    decreases |subs|
  {
    if i < |subs| {
      GapsOfFront(subs[..|subs| - 1], i);
      assert subs[..|subs| - 1][..i] == subs[..i];
    } else {
      assert subs[..i] == subs;
    }
  }

  lemma GapsSnoc(subs: seq<SubBurst>, i: nat)
    requires InOrder(subs) && i < |subs|
    ensures InOrder(subs[..i]) && InOrder(subs[..i + 1])
    ensures Gaps(subs[..i + 1]) ==
            Gaps(subs[..i]) + if i > 0 && subs[i - 1].end > 0 then [subs[i].start - subs[i - 1].end] else []
  {
    assert subs[..i + 1][..i] == subs[..i];
  }

  lemma HasRoomInPrefix(data: seq<nat>, before: seq<nat>, x: nat)
    requires before + [x] <= data && HaveRoom(data)
    ensures x != TableAfter(before) && x < INT32_MAX
  {
    hide TableAfter;
    assert HasRoom(data, |before|);
    assert data[..|before|] == before && data[|before|] == (before + [x])[|before|];
  }

  /** The gap before sub-burst `i` has room behind those before it. */
  lemma GapHasRoom(subs: seq<SubBurst>, i: nat)
    requires InOrder(subs) && 0 < i < |subs| && subs[i - 1].end > 0 && HaveRoom(Gaps(subs))
    ensures InOrder(subs[..i])
    ensures var gap := subs[i].start - subs[i - 1].end;
            gap != TableAfter(Gaps(subs[..i])) && gap < INT32_MAX
  {
    hide TableAfter, HaveRoom, Gaps;
    GapsSnoc(subs, i);
    GapsOfFront(subs, i + 1);
    HasRoomInPrefix(Gaps(subs), Gaps(subs[..i]), subs[i].start - subs[i - 1].end);
  }

  // ------------------------------------------------------ choosing a demodulator

  /** What becomes of a burst: messages, or a burst for the phase-shift demodulator. */
  datatype Outcome = ByOok(msgs: seq<seq<bool>>) | ByPsk

  /** The score of the phase-shift demodulator, whatever the burst. */
  const PSK_SCORE: nat := 255

  /** The first demodulator that is sure of itself, or else the one with the best score. */
  method Fittest(scores: seq<nat>) returns (fittest: nat, bestScore: nat)
    requires scores != [] && forall k :: 0 <= k < |scores| ==> scores[k] <= 255
    ensures fittest < |scores| && bestScore == scores[fittest]
    ensures forall k :: 0 <= k < |scores| ==> scores[k] <= bestScore
    ensures forall k :: 0 <= k < fittest ==> scores[k] < bestScore
  {
    fittest, bestScore := 0, scores[0];
    var i := 0;
    while i < |scores|
      invariant i <= |scores| && fittest < |scores| && bestScore == scores[fittest]
      invariant i == 0 ==> fittest == 0
      invariant i > 0 ==> fittest < i
      invariant forall k :: 0 <= k < i ==> scores[k] <= bestScore
      invariant forall k :: 0 <= k < fittest ==> scores[k] < bestScore
    {
      if i == 0 || scores[i] > bestScore {
        fittest, bestScore := i, scores[i];
      }
      if scores[i] == 255 {
        return;
      }
      i := i + 1;
    }
  }

  /** What becomes of a burst from which the demodulator has learned this. */
  ghost predicate Becomes(subs: seq<SubBurst>, on: Channel, off: Channel, outcome: Outcome) {
    && LearnedFrom(subs, on, off)
    && match outcome
       case ByOok(msgs) => Returned(subs, on, off, msgs)
       case ByPsk => !Chosen(|subs|, on, off)
  }

  /** Every burst finds a demodulator that is sure of itself: this one if it is, and the
      phase-shift demodulator otherwise. */
  method ProcessBurst(subs: seq<SubBurst>) returns (outcome: Outcome)
    requires ClosedChain(subs) && subs != [] && InOrder(subs) && HaveRoom(Lengths(subs)) && HaveRoom(Gaps(subs))
    ensures exists on, off :: Becomes(subs, on, off, outcome)
  {
    hide Learned, ClosedChain, Demodulated;
    GapsOfChain(subs, 0);
    var ook := new Ook();
    var score := ook.Likeliness(subs);
    LearnedData(subs, ook.on, ook.off);
    ghost var on, off := ook.on, ook.off;
    var scores := [score, PSK_SCORE];
    assert scores[0] == score && scores[1] == 255;
    var fittest, bestScore := Fittest(scores);
    if fittest == 0 {
      var msgs := ook.Demod();
      outcome := ByOok(msgs);
    } else {
      outcome := ByPsk;
    }
    assert Becomes(subs, on, off, outcome);
  }

  lemma LearnedData(subs: seq<SubBurst>, on: Channel, off: Channel)
    requires LearnedFrom(subs, on, off)
    ensures on.data == Lengths(subs) && off.data == Gaps(subs)
  {
  }
}
