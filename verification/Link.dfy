// From bits to bits: a message that is compiled and played by the on-off modulation, heard
// by the time-domain receiver in blocks of any size, and demodulated with what the
// demodulator learns from it.

module Link {
  import opened Basics
  import opened Slots
  import opened Sums
  import opened Reception
  import opened PulseTrains
  import opened OokDemod
  import opened OokLearning
  import opened KeyedSounds
  import opened OokDemodulator
  import Clusters
  import Constellations
  import Activity
  import TimeDomain
  import S = Synthesis
  import P = Program
  import M = Modulations

  // ------------------------------------------------------------- what is agreed on

  /** The timing suits the receiver: it keeps every pulse, and every gap parts two
      pulses without ending the burst. */
  predicate Receivable(s: M.Scheme, rate: real)
    requires s.Ook? && M.ValidScheme(s) && 0.0 <= rate
  {
    forall bit ::
      && SAMPLES_UNDER_THRS <= PulseCount(s.on, rate, bit)
      && SAMPLES_UNDER_THRS < PulseCount(s.off, rate, bit) < Silence(CoalescingCount(rate))
  }

  /** Transmitter and receiver agree on the rate, and the amplitude is large enough. */
  ghost predicate Tuned(env: S.Env, s: M.Scheme, rate: real, amp: real) {
    s.Ook? && M.ValidScheme(s) && 0.0 < rate && Audible(env, amp) && Receivable(s, rate)
  }

  /** The lengths of a message of odd length, whose stop symbol is a gap, or of one whose
      stop symbol is a pulse that is kept. */
  lemma MessageIsSeparable(s: M.Scheme, bits: seq<bool>, amp: real, rate: real)
    requires s.Ook? && M.ValidScheme(s) && 0.0 <= rate && Receivable(s, rate)
    requires |bits| % 2 == 1 || SAMPLES_UNDER_THRS <= StopCount(s, rate)
    ensures Separable(CoalescingCount(rate), LengthsOf(s, bits, amp, rate))
  {
    hide PulseCount, LengthsOf, CoalescingCount, StopCount;
    var lens := LengthsOf(s, bits, amp, rate);
    forall k | 0 <= k < |lens|
      ensures SeparableAt(CoalescingCount(rate), lens, k)
    {
      if k < |bits| {
        assert lens[k] == PulseCount(PulseOf(s, k), rate, bits[k]);
      }
    }
  }

  lemma FinishedIsChain<Iq>(coalesce: nat, hist: seq<Sample<Iq>>, f: Finished<Iq>)
    requires f in Run(coalesce, hist).finished
    ensures ClosedChain(f.subs) && f.subs != []
  {
  }

  // ------------------------------------------------------ what a message teaches

  /** The bits that are sent as pulses. */
  function PulseBits(bits: seq<bool>): (bs: seq<bool>)
    ensures |bs| == (|bits| + 1) / 2 && forall k :: 0 <= k < |bs| ==> bs[k] == bits[2 * k]
  {
    seq((|bits| + 1) / 2, k requires 0 <= k < (|bits| + 1) / 2 => bits[2 * k])
  }

  /** The bits that are sent as gaps. */
  function GapBits(bits: seq<bool>): (bs: seq<bool>)
    ensures |bs| == |bits| / 2 && forall k :: 0 <= k < |bs| ==> bs[k] == bits[2 * k + 1]
  {
    seq(|bits| / 2, k requires 0 <= k < |bits| / 2 => bits[2 * k + 1])
  }

  function HowMany(bs: seq<bool>, b: bool): nat {
    if bs == [] then 0 else HowMany(bs[..|bs| - 1], b) + if bs[|bs| - 1] == b then 1 else 0
  }

  /** How a pulse, or a gap, is measured: one sample short, or long. */
  function MeasuredPulse(s: M.Scheme, rate: real, bit: bool): nat
    requires s.Ook? && M.ValidScheme(s) && 0.0 <= rate
  {
    var n := PulseCount(s.on, rate, bit);
    if n == 0 then 0 else n - 1
  }

  function MeasuredGap(s: M.Scheme, rate: real, bit: bool): nat
    requires s.Ook? && M.ValidScheme(s) && 0.0 <= rate
  {
    PulseCount(s.off, rate, bit) + 1
  }

  /** Some bits teach the lengths that stand for zero and for one: zero is shorter, both
      occur, neither is too rare, and the lengths are far enough from each other. */
  predicate Teaches(bs: seq<bool>, zero: nat, one: nat) {
    zero < one && Taught(zero, one, HowMany(bs, false), HowMany(bs, true))
  }

  /** A message that comes back: long enough for more than ten pulses, and its pulses and
      its gaps teach their lengths. */
  predicate ComesBack(s: M.Scheme, rate: real, bits: seq<bool>)
    requires s.Ook? && M.ValidScheme(s) && 0.0 <= rate
  {
    && |bits| > 20
    && Teaches(PulseBits(bits), MeasuredPulse(s, rate, false), MeasuredPulse(s, rate, true))
    && Teaches(GapBits(bits), MeasuredGap(s, rate, false), MeasuredGap(s, rate, true))
  }

  /** The lengths of some bits. */
  ghost predicate LengthsFor(data: seq<nat>, bs: seq<bool>, zero: nat, one: nat) {
    |data| == |bs| && forall k :: 0 <= k < |bs| ==> data[k] == if bs[k] then one else zero
  }

  lemma {:induction false} CountOfBits(data: seq<nat>, bs: seq<bool>, zero: nat, one: nat)
    requires LengthsFor(data, bs, zero, one) && zero != one
    ensures Count(data, zero) == HowMany(bs, false) && Count(data, one) == HowMany(bs, true)
    decreases |bs|
  {
    if bs != [] {
      CountOfBits(data[..|data| - 1], bs[..|bs| - 1], zero, one);
    }
  }

  lemma {:induction false} ManyOccur(bs: seq<bool>, b: bool)
    requires HowMany(bs, b) > 0
    ensures exists k :: 0 <= k < |bs| && bs[k] == b
    decreases |bs|
  {
    var n := |bs| - 1;
    if bs[n] != b {
      ManyOccur(bs[..n], b);
      var k :| 0 <= k < n && bs[..n][k] == b;
      assert bs[k] == b;
    }
  }

  lemma {:induction false} NoneOccur(bs: seq<bool>, b: bool)
    requires forall k :: 0 <= k < |bs| ==> bs[k] != b
    ensures HowMany(bs, b) == 0
    decreases |bs|
  {
    if bs != [] {
      NoneOccur(bs[..|bs| - 1], b);
    }
  }

  /** Two lengths that have been learned are told apart, the shorter one as zero. */
  lemma LearnedLengths(ch: Channel, a: nat, b: nat)
    requires ch.bps == 1 && MinPos(ch) == a as real && MaxPos(ch) == b as real && a < b
    ensures Classify(ch, a) == Bit(false) && Classify(ch, b) == Bit(true)
  {
  }

  lemma OnlyOneBitPerSymbol(ch: Channel, len: nat)
    requires ch.bps == 0
    ensures !Classify(ch, len).Bit?
  {
  }

  /** A channel reads its own bits if and only if they teach it. */
  lemma ChannelReads(data: seq<nat>, ch: Channel, bs: seq<bool>, zero: nat, one: nat)
    requires OokLearning.Learned(data, ch) && LengthsFor(data, bs, zero, one) && bs != []
    requires 19 <= zero && 19 <= one
    ensures (forall k :: 0 <= k < |bs| ==> Classify(ch, data[k]) == Bit(bs[k])) <==> Teaches(bs, zero, one)
    ensures Teaches(bs, zero, one) ==> ch.bps == 1
  {
    hide OokLearning.Learned, Classify, HowMany, Count, Taught, MinPos, MaxPos;
    if zero == one {
      OneLengthIsNotTaught(data, ch, zero);
      OnlyOneBitPerSymbol(ch, data[0]);
    } else {
      CountOfBits(data, bs, zero, one);
      var a, b := if zero < one then zero else one, if zero < one then one else zero;
      TaughtIff(data, ch, a, b);
      if ch.bps == 1 {
        LearnedLengths(ch, a, b);
        if one < zero {
          BothOccur(a, b, HowMany(bs, true), HowMany(bs, false));
          ManyOccur(bs, false);
        }
      } else {
        OnlyOneBitPerSymbol(ch, data[0]);
      }
    }
  }

  lemma BothOccur(a: nat, b: nat, as_: nat, bs: nat)
    requires Taught(a, b, as_, bs)
    ensures 0 < as_ && 0 < bs
  {
  }

  /** The lengths of a train that begins with those of some bits. */
  ghost predicate Sends(s: M.Scheme, rate: real, bits: seq<bool>, lens: seq<nat>)
    requires s.Ook? && M.ValidScheme(s) && 0.0 <= rate
  {
    |bits| <= |lens| && forall k :: 0 <= k < |bits| ==> lens[k] == PulseCount(PulseOf(s, k), rate, bits[k])
  }

  lemma MeasuredBits(s: M.Scheme, rate: real, bits: seq<bool>, lens: seq<nat>, on: Channel, off: Channel)
    requires s.Ook? && M.ValidScheme(s) && 0.0 <= rate && Receivable(s, rate) && Sends(s, rate, bits, lens)
    requires |bits| % 2 == 1 && |lens| == |bits| + 1
    requires LongPulses(lens) && ClosedChain(Subs(lens)) && Holds(on, off, Subs(lens))
    ensures LengthsFor(on.data, PulseBits(bits), MeasuredPulse(s, rate, false), MeasuredPulse(s, rate, true))
    ensures LengthsFor(off.data, GapBits(bits), MeasuredGap(s, rate, false), MeasuredGap(s, rate, true))
  {
    hide Subs, Gaps, LongPulses, ClosedChain, InOrder, PulseCount, CoalescingCount;
    MeasuredLengths(lens, 0);
    forall k | 0 <= k < |PulseBits(bits)|
      ensures on.data[k] == MeasuredPulse(s, rate, bits[2 * k])
    {
      MeasuredLengths(lens, k);
      assert lens[2 * k] == PulseCount(PulseOf(s, 2 * k), rate, bits[2 * k]);
    }
    forall k | 0 <= k < |GapBits(bits)|
      ensures off.data[k] == MeasuredGap(s, rate, bits[2 * k + 1])
    {
      MeasuredLengths(lens, k);
      assert lens[2 * k + 1] == PulseCount(PulseOf(s, 2 * k + 1), rate, bits[2 * k + 1]);
    }
  }

  /** A channel reads all its bits. */
  ghost predicate Reads(ch: Channel, bs: seq<bool>)
    requires |bs| <= |ch.data|
  {
    forall j :: 0 <= j < |bs| ==> Classify(ch, ch.data[j]) == Bit(bs[j])
  }

  ghost predicate ReadAt(on: Channel, off: Channel, bits: seq<bool>, k: nat)
    requires k < |bits| == 2 * |on.data| - 1 && |on.data| <= |off.data| + 1
  {
    SymbolAt(on, off, k) == Bit(bits[k])
  }

  lemma PulsesRead(on: Channel, off: Channel, bits: seq<bool>)
    requires 0 < |on.data| <= |off.data| + 1 && |bits| == 2 * |on.data| - 1
    requires forall k :: 0 <= k < |bits| ==> ReadAt(on, off, bits, k)
    ensures Reads(on, PulseBits(bits)) && Reads(off, GapBits(bits))
  {
    hide Classify;
    forall j | 0 <= j < |PulseBits(bits)|
      ensures Classify(on, on.data[j]) == Bit(PulseBits(bits)[j])
    {
      assert ReadAt(on, off, bits, 2 * j);
    }
    forall j | 0 <= j < |GapBits(bits)|
      ensures Classify(off, off.data[j]) == Bit(GapBits(bits)[j])
    {
      assert ReadAt(on, off, bits, 2 * j + 1);
    }
  }

  lemma BothRead(on: Channel, off: Channel, bits: seq<bool>, k: nat)
    requires 0 < |on.data| <= |off.data| + 1 && k < |bits| == 2 * |on.data| - 1
    requires Reads(on, PulseBits(bits)) && Reads(off, GapBits(bits))
    ensures ReadAt(on, off, bits, k)
  {
    hide Classify;
    if k % 2 == 0 {
      assert PulseBits(bits)[k / 2] == bits[k];
    } else {
      assert GapBits(bits)[k / 2] == bits[k];
    }
  }

  /** All symbols are right when those of both channels are. */
  lemma BothChannels(on: Channel, off: Channel, bits: seq<bool>)
    requires 0 < |on.data| <= |off.data| + 1 && |bits| == 2 * |on.data| - 1
    ensures (forall k :: 0 <= k < |bits| ==> Symbols(on, off, |bits|)[k] == Bit(bits[k])) <==>
            Reads(on, PulseBits(bits)) && Reads(off, GapBits(bits))
  {
    hide SymbolAt, Reads;
    var ms := Symbols(on, off, |bits|);
    if forall k :: 0 <= k < |bits| ==> ms[k] == Bit(bits[k]) {
      forall k | 0 <= k < |bits|
        ensures ReadAt(on, off, bits, k)
      {
        assert ms[k] == SymbolAt(on, off, k);
      }
      PulsesRead(on, off, bits);
    }
    if Reads(on, PulseBits(bits)) && Reads(off, GapBits(bits)) {
      forall k | 0 <= k < |bits|
        ensures ms[k] == Bit(bits[k])
      {
        BothRead(on, off, bits, k);
      }
    }
  }

  /** The burst of a message of odd length: whatever the demodulator has learned from it, it
      takes the burst and returns the message if and only if the message comes back. */
  lemma OddBurstComesBack(s: M.Scheme, rate: real, bits: seq<bool>, lens: seq<nat>, on: Channel, off: Channel)
    requires s.Ook? && M.ValidScheme(s) && 0.0 <= rate && Receivable(s, rate) && Sends(s, rate, bits, lens)
    requires |bits| % 2 == 1 && |lens| == |bits| + 1
    requires LongPulses(lens) && ClosedChain(Subs(lens)) && LearnedFrom(Subs(lens), on, off)
    ensures Returned(Subs(lens), on, off, [bits]) <==> ComesBack(s, rate, bits)
  {
    hide Subs, Gaps, LongPulses, ClosedChain, InOrder, PulseCount, CoalescingCount, OokLearning.Learned, Demodulated,
      Symbols, Classify, Teaches, Sends, SymbolSeen, Decode;
    LearnedHolds(on, off, Subs(lens));
    TrainIsDecoded(on, off, lens);
    MeasuredBits(s, rate, bits, lens, on, off);
    MeasuredAtLeast(s, rate);
    ExactlyTheBits(on, off, bits);
    BothChannels(on, off, bits);
    ChosenIff(|Subs(lens)|, on, off);
    if |bits| > 20 {
      ChannelReads(on.data, on, PulseBits(bits), MeasuredPulse(s, rate, false), MeasuredPulse(s, rate, true));
      ChannelReads(off.data, off, GapBits(bits), MeasuredGap(s, rate, false), MeasuredGap(s, rate, true));
    }
  }

  lemma LearnedHolds(on: Channel, off: Channel, subs: seq<SubBurst>)
    requires LearnedFrom(subs, on, off)
    ensures Holds(on, off, subs) && OokLearning.Learned(on.data, on) && OokLearning.Learned(off.data, off)
  {
  }

  lemma MeasuredAtLeast(s: M.Scheme, rate: real)
    requires s.Ook? && M.ValidScheme(s) && 0.0 <= rate && Receivable(s, rate)
    ensures forall b :: 19 <= MeasuredPulse(s, rate, b) && 19 <= MeasuredGap(s, rate, b)
  {
    hide PulseCount, CoalescingCount;
  }

  /** A message of equal bits never comes back, at any length. */
  lemma EqualBitsAreLost(s: M.Scheme, rate: real, bits: seq<bool>)
    requires s.Ook? && M.ValidScheme(s) && 0.0 <= rate
    requires forall k :: 0 <= k < |bits| ==> bits[k] == bits[0]
    ensures !ComesBack(s, rate, bits)
  {
    hide PulseCount;
    if bits != [] {
      NoneOccur(PulseBits(bits), !bits[0]);
    }
  }
  // ------------------------------------------------------------- across the link

  /** Whatever the demodulator has learned from a burst, it takes the burst and returns
      these messages if and only if a condition holds. */
  ghost predicate ReturnedIff(subs: seq<SubBurst>, msgs: seq<seq<bool>>, condition: bool) {
    forall on, off :: LearnedFrom(subs, on, off) ==> (Returned(subs, on, off, msgs) <==> condition)
  }

  lemma LengthsAreSent(s: M.Scheme, rate: real, bits: seq<bool>, amp: real)
    requires s.Ook? && M.ValidScheme(s) && 0.0 <= rate
    ensures Sends(s, rate, bits, LengthsOf(s, bits, amp, rate))
  {
  }

  /** The lengths of a burst are those of the bits, one sample off. */
  ghost predicate MeasuredAs(s: M.Scheme, rate: real, bits: seq<bool>, subs: seq<SubBurst>)
    requires s.Ook? && M.ValidScheme(s) && 0.0 <= rate
  {
    && InOrder(subs)
    && LengthsFor(Lengths(subs), PulseBits(bits), MeasuredPulse(s, rate, false), MeasuredPulse(s, rate, true))
    && LengthsFor(Gaps(subs), GapBits(bits), MeasuredGap(s, rate, false), MeasuredGap(s, rate, true))
  }

  lemma OddBurstReturnedIff<Iq>(
      s: M.Scheme, rate: real, bits: seq<bool>, lens: seq<nat>, coalesce: nat, hist: seq<Sample<Iq>>, f: Finished<Iq>)
    requires s.Ook? && M.ValidScheme(s) && 0.0 <= rate && Receivable(s, rate) && Sends(s, rate, bits, lens)
    requires |bits| % 2 == 1 && |lens| == |bits| + 1 && LongPulses(lens)
    requires f in Run(coalesce, hist).finished && f.subs == Subs(lens)
    ensures ReturnedIff(Subs(lens), [bits], ComesBack(s, rate, bits)) && MeasuredAs(s, rate, bits, Subs(lens))
  {
    hide Run, Subs, LongPulses, ClosedChain, Returned, LearnedFrom, ComesBack, Sends, Receivable, LengthsFor, InOrder,
      Gaps;
    FinishedIsChain(coalesce, hist, f);
    GapsOfChain(Subs(lens), 0);
    var none := Clusters.ConstellationPoint(0.0, 0, 0, 0.0);
    MeasuredBits(s, rate, bits, lens, Channel(Lengths(Subs(lens)), (none, none), 0),
                 Channel(Gaps(Subs(lens)), (none, none), 0));
    forall on, off | LearnedFrom(Subs(lens), on, off)
      ensures Returned(Subs(lens), on, off, [bits]) <==> ComesBack(s, rate, bits)
    {
      OddBurstComesBack(s, rate, bits, lens, on, off);
    }
  }

  /** A message of odd length, repeated, whose stop gap ends a burst: every copy is a
      burst of its own, and returned as the one message that was sent exactly when the
      message comes back. */
  lemma EveryCopyIsABurst<Iq>(
      env: S.Env, s: M.Scheme, bits: seq<bool>, repeat: nat, phy: M.Phy, amp: real, a: S.Analog, n: nat,
      lead: nat, hist: seq<Sample<Iq>>)
    requires Tuned(env, s, phy.sampleRate, amp) && 0.0 <= a.rate && |bits| % 2 == 1
    requires Silence(CoalescingCount(phy.sampleRate)) <= StopCount(s, phy.sampleRate)
    requires |M.MessageSound(env, s, bits, repeat, phy, amp)| <= n
    requires Heard(Played(env, s, bits, repeat, phy, amp, a, n), lead, hist)
    ensures var finished := Run(CoalescingCount(phy.sampleRate), hist).finished;
            && |finished| == repeat + 1
            && forall j :: 0 <= j <= repeat ==>
                 && finished[j].origin == lead + j * Sum(LengthsOf(s, bits, amp, phy.sampleRate))
                 && |finished[j].subs| == (|bits| + 1) / 2
                 && MeasuredAs(s, phy.sampleRate, bits, finished[j].subs)
                 && ReturnedIff(finished[j].subs, [bits], ComesBack(s, phy.sampleRate, bits))
  {
    hide Run, Played, LengthsOf, CoalescingCount, StopCount, KeyedCopies, AllAre, Separable, Subs, ReturnedIff,
      Receivable, Audible, Sum, M.MessageWave, P.Copies, LongPulses, HeardAt, ComesBack, Sends, MeasuredAs;
    var rate, lens := phy.sampleRate, LengthsOf(s, bits, amp, phy.sampleRate);
    var coalesce, end := CoalescingCount(rate), lead + |P.Copies(M.MessageWave(env, s, bits, phy, amp), repeat + 1)|;
    SoundIsKeyed(env, s, bits, repeat + 1, phy, amp, lead, hist[..end]);
    MessageIsSeparable(s, bits, amp, rate);
    LengthsAreSent(s, rate, bits, amp);
    assert hist[..end][..lead] == hist[..lead];
    CopiesAreReported(coalesce, lens, repeat + 1, lead, end, hist);
    OddBurstReturnedIff(s, rate, bits, lens, coalesce, hist, Run(coalesce, hist).finished[0]);
    forall j | 0 <= j <= repeat
      ensures Times(Sum(lens), j) == j * Sum(lens)
    {
      TimesIsProduct(Sum(lens), j);
    }
  }

  /** A short message is not returned: its bursts go to the phase-shift demodulator. */
  lemma ShortMessagesGoToPsk<Iq>(
      env: S.Env, s: M.Scheme, bits: seq<bool>, repeat: nat, phy: M.Phy, amp: real, a: S.Analog, n: nat,
      lead: nat, hist: seq<Sample<Iq>>)
    requires Tuned(env, s, phy.sampleRate, amp) && 0.0 <= a.rate && |bits| % 2 == 1 && |bits| < 20
    requires Silence(CoalescingCount(phy.sampleRate)) <= StopCount(s, phy.sampleRate)
    requires |M.MessageSound(env, s, bits, repeat, phy, amp)| <= n
    requires Heard(Played(env, s, bits, repeat, phy, amp, a, n), lead, hist)
    ensures var finished := Run(CoalescingCount(phy.sampleRate), hist).finished;
            && |finished| == repeat + 1
            && forall j, on, off :: 0 <= j <= repeat ==> !Chosen(|finished[j].subs|, on, off)
  {
    hide Run, Played, LengthsOf, CoalescingCount, StopCount, ReturnedIff, Sum, ComesBack, Heard, Tuned;
    EveryCopyIsABurst(env, s, bits, repeat, phy, amp, a, n, lead, hist);
  }

  /** In particular a single bit. */
  lemma OneBitGoesToPsk<Iq>(
      env: S.Env, s: M.Scheme, phy: M.Phy, amp: real, a: S.Analog, n: nat, lead: nat, hist: seq<Sample<Iq>>)
    requires Tuned(env, s, phy.sampleRate, amp) && 0.0 <= a.rate
    requires Silence(CoalescingCount(phy.sampleRate)) <= StopCount(s, phy.sampleRate)
    requires |M.MessageSound(env, s, [true], 0, phy, amp)| <= n
    requires Heard(Played(env, s, [true], 0, phy, amp, a, n), lead, hist)
    ensures var finished := Run(CoalescingCount(phy.sampleRate), hist).finished;
            |finished| == 1 && forall on, off :: !Returned(finished[0].subs, on, off, [[true]])
  {
    hide Run, Played, CoalescingCount, StopCount, Heard, Tuned, Demodulated;
    ShortMessagesGoToPsk(env, s, [true], 0, phy, amp, a, n, lead, hist);
  }

  // ---------------------------------------------------------- copies in one burst

  /** Every bit of a message is seen as it was sent. */
  ghost predicate Legible(on: Channel, off: Channel, lens: seq<nat>, bits: seq<bool>) {
    |bits| <= |lens| && forall k :: 0 <= k < |bits| ==> SymbolSeen(on, off, lens, k) == Bit(bits[k])
  }

  lemma AllBits(ms: seq<Mapped>, bits: seq<bool>)
    requires |ms| == |bits| && (forall k :: 0 <= k < |bits| ==> ms[k] == Bit(bits[k])) && bits != []
    ensures Decode(ms) == Decoder([], bits) && Flush(Decode(ms)).msgs == [bits]
  {
    DecodeBits([], ms, bits);
    assert [] + ms == ms && [] + bits == bits && [] + [bits] == [bits];
  }

  /** What copies in one burst are decoded to, by how their stop gap is read. */
  function CopyMessages(bits: seq<bool>, gap: Mapped, copies: nat): seq<seq<bool>> {
    match gap
    case Unknown => OneByOne(bits, copies)
    case Bit(bit) => [Joint(bits, bit, copies)]
    case NoBit => []
  }

  lemma CopiesAreDecoded(
      bits: seq<bool>, lens: seq<nat>, copies: nat, on: Channel, off: Channel)
    requires |bits| % 2 == 1 && |lens| == |bits| + 1 && copies > 0
    requires var all := CopyLens(lens, copies);
             LongPulses(all) && all != [] && ClosedChain(Subs(all)) && Holds(on, off, Subs(all))
    requires Legible(on, off, lens, bits) && off.bps == 1
    ensures DecodesTo(on, off, CopyMessages(bits, SymbolSeen(on, off, lens, |bits|), copies))
  {
    hide Subs, LongPulses, ClosedChain, Decode, Classify, CopyLens, InOrder, Gaps, Demodulated;
    var all := CopyLens(lens, copies);
    TrainIsDecoded(on, off, all);
    SeenOfCopies(on, off, lens, copies);
    BitOrUnknown(off, Seen(lens, |bits|));
    var ms, gap := SymbolsSeen(on, off, lens, |bits|), SymbolSeen(on, off, lens, |bits|);
    CopiesDecoded(ms, gap, bits, copies);
    if gap == Unknown {
      assert OneByOne(bits, copies - 1) + [bits] == OneByOne(bits, copies);
    } else {
      JointIsNotEmpty(bits, gap.bit, copies);
      assert [] + [Joint(bits, gap.bit, copies)] == [Joint(bits, gap.bit, copies)];
    }
  }

  lemma BitOrUnknown(ch: Channel, len: nat)
    requires ch.bps == 1
    ensures Classify(ch, len) != NoBit
  {
  }

  lemma JointIsNotEmpty(bits: seq<bool>, between: bool, copies: nat)
    requires bits != [] && copies > 0
    ensures Joint(bits, between, copies) != []
  {
  }

  /** Where the last pulse of the copies ends. */
  lemma CopiesEnd(lens: seq<nat>, copies: nat)
    requires lens != [] && |lens| % 2 == 0 && copies > 0
    ensures CopyLens(lens, copies) != [] && |CopyLens(lens, copies)| % 2 == 0
    ensures PulseEnd(CopyLens(lens, copies)) + Activity.Last(lens) == Sum(CopyLens(lens, copies))
  {
    var all := CopyLens(lens, copies);
    assert Activity.Last(all) == Activity.Last(lens);
  }

  /** Copies of a separable train are separable when the gap between them is. */
  lemma {:induction false} CopiesAreSeparable(coalesce: nat, lens: seq<nat>, copies: nat)
    requires lens != [] && |lens| % 2 == 0 && copies > 0 && Separable(coalesce, lens)
    requires copies > 1 ==> SAMPLES_UNDER_THRS < Activity.Last(lens) < Silence(coalesce)
    ensures CopyLens(lens, copies) != [] && Separable(coalesce, CopyLens(lens, copies))
    ensures Activity.Last(CopyLens(lens, copies)) == Activity.Last(lens)
    decreases copies
  {
    hide Separable, SeparableAt;
    if copies == 1 {
      assert CopyLens(lens, 1) == lens;
    } else {
      CopiesAreSeparable(coalesce, lens, copies - 1);
      SeparableAppend(coalesce, CopyLens(lens, copies - 1), lens);
    }
  }

  lemma SeparableAppend(coalesce: nat, front: seq<nat>, lens: seq<nat>)
    requires front != [] && |front| % 2 == 0 && Separable(coalesce, front) && lens != [] && Separable(coalesce, lens)
    requires SAMPLES_UNDER_THRS < Activity.Last(front) < Silence(coalesce)
    ensures Separable(coalesce, front + lens)
  {
    forall k | 0 <= k < |front + lens|
      ensures SeparableAt(coalesce, front + lens, k)
    {
      if k < |front| {
        assert SeparableAt(coalesce, front, k);
      } else {
        assert SeparableAt(coalesce, lens, k - |front|);
      }
    }
  }

  /** A message of odd length, repeated, whose stop gap does not end a burst: there is one
      burst for all copies, as soon as enough silence follows. */
  lemma CopiesAreOneBurst<Iq>(
      env: S.Env, s: M.Scheme, bits: seq<bool>, repeat: nat, phy: M.Phy, amp: real, a: S.Analog, n: nat,
      lead: nat, hist: seq<Sample<Iq>>)
    requires Tuned(env, s, phy.sampleRate, amp) && 0.0 <= a.rate && |bits| % 2 == 1
    requires repeat > 0 ==>
               SAMPLES_UNDER_THRS < StopCount(s, phy.sampleRate) < Silence(CoalescingCount(phy.sampleRate))
    requires |M.MessageSound(env, s, bits, repeat, phy, amp)| <= n
    requires Heard(Played(env, s, bits, repeat, phy, amp, a, n), lead, hist)
    ensures var rate := phy.sampleRate;
            var all := CopyLens(LengthsOf(s, bits, amp, rate), repeat + 1);
            var finished := Run(CoalescingCount(rate), hist).finished;
            var quiet := lead + |M.MessageSound(env, s, bits, repeat, phy, amp)| - StopCount(s, rate);
            && LongPulses(all) && all != []
            && if |hist| < quiet + Silence(CoalescingCount(rate)) then finished == []
               else |finished| == 1 && finished[0].origin == lead && finished[0].subs == Subs(all)
  {
    hide Run, Played, LengthsOf, CoalescingCount, StopCount, KeyedCopies, Keyed, AllAre, Separable, Subs, Receivable,
      Audible, Sum, M.MessageWave, P.Copies, LongPulses, HeardAt, PulseEnd, CopyLens;
    var rate, lens := phy.sampleRate, LengthsOf(s, bits, amp, phy.sampleRate);
    var coalesce, end := CoalescingCount(rate), lead + |P.Copies(M.MessageWave(env, s, bits, phy, amp), repeat + 1)|;
    SoundIsKeyed(env, s, bits, repeat + 1, phy, amp, lead, hist[..end]);
    CopiesAreKeyed(lens, repeat + 1, lead, hist[..end]);
    MessageIsSeparable(s, bits, amp, rate);
    CopiesAreSeparable(coalesce, lens, repeat + 1);
    assert hist[..end][..lead] == hist[..lead];
    TrainIsReported(coalesce, CopyLens(lens, repeat + 1), lead, end, hist);
    CopiesEnd(lens, repeat + 1);
  }

  /** When the bits of such a message are read, its stop gaps part the copies if they look
      like neither gap, and join them into one message if they look like a bit. A single
      copy is returned exactly when the message comes back. */
  lemma CopiesShareABurst<Iq>(
      env: S.Env, s: M.Scheme, bits: seq<bool>, repeat: nat, phy: M.Phy, amp: real, a: S.Analog, n: nat,
      lead: nat, hist: seq<Sample<Iq>>)
    requires Tuned(env, s, phy.sampleRate, amp) && 0.0 <= a.rate && |bits| % 2 == 1
    requires repeat > 0 ==>
               SAMPLES_UNDER_THRS < StopCount(s, phy.sampleRate) < Silence(CoalescingCount(phy.sampleRate))
    requires |M.MessageSound(env, s, bits, repeat, phy, amp)| <= n
    requires Heard(Played(env, s, bits, repeat, phy, amp, a, n), lead, hist)
    ensures var rate := phy.sampleRate;
            var lens, finished := LengthsOf(s, bits, amp, rate), Run(CoalescingCount(rate), hist).finished;
            var quiet := lead + |M.MessageSound(env, s, bits, repeat, phy, amp)| - StopCount(s, rate);
            if |hist| < quiet + Silence(CoalescingCount(rate)) then finished == []
            else
              && |finished| == 1 && finished[0].origin == lead
              && finished[0].subs == Subs(CopyLens(lens, repeat + 1)) && ClosedChain(finished[0].subs)
              && (repeat == 0 ==> ReturnedIff(finished[0].subs, [bits], ComesBack(s, rate, bits)))
              && forall on, off :: Holds(on, off, finished[0].subs) && off.bps == 1 && Legible(on, off, lens, bits) ==>
                   DecodesTo(on, off, CopyMessages(bits, Classify(off, StopCount(s, rate) + 1), repeat + 1))
  {
    hide Run, Played, LengthsOf, CoalescingCount, StopCount, Subs, DecodesTo, Receivable, Audible, LongPulses,
      ClosedChain, Classify, ComesBack, Sends, ReturnedIff, Holds, Legible, CopyMessages, Heard, CopyLens,
      M.MessageSound, Tuned;
    TunedParts(env, s, phy.sampleRate, amp);
    var rate, lens := phy.sampleRate, LengthsOf(s, bits, amp, phy.sampleRate);
    var coalesce := CoalescingCount(rate);
    CopiesAreOneBurst(env, s, bits, repeat, phy, amp, a, n, lead, hist);
    if Run(coalesce, hist).finished != [] {
      var f := Run(coalesce, hist).finished[0];
      FinishedIsChain(coalesce, hist, f);
      CopiesAlwaysDecoded(bits, lens, repeat + 1);
      if repeat == 0 {
        OneCopyReturnedIff(s, rate, bits, amp, coalesce, hist, f);
      }
    }
  }

  lemma TunedParts(env: S.Env, s: M.Scheme, rate: real, amp: real)
    requires Tuned(env, s, rate, amp)
    ensures s.Ook? && M.ValidScheme(s) && 0.0 < rate && Receivable(s, rate)
  {
  }

  lemma CopiesAlwaysDecoded(bits: seq<bool>, lens: seq<nat>, copies: nat)
    requires |bits| % 2 == 1 && |lens| == |bits| + 1 && copies > 0
    requires var all := CopyLens(lens, copies); LongPulses(all) && all != [] && ClosedChain(Subs(all))
    ensures forall on, off ::
              Holds(on, off, Subs(CopyLens(lens, copies))) && off.bps == 1 && Legible(on, off, lens, bits) ==>
                DecodesTo(on, off, CopyMessages(bits, Classify(off, Activity.Last(lens) + 1), copies))
  {
    hide Subs, LongPulses, ClosedChain, Classify, CopyLens, Holds, Legible, DecodesTo, CopyMessages;
    forall on, off | Holds(on, off, Subs(CopyLens(lens, copies))) && off.bps == 1 && Legible(on, off, lens, bits)
      ensures DecodesTo(on, off, CopyMessages(bits, Classify(off, Activity.Last(lens) + 1), copies))
    {
      CopiesAreDecoded(bits, lens, copies, on, off);
    }
  }

  lemma OneCopy(lens: seq<nat>)
    ensures CopyLens(lens, 1) == lens
  {
    assert CopyLens(lens, 0) == [];
  }

  lemma OneCopyReturnedIff<Iq>(
      s: M.Scheme, rate: real, bits: seq<bool>, amp: real, coalesce: nat, hist: seq<Sample<Iq>>, f: Finished<Iq>)
    requires s.Ook? && M.ValidScheme(s) && 0.0 <= rate && Receivable(s, rate) && |bits| % 2 == 1
    requires LongPulses(CopyLens(LengthsOf(s, bits, amp, rate), 1))
    requires f in Run(coalesce, hist).finished && f.subs == Subs(CopyLens(LengthsOf(s, bits, amp, rate), 1))
    ensures ReturnedIff(f.subs, [bits], ComesBack(s, rate, bits))
  {
    hide Run, Subs, LongPulses, LengthsOf, CopyLens, ComesBack, Sends, ReturnedIff, Receivable, MeasuredAs;
    OneCopy(LengthsOf(s, bits, amp, rate));
    LengthsAreSent(s, rate, bits, amp);
    OddBurstReturnedIff(s, rate, bits, LengthsOf(s, bits, amp, rate), coalesce, hist, f);
  }

  /** The same for a receiver object, whatever blocks the stream came in. */
  lemma MessageIsReceived<F, Iq(0)>(
      env: S.Env, s: M.Scheme, bits: seq<bool>, repeat: nat, phy: M.Phy, amp: real, a: S.Analog, n: nat,
      lead: nat, receiver: TimeDomain.RxTimeDomain<F, Iq>)
    requires Tuned(env, s, phy.sampleRate, amp) && 0.0 <= a.rate && |bits| % 2 == 1
    requires receiver.Valid() && receiver.sampleRate == phy.sampleRate
    requires Silence(CoalescingCount(phy.sampleRate)) <= StopCount(s, phy.sampleRate)
    requires |M.MessageSound(env, s, bits, repeat, phy, amp)| <= n
    requires Heard(Played(env, s, bits, repeat, phy, amp, a, n), lead, receiver.hist)
    ensures |receiver.delivered| == repeat + 1
    ensures forall j :: 0 <= j <= repeat ==>
              ReturnedIff(receiver.delivered[j].subs, [bits], ComesBack(s, phy.sampleRate, bits))
  {
    EveryCopyIsABurst(env, s, bits, repeat, phy, amp, a, n, lead, receiver.hist);
  }

  // ------------------------------------------------------------- the link in use

  /** What an ideal receiver hears of a sound: its samples, between two silences. */
  function Broadcast(sound: seq<S.Iq>, lead: nat, silence: nat): (hist: seq<Sample<S.Iq>>)
    ensures Heard(sound, lead, hist) && |hist| == lead + |sound| + silence
  {
    seq(lead + |sound| + silence, p requires 0 <= p < lead + |sound| + silence =>
      if lead <= p < lead + |sound| then Sample(sound[p - lead], sound[p - lead] != S.Iq(0, 0))
      else Sample(S.Iq(0, 0), false))
  }

  lemma WholeMicroseconds(us: nat)
    ensures Trunc(us as real) == us && S.SymbolSamples(us as real, 1000000.0) == us
  {
    assert us as real * 1000000.0 / 1000000.0 == us as real;
  }

  /** Half a millisecond and a whole one, at one sample per microsecond: pulses are measured
      as 499 and 999 samples and gaps as 501 and 1001. */
  lemma MillisecondsAreTuned(env: S.Env, freq: real, stop: real, amp: real)
    requires Audible(env, amp) && 0.0 <= stop
    ensures var s := M.Ook(freq, M.Pulse(500.0, 1000.0), M.Pulse(500.0, 1000.0), stop);
            && Tuned(env, s, 1000000.0, amp)
            && MeasuredPulse(s, 1000000.0, false) == 499 && MeasuredPulse(s, 1000000.0, true) == 999
            && MeasuredGap(s, 1000000.0, false) == 501 && MeasuredGap(s, 1000000.0, true) == 1001
    ensures CoalescingCount(1000000.0) == 10000
  {
    hide Trunc, S.SymbolSamples, CoalescingCount, Audible;
    CoalescingIsHundredth(1000000.0);
    WholeMicroseconds(500);
    WholeMicroseconds(1000);
    var s := M.Ook(freq, M.Pulse(500.0, 1000.0), M.Pulse(500.0, 1000.0), stop);
    assert PulseCount(s.on, 1000000.0, false) == 500 && PulseCount(s.on, 1000000.0, true) == 1000;
  }

  /** Neither bit is rarer than one in a hundred. */
  predicate Mixed(bs: seq<bool>) {
    && 0 < HowMany(bs, false) && 0 < HowMany(bs, true)
    && 100 * Min(HowMany(bs, false), HowMany(bs, true)) >= HowMany(bs, false) + HowMany(bs, true)
  }

  lemma {:induction false} TableOfTwo(data: seq<nat>, a: nat, b: nat)
    requires TwoValued(data, a, b) && a < 1000 && a < b
    ensures TableAfter(data) == 1000 || (1000 < b && TableAfter(data) == 2 * b)
    decreases |data|
  {
    if data != [] {
      TableOfTwo(data[..|data| - 1], a, b);
    }
  }

  /** Two lengths of which one fits the first table, and neither is just behind it, always
      have room. */
  lemma TwoHaveRoom(data: seq<nat>, a: nat, b: nat)
    requires TwoValued(data, a, b) && a < 1000 && a < b && b != 1000 && b < Constellations.INT32_MAX
    ensures HaveRoom(data)
  {
    hide TableAfter;
    forall k | 0 <= k < |data|
      ensures HasRoom(data, k)
    {
      TableOfTwo(data[..k], a, b);
    }
  }

  /** At one sample per microsecond a burst is over after 10020 quiet samples. With a stop
      symbol of that length, a message of odd length, repeated as often as wanted, comes
      back over an ideal link once for every copy exactly when it has more than twenty bits
      and both its pulses and its gaps are mixed. */
  lemma MillisecondsComeBackIff(
      env: S.Env, bits: seq<bool>, repeat: nat, phy: M.Phy, amp: real, freq: real, a: S.Analog, n: nat,
      lead: nat, silence: nat)
    requires |bits| % 2 == 1 && Audible(env, amp) && phy.sampleRate == 1000000.0 && 0.0 <= a.rate
    requires var s := M.Ook(freq, M.Pulse(500.0, 1000.0), M.Pulse(500.0, 1000.0), 10020.0);
             |M.MessageSound(env, s, bits, repeat, phy, amp)| <= n
    ensures var s := M.Ook(freq, M.Pulse(500.0, 1000.0), M.Pulse(500.0, 1000.0), 10020.0);
            var hist := Broadcast(Played(env, s, bits, repeat, phy, amp, a, n), lead, silence);
            var finished := Run(CoalescingCount(phy.sampleRate), hist).finished;
            && |finished| == repeat + 1
            && forall j :: 0 <= j <= repeat ==>
                 && InOrder(finished[j].subs) && HaveRoom(Lengths(finished[j].subs)) && HaveRoom(Gaps(finished[j].subs))
                 && ReturnedIff(finished[j].subs, [bits],
                                |bits| > 20 && Mixed(PulseBits(bits)) && Mixed(GapBits(bits)))
  {
    hide Run, Played, Broadcast, Heard, Tuned, CoalescingCount, S.SymbolSamples, Trunc, LengthsOf, Audible,
      ReturnedIff, HowMany, MeasuredPulse, MeasuredGap, HaveRoom, InOrder, Gaps;
    var s := M.Ook(freq, M.Pulse(500.0, 1000.0), M.Pulse(500.0, 1000.0), 10020.0);
    MillisecondsAreTuned(env, freq, 10020.0, amp);
    WholeMicroseconds(10020);
    var hist := Broadcast(Played(env, s, bits, repeat, phy, amp, a, n), lead, silence);
    EveryCopyIsABurst(env, s, bits, repeat, phy, amp, a, n, lead, hist);
    forall j | 0 <= j <= repeat
      ensures var subs := Run(CoalescingCount(phy.sampleRate), hist).finished[j].subs;
              InOrder(subs) && HaveRoom(Lengths(subs)) && HaveRoom(Gaps(subs))
    {
      var subs := Run(CoalescingCount(phy.sampleRate), hist).finished[j].subs;
      TwoHaveRoom(Lengths(subs), 499, 999);
      TwoHaveRoom(Gaps(subs), 501, 1001);
    }
    assert ComesBack(s, phy.sampleRate, bits) <==> |bits| > 20 && Mixed(PulseBits(bits)) && Mixed(GapBits(bits));
  }
}
