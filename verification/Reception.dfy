// What the time-domain receiver should report for a stream of samples, said
// twice: by the LISTEN / RX / COALESCING automaton on the whole stream, without
// blocks or buffers, and by grouping the samples above the threshold.

module Reception {
  import opened Basics

  /** One corrected sample, and whether its magnitude reached the threshold. */
  datatype Sample<Iq> = Sample(iq: Iq, above: bool)

  datatype Mode = Listen | Rx | Coalescing

  /** Offsets from the first sample of the burst; `end == 0` while it is open. */
  datatype SubBurst = SubBurst(start: nat, end: nat, len: nat)

  /** A finished burst: where it starts in the stream, its sub-bursts, the length
      reported for it, and every sample up to the end of the last sub-burst. */
  datatype Finished<Iq> = Finished(origin: nat, subs: seq<SubBurst>, len: nat, data: seq<Iq>)

  const MIN_SAMPLES: nat := 40
  const SAMPLES_UNDER_THRS: nat := 20
  const COALESCING_TIME_US: nat := 10000

  function SampleCountFromTime(rate: real, us: nat): nat
    requires 0.0 <= rate
  {
    assert 0.0 <= us as real * rate;
    Trunc(us as real * rate / 1000000.0)
  }

  /** How many quiet samples end a burst. */
  function CoalescingCount(rate: real): nat
    requires 0.0 <= rate
  {
    SampleCountFromTime(rate, COALESCING_TIME_US)
  }

  /** The count is a hundredth of the rate, without its fraction. */
  lemma CoalescingIsHundredth(rate: real)
    requires 0.0 <= rate
    ensures CoalescingCount(rate) as real * 100.0 <= rate < (CoalescingCount(rate) + 1) as real * 100.0
  {
    assert COALESCING_TIME_US as real * rate / 1000000.0 == rate / 100.0;
  }

  // ---------------------------------------------------------------- automaton

  datatype Core<Iq> = Core(
    mode: Mode, comSample: nat, comSub: nat, under: nat,
    origin: nat, subs: seq<SubBurst>, finished: seq<Finished<Iq>>)

  function InitCore<Iq>(): Core<Iq> {
    Core(Listen, 0, 0, 0, 0, [], [])
  }

  /** The start of a transmission, at position `pos`. */
  function DetectStart<Iq>(s: Core<Iq>, pos: nat, above: bool): Core<Iq> {
    if !above then s.(under := s.under + 1)
    else if s.mode.Listen? then
      s.(mode := Rx, comSample := 0, comSub := 0, under := 0, origin := pos, subs := [SubBurst(0, 0, 0)])
    else if s.mode.Coalescing? && s.origin <= pos then
      s.(mode := Rx, comSub := 0, under := 0, subs := s.subs + [SubBurst(pos - s.origin, 0, 0)])
    else s.(under := 0)
  }

  /** The end of a transmission, after position `pos == |hist| - 1`. */
  function TrackEnd<Iq>(s: Core<Iq>, coalesce: nat, hist: seq<Sample<Iq>>): Core<Iq>
    requires MidInv(s, |hist|)
  {
    if s.mode.Listen? then s
    else if s.mode.Rx? then
      var counted := s.(comSample := s.comSample + 1, comSub := s.comSub + 1);
      if s.under < SAMPLES_UNDER_THRS then counted
      else if s.comSub + 1 >= MIN_SAMPLES then
        counted.(mode := Coalescing, under := 0, subs := CloseLast(s.subs, |hist| - 1 - s.origin))
      else
        counted.(mode := Coalescing, subs := s.subs[..|s.subs| - 1])
    else
      var counted := s.(comSample := s.comSample + 1);
      if s.under < coalesce then counted
      else if s.comSample + 1 >= MIN_SAMPLES && s.subs != [] then
        ChainIsOrdered(s.subs);
        counted.(mode := Listen, finished := s.finished + [Finish(s.origin, s.subs, hist)])
      else counted.(mode := Listen)
  }

  /** Closes the open sub-burst, without the quiet samples that ended it. */
  function CloseLast(subs: seq<SubBurst>, len: nat): seq<SubBurst>
    requires subs != [] && subs[|subs| - 1].start + SAMPLES_UNDER_THRS <= len
  {
    var start, end := subs[|subs| - 1].start, len - SAMPLES_UNDER_THRS;
    subs[|subs| - 1 := SubBurst(start, end, end - start)]
  }

  function Finish<Iq>(origin: nat, subs: seq<SubBurst>, hist: seq<Sample<Iq>>): Finished<Iq>
    requires subs != [] && subs[0].start <= subs[|subs| - 1].end
    requires origin + subs[|subs| - 1].end <= |hist|
  {
    Finished(origin, subs, subs[|subs| - 1].end - subs[0].start,
             Iqs(hist[origin..origin + subs[|subs| - 1].end]))
  }

  function Iqs<Iq>(hist: seq<Sample<Iq>>): (iqs: seq<Iq>)
    ensures |iqs| == |hist|
    ensures forall i :: 0 <= i < |hist| ==> iqs[i] == hist[i].iq
  {
    seq(|hist|, i requires 0 <= i < |hist| => hist[i].iq)
  }

  /** Running the automaton over the whole stream. */
  function Run<Iq>(coalesce: nat, hist: seq<Sample<Iq>>): (s: Core<Iq>)
    ensures CoreInv(s, |hist|)
    decreases |hist|
  {
    if hist == [] then InitCore()
    else
      var pos := |hist| - 1;
      var before := Run(coalesce, hist[..pos]);
      DetectStartKeepsInv(before, pos, hist[pos].above);
      TrackEndKeepsInv(DetectStart(before, pos, hist[pos].above), coalesce, hist);
      TrackEnd(DetectStart(before, pos, hist[pos].above), coalesce, hist)
  }

  // --------------------------------------------------- the sub-burst invariant

  predicate ClosedSub(sub: SubBurst) {
    sub.start + sub.len == sub.end && 19 <= sub.len
  }

  /** Closed sub-bursts, in order, with at least 21 samples between two of them. */
  ghost predicate ClosedChain(subs: seq<SubBurst>) {
    && (forall k :: 0 <= k < |subs| ==> ClosedSub(subs[k]))
    && (forall j, k :: 0 <= j < k < |subs| ==> subs[j].end + 21 <= subs[k].start)
  }

  /** A chain never ends before it starts. */
  lemma ChainIsOrdered(subs: seq<SubBurst>)
    requires ClosedChain(subs) && subs != []
    ensures subs[0].start + 19 <= subs[|subs| - 1].end
  {
    assert ClosedSub(subs[0]) && ClosedSub(subs[|subs| - 1]);
  }

  /** Between two samples: `n` samples of the stream have been consumed. */
  ghost predicate CoreInv<Iq>(s: Core<Iq>, n: nat) {
    && (forall f :: f in s.finished ==> ClosedChain(f.subs) && f.subs != [])
    && match s.mode
       case Listen => true
       case Rx =>
         && s.origin < n && s.comSample == n - s.origin
         && s.under < SAMPLES_UNDER_THRS && s.under < s.comSub
         && OpenChain(s.subs) && s.subs[|s.subs| - 1].start + s.comSub == n - s.origin
       case Coalescing =>
         && s.origin < n && s.comSample == n - s.origin
         && ClosedChain(s.subs)
         && (s.subs != [] ==> s.subs[|s.subs| - 1].end + 21 <= n - s.origin)
  }

  /** Exactly the last sub-burst is open. */
  ghost predicate OpenChain(subs: seq<SubBurst>) {
    && subs != []
    && ClosedChain(subs[..|subs| - 1])
    && subs[|subs| - 1] == SubBurst(subs[|subs| - 1].start, 0, 0)
    && (forall k :: 0 <= k < |subs| - 1 ==> subs[k].end + 21 <= subs[|subs| - 1].start)
  }

  /** Between the two halves of the work on sample number `n`. */
  ghost predicate MidInv<Iq>(s: Core<Iq>, n: nat) {
    && 0 < n
    && (forall f :: f in s.finished ==> ClosedChain(f.subs) && f.subs != [])
    && match s.mode
       case Listen => true
       case Rx =>
         && s.origin < n && s.comSample + 1 == n - s.origin
         && s.under <= SAMPLES_UNDER_THRS && s.under <= s.comSub
         && OpenChain(s.subs) && s.subs[|s.subs| - 1].start + s.comSub + 1 == n - s.origin
       case Coalescing =>
         && s.origin + 1 < n && s.comSample + 1 == n - s.origin
         && ClosedChain(s.subs)
         && (s.subs != [] ==> s.subs[|s.subs| - 1].end + 22 <= n - s.origin)
  }

  lemma DetectStartKeepsInv<Iq>(s: Core<Iq>, pos: nat, above: bool)
    requires CoreInv(s, pos)
    ensures MidInv(DetectStart(s, pos, above), pos + 1)
  {
    if above && s.mode.Coalescing? {
      var s' := DetectStart(s, pos, above);
      assert s'.subs[..|s'.subs| - 1] == s.subs;
    }
  }

  lemma TrackEndKeepsInv<Iq>(s: Core<Iq>, coalesce: nat, hist: seq<Sample<Iq>>)
    requires MidInv(s, |hist|)
    ensures CoreInv(TrackEnd(s, coalesce, hist), |hist|)
  {
  }
}
