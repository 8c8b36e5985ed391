// The time-domain receiver: it consumes the sample stream in blocks of any size,
// copying the burst in progress out of each block before the block goes away.

module TimeDomain {
  import opened Reception
  import opened Activity
  import opened Bursts

  /** The correction stage (DC offset, noise level and threshold) is any
      deterministic function of a state that persists across blocks. */
  type FrontEnd<!F, !Iq> = (F, Iq) -> (F, Sample<Iq>)

  /** The state of the correction stage, and the corrected samples, after a stream. */
  ghost function Corrected<F, Iq>(front: FrontEnd<F, Iq>, f: F, raw: seq<Iq>): (r: (F, seq<Sample<Iq>>))
    ensures |r.1| == |raw|
    decreases |raw|
  {
    if raw == [] then (f, [])
    else
      var before := Corrected(front, f, raw[..|raw| - 1]);
      var last := front(before.0, raw[|raw| - 1]);
      (last.0, before.1 + [last.1])
  }

  lemma CorrectedSnoc<F, Iq>(front: FrontEnd<F, Iq>, f: F, raw: seq<Iq>, x: Iq)
    ensures var before, last := Corrected(front, f, raw), front(Corrected(front, f, raw).0, x);
            Corrected(front, f, raw + [x]) == (last.0, before.1 + [last.1])
  {
    assert (raw + [x])[..|raw|] == raw;
  }

  lemma IqsGrow<Iq>(hist: seq<Sample<Iq>>, lo: nat, mid: nat, hi: nat)
    requires lo <= mid <= hi <= |hist|
    ensures Iqs(hist[lo..hi]) == Iqs(hist[lo..mid]) + Iqs(hist[mid..hi])
  {
  }

  lemma SliceOfBurst<Iq>(hist: seq<Sample<Iq>>, origin: nat, copied: nat, end: nat)
    requires origin + end <= copied <= |hist|
    ensures Iqs(hist[origin..copied])[..end] == Iqs(hist[origin..origin + end])
  {
  }

  class RxTimeDomain<F, Iq(0)> {
    const front: FrontEnd<F, Iq>
    const sampleRate: real
    /** How many quiet samples end a burst. */
    const coalesce: nat
    const burst: Burst<Iq>

    var frontEnd: F
    var mode: Mode
    var comSample: nat
    var comSubSample: nat
    var samplesUnder: nat

    ghost const frontEnd0: F
    /** The raw and the corrected stream consumed so far. */
    ghost var raw: seq<Iq>
    ghost var hist: seq<Sample<Iq>>
    /** Where the current burst starts in the stream. */
    ghost var origin: nat
    /** The bursts handed to the demodulators, with all samples under them. */
    ghost var delivered: seq<Finished<Iq>>

    ghost predicate Valid()
      reads this, burst, burst.samples
    {
      && burst.Valid()
      && 0.0 <= sampleRate && coalesce == CoalescingCount(sampleRate)
      && (frontEnd, hist) == Corrected(front, frontEnd0, raw)
      && Matches(Run(coalesce, hist), |hist|)
    }

    /** The fields agree with the automaton, and the buffer holds the stream from the
        first sample of the burst up to `copied`, nothing lost and nothing twice. */
    ghost predicate Matches(core: Core<Iq>, copied: nat)
      requires burst.Valid()
      reads this, burst, burst.samples
    {
      && mode == core.mode && comSample == core.comSample
      && comSubSample == core.comSub && samplesUnder == core.under
      && delivered == core.finished
      && (!mode.Listen? ==>
            && burst.subBursts == core.subs && origin == core.origin
            && origin <= copied <= |hist|
            && burst.Contents() == Iqs(hist[origin..copied])
            && SubsCopied(core, copied))
    }

    ghost predicate SubsCopied(core: Core<Iq>, copied: nat) {
      core.subs != [] ==>
        && core.origin + Last(core.subs).end <= copied
        && core.origin + Last(core.subs).start <= copied
    }

    constructor (front: FrontEnd<F, Iq>, frontEnd: F, sampleRate: real)
      requires 0.0 <= sampleRate
      ensures Valid() && raw == [] && delivered == []
      ensures this.sampleRate == sampleRate && this.front == front && frontEnd0 == frontEnd
      ensures fresh(burst) && fresh(burst.samples)
    {
      this.front, this.sampleRate, coalesce := front, sampleRate, CoalescingCount(sampleRate);
      this.frontEnd, frontEnd0 := frontEnd, frontEnd;
      burst := new Burst<Iq>();
      mode, comSample, comSubSample, samplesUnder := Listen, 0, 0, 0;
      raw, hist, origin, delivered := [], [], 0, [];
    }

    /** The first `n` samples of the block are corrected and end the stream at
        position `base + n`. */
    ghost predicate BlockIs(samples: array<Iq>, base: nat, n: nat)
      reads this`hist, samples
    {
      && n <= samples.Length && base + n <= |hist|
      && forall j :: 0 <= j < n ==> samples[j] == hist[base + j].iq
    }

    lemma BlockIsShorter(samples: array<Iq>, base: nat, n: nat)
      requires BlockIs(samples, base, n + 1)
      ensures BlockIs(samples, base, n)
    {
    }

    lemma BlockSlice(samples: array<Iq>, base: nat, from: nat, to: nat)
      requires from <= to && BlockIs(samples, base, to)
      ensures samples[from..to] == Iqs(hist[base + from..base + to])
    {
    }

    /** Copies the corrected samples [from, to) of the block into the burst. */
    method CopyOut(samples: array<Iq>, ghost base: nat, from: nat, to: nat)
      requires burst.Valid() && samples != burst.samples
      requires from <= to && BlockIs(samples, base, to)
      requires origin <= base + from && burst.Contents() == Iqs(hist[origin..base + from])
      modifies burst`allocatedLen, burst`samples, burst`len, burst.samples
      ensures burst.Valid() && (burst.samples == old(burst.samples) || fresh(burst.samples))
      ensures burst.Contents() == Iqs(hist[origin..base + to])
      ensures burst.len == base + to - origin
      ensures samples[..] == old(samples[..])
    {
      hide Iqs;
      BlockSlice(samples, base, from, to);
      IqsGrow(hist, origin, base + from, base + to);
      burst.Append(samples, from, to - from);
    }

    lemma CoalescingStarted(core: Core<Iq>, n: nat)
      requires CoreInv(core, n)
      ensures core.mode.Coalescing? ==> core.origin < n
    {
    }

    /** The first half of the work on sample `i`: the start of a transmission. */
    method OnStart(samples: array<Iq>, i: nat, blkStart: nat, above: bool, ghost base: nat, ghost core: Core<Iq>)
      returns (newStart: nat)
      requires burst.Valid() && samples != burst.samples
      requires blkStart <= i < samples.Length && BlockIs(samples, base, i + 1) && |hist| == base + i + 1
      requires CoreInv(core, base + i) && Matches(core, base + blkStart)
      modifies this`mode, this`comSample, this`comSubSample, this`samplesUnder, this`origin
      modifies burst, burst.samples
      ensures burst.Valid() && (burst.samples == old(burst.samples) || fresh(burst.samples))
      ensures newStart <= i && samples[..] == old(samples[..])
      ensures Matches(DetectStart(core, base + i, above), base + newStart)
    {
      hide BlockIs, CoreInv, Iqs, ClosedChain, OpenChain;
      CoalescingStarted(core, base + i);
      BlockIsShorter(samples, base, i);
      newStart := blkStart;
      if above {
        if mode == Listen {
          mode := Rx;
          burst.Start();
          origin := base + i;
          comSample, comSubSample := 0, 0;
          newStart := i;
        } else if mode == Coalescing {
          CopyOut(samples, base, blkStart, i);
          burst.SubStart();
          comSubSample := 0;
          mode := Rx;
          newStart := i;
        }
        samplesUnder := 0;
      } else {
        samplesUnder := samplesUnder + 1;
      }
    }

    /** The end of an activity: a long one becomes a closed sub-burst, a short one is
        forgotten. Neither the trimming nor the cancelling can go wrong here. */
    method EndSub(samples: array<Iq>, i: nat, blkStart: nat, ghost base: nat, ghost core: Core<Iq>)
      requires burst.Valid() && samples != burst.samples
      requires blkStart <= i && BlockIs(samples, base, i) && |hist| == base + i + 1
      requires core.mode.Rx? && MidInv(core, |hist|) && SAMPLES_UNDER_THRS <= core.under
      requires burst.subBursts == core.subs && origin == core.origin <= base + blkStart
      requires burst.Contents() == Iqs(hist[origin..base + blkStart])
      requires comSubSample == core.comSub + 1 && samplesUnder == core.under
      modifies this`mode, this`samplesUnder, burst, burst.samples
      ensures burst.Valid() && (burst.samples == old(burst.samples) || fresh(burst.samples))
      ensures samples[..] == old(samples[..])
      ensures burst.Contents() == Iqs(hist[origin..base + i])
      ensures var core' := TrackEnd(core, coalesce, hist);
              && mode == core'.mode && samplesUnder == core'.under && burst.subBursts == core'.subs
              && SubsCopied(core', base + i)
    {
      CopyOut(samples, base, blkStart, i);
      if comSubSample >= MIN_SAMPLES {
        var degenerate := burst.SubStop(SAMPLES_UNDER_THRS);
        assert !degenerate;
        samplesUnder := 0;
      } else {
        var cancelled := burst.SubCancel();
        assert cancelled;
      }
      mode := Coalescing;
    }

    /** The second half: the end of an activity or of the whole burst. */
    method OnEnd(samples: array<Iq>, i: nat, blkStart: nat, ghost base: nat, ghost core: Core<Iq>)
      returns (newStart: nat)
      requires burst.Valid() && samples != burst.samples
      requires blkStart <= i < samples.Length && BlockIs(samples, base, i + 1) && |hist| == base + i + 1
      requires MidInv(core, |hist|) && Matches(core, base + blkStart)
      modifies this`mode, this`comSample, this`comSubSample, this`samplesUnder, this`delivered
      modifies burst, burst.samples
      ensures burst.Valid() && (burst.samples == old(burst.samples) || fresh(burst.samples))
      ensures newStart <= i && samples[..] == old(samples[..])
      ensures Matches(TrackEnd(core, coalesce, hist), base + newStart)
    {
      hide BlockIs, CoreInv, Iqs, ClosedChain, OpenChain, CloseLast, Finish;
      BlockIsShorter(samples, base, i);
      newStart := blkStart;
      if mode != Listen {
        comSample := comSample + 1;
        if mode == Rx {
          comSubSample := comSubSample + 1;
          if samplesUnder >= SAMPLES_UNDER_THRS {
            EndSub(samples, i, blkStart, base, core);
            newStart := i;
          }
        } else if samplesUnder >= coalesce {
          EndBurst(core, base + blkStart);
        }
      }
    }

    /** The end of the burst: it is handed over if a sub-burst is left. */
    method EndBurst(ghost core: Core<Iq>, ghost copied: nat)
      requires burst.Valid() && core.mode.Coalescing? && MidInv(core, |hist|)
      requires mode == Coalescing && coalesce <= core.under && delivered == core.finished
      requires comSample == core.comSample + 1
      requires burst.subBursts == core.subs && origin == core.origin <= copied <= |hist|
      requires burst.Contents() == Iqs(hist[origin..copied]) && SubsCopied(core, copied)
      modifies this`mode, this`delivered, burst`len
      ensures burst.Valid()
      ensures mode == Listen == TrackEnd(core, coalesce, hist).mode
      ensures delivered == TrackEnd(core, coalesce, hist).finished
    {
      mode := Listen;
      if comSample >= MIN_SAMPLES {
        if |burst.subBursts| > 0 {
          Deliver(core, copied);
        }
      }
    }

    /** Hands the finished burst over; its reported length is never forced to zero. */
    method Deliver(ghost core: Core<Iq>, ghost copied: nat)
      requires burst.Valid() && burst.subBursts != [] && burst.subBursts == core.subs
      requires origin == core.origin && ClosedChain(core.subs)
      requires origin <= copied <= |hist| && burst.Contents() == Iqs(hist[origin..copied])
      requires SubsCopied(core, copied)
      modifies this`delivered, burst`len
      ensures burst.Valid()
      ensures core.subs[0].start <= core.subs[|core.subs| - 1].end
      ensures delivered == old(delivered) + [Finish(core.origin, core.subs, hist)]
    {
      hide Iqs, ClosedChain, Matches, Run;
      ghost var end := Last(burst.subBursts).end;
      ghost var contents := burst.Contents();
      ChainIsOrdered(burst.subBursts);
      SliceOfBurst(hist, origin, copied, end);
      burst.Done();
      delivered := delivered + [Finished(origin, burst.subBursts, burst.len, burst.samples[..end])];
      assert burst.samples[..end] == contents[..end];
    }

    /** Corrects sample `i` in place and classifies it. */
    method CorrectSample(samples: array<Iq>, i: nat, ghost base: nat, ghost core: Core<Iq>, ghost copied: nat)
      returns (above: bool)
      requires i < samples.Length && BlockIs(samples, base, i) && |hist| == base + i
      requires burst.Valid() && samples != burst.samples && Matches(core, copied)
      requires (frontEnd, hist) == Corrected(front, frontEnd0, raw)
      modifies this`frontEnd, this`raw, this`hist, samples
      ensures raw == old(raw) + [old(samples[i])]
      ensures (frontEnd, hist) == Corrected(front, frontEnd0, raw)
      ensures |hist| == base + i + 1 && hist[..base + i] == old(hist) && hist[base + i].above == above
      ensures BlockIs(samples, base, i + 1) && Matches(core, copied)
      ensures forall j :: i < j < samples.Length ==> samples[j] == old(samples[j])
    {
      ghost var before := hist;
      CorrectedSnoc(front, frontEnd0, raw, samples[i]);
      raw := raw + [samples[i]];
      var corrected := front(frontEnd, samples[i]);
      frontEnd := corrected.0;
      samples[i] := corrected.1.iq;
      hist := hist + [corrected.1];
      above := corrected.1.above;
      assert mode != Listen ==> hist[origin..copied] == before[origin..copied];
    }

    /** Both halves of the work on sample `i`, once it is corrected. */
    method Track(samples: array<Iq>, i: nat, blkStart: nat, above: bool, ghost base: nat, ghost core: Core<Iq>)
      returns (newStart: nat, ghost next: Core<Iq>)
      requires burst.Valid() && samples != burst.samples
      requires blkStart <= i < samples.Length && BlockIs(samples, base, i + 1) && |hist| == base + i + 1
      requires CoreInv(core, base + i) && Matches(core, base + blkStart)
      modifies this`mode, this`comSample, this`comSubSample, this`samplesUnder, this`origin, this`delivered
      modifies burst, burst.samples
      ensures burst.Valid() && (burst.samples == old(burst.samples) || fresh(burst.samples))
      ensures newStart <= i && samples[..] == old(samples[..])
      ensures MidInv(DetectStart(core, base + i, above), |hist|)
      ensures next == TrackEnd(DetectStart(core, base + i, above), coalesce, hist)
      ensures CoreInv(next, |hist|) && Matches(next, base + newStart)
    {
      hide DetectStart, TrackEnd, CoreInv, MidInv, Matches;
      ghost var started := DetectStart(core, base + i, above);
      DetectStartKeepsInv(core, base + i, above);
      newStart := OnStart(samples, i, blkStart, above, base, core);
      newStart := OnEnd(samples, i, newStart, base, started);
      next := TrackEnd(started, coalesce, hist);
      TrackEndKeepsInv(started, coalesce, hist);
    }

    /** Inside a block: its first `i` samples have been consumed, and the burst in
        progress has been copied out up to sample `blkStart` of the block. */
    ghost predicate InBlock(samples: array<Iq>, base: nat, i: nat, blkStart: nat, core: Core<Iq>)
      reads this, burst, burst.samples, samples
    {
      && burst.Valid() && samples != burst.samples
      && blkStart <= i && |hist| == base + i && BlockIs(samples, base, i)
      && (frontEnd, hist) == Corrected(front, frontEnd0, raw)
      && CoreInv(core, |hist|) && Matches(core, base + blkStart)
    }

    method ProcessOne(samples: array<Iq>, i: nat, blkStart: nat, ghost base: nat, ghost core: Core<Iq>)
      returns (newStart: nat, ghost next: Core<Iq>)
      requires i < samples.Length && InBlock(samples, base, i, blkStart, core)
      modifies this, burst, burst.samples, samples
      ensures InBlock(samples, base, i + 1, newStart, next)
      ensures hist[..base + i] == old(hist)
      ensures MidInv(DetectStart(core, base + i, hist[base + i].above), |hist|)
      ensures next == TrackEnd(DetectStart(core, base + i, hist[base + i].above), coalesce, hist)
      ensures burst.samples == old(burst.samples) || fresh(burst.samples)
      ensures raw == old(raw) + [old(samples[i])]
      ensures forall j :: i < j < samples.Length ==> samples[j] == old(samples[j])
    {
      var above := CorrectSample(samples, i, base, core, base + blkStart);
      newStart, next := Track(samples, i, blkStart, above, base, core);
    }

    /** The samples of a block, one after the other. */
    method ProcessBlock(samples: array<Iq>, ghost core: Core<Iq>) returns (blkStart: nat, ghost last: Core<Iq>)
      requires InBlock(samples, |hist|, 0, 0, core) && core == Run(coalesce, hist)
      modifies this, burst, burst.samples, samples
      ensures InBlock(samples, |old(hist)|, samples.Length, blkStart, last) && last == Run(coalesce, hist)
      ensures burst.samples == old(burst.samples) || fresh(burst.samples)
      ensures raw == old(raw) + old(samples[..])
    {
      hide Run, TrackEnd, DetectStart, CoreInv, MidInv, Matches, BlockIs, Corrected;
      blkStart, last := 0, core;
      ghost var base, block := |hist|, samples[..];
      for i := 0 to samples.Length
        invariant InBlock(samples, base, i, blkStart, last) && last == Run(coalesce, hist)
        invariant burst.samples == old(burst.samples) || fresh(burst.samples)
        invariant raw == old(raw) + block[..i]
        invariant forall j :: i <= j < samples.Length ==> samples[j] == block[j]
        modifies this, burst, burst.samples, samples
      {
        ghost var before := hist;
        assert block[..i + 1] == block[..i] + [block[i]];
        blkStart, last := ProcessOne(samples, i, blkStart, base, last);
        assert hist == before + [hist[base + i]];
        RunStep(coalesce, before, hist[base + i]);
      }
      assert block[..samples.Length] == block;
    }

    lemma BlockBegins(samples: array<Iq>)
      requires Valid() && samples != burst.samples
      ensures InBlock(samples, |hist|, 0, 0, Run(coalesce, hist))
    {
    }

    /** Consumes one block, correcting its samples in place. What is left of a burst
        in progress is copied out before the block goes away. */
    method ProcessSamples(samples: array<Iq>)
      requires Valid() && samples != burst.samples
      modifies this, burst, burst.samples, samples
      ensures Valid() && (burst.samples == old(burst.samples) || fresh(burst.samples))
      ensures raw == old(raw) + old(samples[..])
    {
      hide Run, Corrected, BlockIs, CoreInv;
      BlockBegins(samples);
      ghost var base := |hist|;
      var blkStart, _ := ProcessBlock(samples, Run(coalesce, hist));
      if mode != Listen {
        CopyOut(samples, base, blkStart, samples.Length);
      }
    }
  }

  /** Block-split independence: whatever the blocks, two receivers with the same
      correction stage that have consumed the same stream have delivered the same
      bursts, and these are the expired groups of activities of the stream. */
  lemma BlocksDoNotMatter<F, Iq(0)>(a: RxTimeDomain<F, Iq>, b: RxTimeDomain<F, Iq>)
    requires a.Valid() && b.Valid()
    requires a.front == b.front && a.frontEnd0 == b.frontEnd0 && a.sampleRate == b.sampleRate
    requires a.raw == b.raw
    ensures a.delivered == b.delivered
    ensures a.delivered == Reports(Expired(a.coalesce, a.hist), a.hist)
  {
    FinishedAreExpiredGroups(a.coalesce, a.hist);
  }
}
