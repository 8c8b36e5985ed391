// A burst: the samples of one transmission, copied into a growing buffer, and
// the list of its sub-bursts.

module Bursts {
  import opened Reception

  const BURST_MIN_ALLOC_SIZE: nat := 100000

  /** Unsigned subtraction, which wraps around below zero. */
  function Minus(a: nat, b: nat): nat {
    if b <= a then a - b else (a - b) % 0x1_0000_0000_0000_0000
  }

  class Burst<Iq(0)> {
    var allocatedLen: nat
    var len: nat
    var samples: array<Iq>
    var subBursts: seq<SubBurst>

    ghost predicate Valid()
      reads this
    {
      samples.Length == allocatedLen && len <= allocatedLen
    }

    ghost function Contents(): seq<Iq>
      requires Valid()
      reads this, samples
    {
      samples[..len]
    }

    constructor ()
      ensures Valid() && fresh(samples)
      ensures len == 0 && subBursts == []
    {
      allocatedLen, len, subBursts := 0, 0, [];
      samples := new Iq[0];
      new;
      BumpBufferSize(1);
    }

    /** Makes room for `wanted` samples, keeping the ones there are. */
    method BumpBufferSize(wanted: nat)
      requires Valid()
      modifies this`allocatedLen, this`samples
      ensures Valid() && wanted <= allocatedLen
      ensures old(allocatedLen) <= allocatedLen
      ensures samples == old(samples) || fresh(samples)
      ensures samples[..len] == old(samples[..len])
    {
      if allocatedLen < wanted {
        var length := wanted * 2;
        if length < BURST_MIN_ALLOC_SIZE {
          length := BURST_MIN_ALLOC_SIZE;
        }
        var moved := new Iq[length];
        forall i | 0 <= i < len {
          moved[i] := samples[i];
        }
        samples := moved;
        allocatedLen := length;
      }
    }

    method Start()
      requires Valid()
      modifies this`len, this`subBursts
      ensures Valid() && len == 0 && subBursts == [SubBurst(0, 0, 0)]
    {
      len := 0;
      subBursts := [];
      SubStart();
    }

    /** Copies `count` samples of `src`, starting at `from`, behind the others. */
    method Append(src: array<Iq>, from: nat, count: nat)
      requires Valid() && from + count <= src.Length && src != samples
      modifies this`allocatedLen, this`samples, this`len, samples
      ensures Valid() && (samples == old(samples) || fresh(samples))
      ensures Contents() == old(Contents()) + src[from..from + count]
      ensures src[..] == old(src[..])
    {
      BumpBufferSize(len + count);
      ghost var chunk := src[from..from + count];
      forall i | len <= i < len + count {
        samples[i] := src[from + (i - len)];
      }
      assert samples[..len] == old(Contents());
      forall i | len <= i < len + count
        ensures samples[i] == chunk[i - len]
      {
      }
      assert samples[..len + count] == old(Contents()) + chunk;
      len := len + count;
    }

    /** Closes the burst: its length becomes the distance from the first sub-burst's
        start to the last one's end. */
    method Done()
      requires subBursts != []
      modifies this`len
      ensures len == if subBursts[|subBursts| - 1].end < subBursts[0].start then 0
                     else subBursts[|subBursts| - 1].end - subBursts[0].start
    {
      if subBursts[|subBursts| - 1].end < subBursts[0].start {
        len := 0;
      } else {
        len := subBursts[|subBursts| - 1].end - subBursts[0].start;
      }
    }

    method SubStart()
      modifies this`subBursts
      ensures subBursts == old(subBursts) + [SubBurst(len, 0, 0)]
    {
      subBursts := subBursts + [SubBurst(len, 0, 0)];
    }

    /** Only an unfinished sub-burst can be cancelled. */
    method SubCancel() returns (ok: bool)
      requires subBursts != []
      modifies this`subBursts
      ensures ok <==> old(subBursts)[|old(subBursts)| - 1].end == 0
      ensures subBursts == if ok then old(subBursts)[..|old(subBursts)| - 1] else old(subBursts)
    {
      ok := subBursts[|subBursts| - 1].end == 0;
      if ok {
        subBursts := subBursts[..|subBursts| - 1];
      }
    }

    /** Closes the last sub-burst, leaving out the last `trim` samples. When nothing is
        left the sub-burst is cancelled, which only works if it ends at offset zero. */
    method SubStop(trim: nat) returns (degenerate: bool)
      requires subBursts != []
      modifies this`subBursts
      ensures var k, start, end := |old(subBursts)| - 1, old(subBursts)[|old(subBursts)| - 1].start, Minus(len, trim);
              && (degenerate <==> end <= start)
              && subBursts == if degenerate && end == 0 then old(subBursts)[..k]
                              else old(subBursts)[k := SubBurst(start, end, Minus(end, start))]
    {
      var k := |subBursts| - 1;
      var start, end := subBursts[k].start, Minus(len, trim);
      subBursts := subBursts[k := SubBurst(start, end, Minus(end, start))];
      degenerate := end <= start;
      if degenerate {
        var _ := SubCancel();
      }
    }
  }
}
