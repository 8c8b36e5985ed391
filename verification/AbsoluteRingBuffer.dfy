// A ring that remembers the absolute position of its elements and evicts the
// oldest one when it is full.

module AbsoluteRing {
  import opened Basics
  import opened Slots

  class AbsoluteRingBuffer<T(==)> {
    const ringSize: nat
    const ring: array<Option<T>>
    var head: nat
    var tail: nat

    /** Every element, by position, as it was last stored. */
    ghost var log: seq<T>

    ghost predicate Valid()
      reads this, ring
    {
      && 0 < ringSize == ring.Length && head == |log|
      && tail == (if head < ringSize then 0 else head - ringSize)
      && forall p :: tail <= p < head ==> ring[p % ringSize] == Some(log[p])
    }

    constructor (ringSize: nat)
      requires 0 < ringSize
      ensures Valid() && this.ringSize == ringSize && log == [] && fresh(ring)
    {
      this.ringSize := ringSize;
      ring := new Option<T>[ringSize](_ => None);
      head, tail, log := 0, 0, [];
    }

    predicate IsPositionValid(i: nat)
      reads this
    {
      tail <= i < head
    }

    method PushBack(e: T) returns (pos: nat)
      requires Valid()
      modifies this, ring
      ensures Valid() && log == old(log) + [e] && pos == |old(log)|
    {
      if head - tail >= ringSize {
        tail := tail + 1;
      }
      forall p | tail <= p < head
        ensures p % ringSize != head % ringSize
      {
        DistinctSlots(p, head, ringSize);
      }
      ring[head % ringSize] := Some(e);
      pos := head;
      head := head + 1;
      log := log + [e];
    }

    method At(i: nat) returns (e: Option<T>)
      requires Valid()
      ensures e == if tail <= i < head then Some(log[i]) else None
    {
      if IsPositionValid(i) {
        e := ring[i % ringSize];
      } else {
        e := None;
      }
    }

    /** Changes the element at an available position. */
    method Update(i: nat, e: T)
      requires Valid() && tail <= i < head
      modifies this`log, ring
      ensures Valid() && log == old(log)[i := e]
    {
      forall p | tail <= p < head && p != i
        ensures p % ringSize != i % ringSize
      {
        if p < i {
          DistinctSlots(p, i, ringSize);
        } else {
          DistinctSlots(i, p, ringSize);
        }
      }
      ring[i % ringSize] := Some(e);
      log := log[i := e];
    }

    /** A window of elements. One that starts too early is moved, keeping its length,
        to the first available element; one that ends too late is cut. */
    method GetRange(start: nat, end: nat) returns (v: seq<T>, from: nat, upto: nat)
      requires Valid()
      ensures end <= start ==> v == [] && from == start && upto == end
      ensures start < end ==> from == Max(start, tail) && upto == Min(from + (end - start), head)
      ensures start < end && from <= upto ==> v == log[from..upto]
      ensures upto < from ==> v == []
    {
      v, from, upto := [], start, end;
      if end < start + 1 {
        return;
      }
      var length := end - start - 1;
      if from < tail {
        from := tail;
        upto := from + length + 1;
      }
      if upto >= head {
        upto := head;
      }
      var i := from;
      while i < upto
        invariant from <= i && (from <= upto ==> i <= upto) && (upto < from ==> i == from)
        invariant v == (if from <= upto then log[from..i] else [])
        decreases upto - i
      {
        v := v + [ring[i % ringSize].value];
        i := i + 1;
      }
    }
  }
}
