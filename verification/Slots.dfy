// Positions of the unbounded stream and the slots of a ring of fixed length.

module Slots {

  function Min(a: int, b: int): int {
    if a < b then a else b
  }

  function Max(a: int, b: int): int {
    if a > b then a else b
  }

  /** A product strictly between two neighbouring multiples of the length is zero. */
  lemma SmallMultiple(k: int, length: nat)
    requires -(length as int) < k * length < length
    ensures k == 0
  {
    if k >= 1 {
      MulMono(1, k, length);
    } else if k <= -1 {
      MulMono(k, -1, length);
    }
  }

  lemma MulMono(a: int, b: int, c: nat)
    requires a <= b
    ensures a * c <= b * c
  {
    assert b * c == a * c + (b - a) * c;
  }

  /** The quotient and the remainder of a division are unique. */
  lemma DivModUnique(x: int, d: int, r: nat, length: nat)
    requires r < length
    requires x == d * length + r
    ensures x % length == r && x / length == d
  {
    var e, s := x / length, x % length;
    assert x == e * length + s;
    assert (e - d) * length == r - s by {
      Distribute(e, d, length);
    }
    SmallMultiple(e - d, length);
  }

  lemma Distribute(a: int, b: int, c: int)
    ensures (a - b) * c == a * c - b * c
  {
  }

  /** Two positions less than one ring length apart never share a slot. */
  lemma DistinctSlots(p: nat, q: nat, length: nat)
    requires 0 < length
    requires p < q < p + length
    ensures p % length != q % length
  {
    if p % length == q % length {
      var d, e := p / length, q / length;
      assert p == d * length + p % length && q == e * length + q % length;
      Distribute(e, d, length);
      SmallMultiple(e - d, length);
    }
  }

  /** Walking forward without reaching the end of the ring walks the slots forward. */
  lemma ForwardSlot(p: nat, k: nat, length: nat)
    requires 0 < length
    requires p % length + k < length
    ensures (p + k) % length == p % length + k
  {
    DivModUnique(p + k, p / length, p % length + k, length);
  }
}
