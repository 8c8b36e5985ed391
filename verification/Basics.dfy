// Types and conversions shared by the other modules.

module Basics {
  datatype Option<T> = None | Some(value: T)

  type Byte = b: int | 0 <= b < 0x100

  /** Conversion of a number to an integer type: toward zero. */
  function Trunc(x: real): int {
    if x >= 0.0 then x.Floor else -((-x).Floor)
  }

  /** The integer next to a number, on the side of zero. */
  predicate CutTo(x: real, n: int) {
    if x >= 0.0 then n as real <= x < n as real + 1.0 else n as real - 1.0 < x <= n as real
  }

  lemma TruncIsTowardZero(x: real)
    ensures CutTo(x, Trunc(x))
  {
  }
}
