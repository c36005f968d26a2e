/** Conversion of a floating-point number to an integer type, over ideal reals. */
module Rounding {
  /** The fraction is dropped. */
  function Truncate(y: real): int {
    if y >= 0.0 then y.Floor else -((-y).Floor)
  }

  lemma TruncateMonotone(x: real, y: real)
    requires x <= y
    ensures Truncate(x) <= Truncate(y)
  {
  }

  lemma TruncateBetween(lo: int, y: real, hi: int)
    requires lo as real <= y <= hi as real
    ensures lo <= Truncate(y) <= hi
  {
  }
}
