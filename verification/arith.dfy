/** Integer division as the source computes it, written out against Dafny's Euclidean `/`. */
module Arith {

  /** Division truncating toward zero, as Python's `int(a / d)` does for a positive divisor. */
  function TruncDiv(a: int, d: int): (q: int)
    requires d > 0
    ensures 0 <= a ==> 0 <= q && q * d <= a < q * d + d
    ensures a < 0 ==> q <= 0 && q * d - d < a <= q * d
  {
    if a >= 0 then a / d else -((-a) / d)
  }

  /** The truncated quotient is the only integer of the same sign whose multiple lies within one divisor of `a`
      on the side of zero: an independent characterisation of `TruncDiv`. */
  lemma TruncDivUnique(a: int, d: int, q: int)
    requires d > 0
    requires 0 <= a ==> 0 <= q && q * d <= a < q * d + d
    requires a < 0 ==> q <= 0 && q * d - d < a <= q * d
    ensures q == TruncDiv(a, d)
  {
    var t := TruncDiv(a, d);
    if q < t {
      MulMonotone(q + 1, t, d);
    } else if t < q {
      MulMonotone(t + 1, q, d);
    }
  }

  lemma MulMonotone(x: int, y: int, d: int)
    requires x <= y && d > 0
    ensures x * d <= y * d
  {
    assert y * d - x * d == (y - x) * d;
  }

  /** Truncation is symmetric about zero, unlike Euclidean or floor division. */
  lemma TruncDivOdd(a: int, d: int)
    requires d > 0
    ensures TruncDiv(-a, d) == -TruncDiv(a, d)
  {
  }

  /** The whole number of `d`-sized units in `a`, rounded down, as Python's `timedelta.days` is for d = 86400. */
  function FloorDiv(a: int, d: int): (q: int)
    requires d > 0
    ensures q * d <= a < q * d + d
  {
    a / d
  }
}
