/**
 * Small facts about integer multiplication and division that the rounding
 * arguments of the percentage and rate displays rest on.
 */
module Arith {

  /** Euclidean division by a positive divisor brackets the dividend. */
  lemma DivBounds(n: int, d: int)
    requires d > 0
    ensures d * (n / d) <= n < d * (n / d) + d
  {
  }

  /** A product with a positive factor has the sign of the other factor. */
  lemma PositiveFactor(n: int, k: int)
    requires n > 0
    ensures n * k > 0 <==> k > 0
    ensures n * k < 0 <==> k < 0
  {
  }

  /** Multiplying by a non-negative factor preserves order. */
  lemma MulMonotone(a: int, b: int, t: int)
    requires a <= b && t >= 0
    ensures a * t <= b * t
  {
  }
}
