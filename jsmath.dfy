/** The JavaScript arithmetic the controllers use, on exact integers:
    `Math.round` of a quotient and `Math.min`. */
module JsMath {

  /** `Math.round(n / d)` for an exact quotient: the nearest integer, a
      half rounding up (towards positive infinity). */
  function RoundDiv(n: int, d: int): (r: int)
    requires d > 0
    ensures 2 * d * r <= 2 * n + d < 2 * d * (r + 1)
  {
    (2 * n + d) / (2 * d)
  }

  /** A quotient between 0 and k rounds to an integer between 0 and k. */
  lemma RoundDivBounds(n: int, d: int, k: int)
    requires d > 0 && 0 <= n <= k * d
    ensures 0 <= RoundDiv(n, d) <= k
  {
    var r := RoundDiv(n, d);
    assert 2 * d * r <= 2 * n + d <= 2 * k * d + d;
    MulMono(2 * d, k + 1, r);
    MulMono(2 * d, r + 1, 0);
  }

  /** A non-negative quotient rounds to a non-negative integer. */
  lemma RoundDivNonNegative(n: int, d: int)
    requires n >= 0 && d > 0
    ensures RoundDiv(n, d) >= 0
  {
    MulMono(2 * d, RoundDiv(n, d) + 1, 0);
  }

  /** Rounding is monotone in the numerator. */
  lemma RoundDivMonotone(n: int, m: int, d: int)
    requires d > 0 && n <= m
    ensures RoundDiv(n, d) <= RoundDiv(m, d)
  {
    var a, b := RoundDiv(n, d), RoundDiv(m, d);
    MulMono(2 * d, b + 1, a);
  }

  /** An exact quotient is its own rounding. */
  lemma RoundDivExact(q: int, d: int)
    requires d > 0
    ensures RoundDiv(q * d, d) == q
  {
    var r := RoundDiv(q * d, d);
    assert 2 * d * q == 2 * (q * d);
    MulMono(2 * d, q + 1, r);
    MulMono(2 * d, r + 1, q);
  }

  /** Multiplying by a non-negative factor keeps the order; stated as an
      implication so that it can be used in any context. */
  lemma MulMono(c: int, x: int, y: int)
    ensures c >= 0 && x <= y ==> c * x <= c * y
  {
    if c >= 0 && x <= y {
      assert c * y - c * x == c * (y - x);
    }
  }

  /** `Math.min` and `Math.max` of two integers. */
  function Min(a: int, b: int): int {
    if a <= b then a else b
  }

  function Max(a: int, b: int): int {
    if a >= b then a else b
  }
}
