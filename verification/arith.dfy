/** JavaScript's `Math.round`, and facts about real division and
    multiplication that the solver does not find unaided. */
module Arith {

  /** `Math.round`: the nearest integer, halves rounding up. */
  function Round(x: real): (r: int)
    ensures r as real - 0.5 <= x < r as real + 0.5
  {
    (x + 0.5).Floor
  }

  lemma DivAtMostOne(a: real, n: real)
    requires 0.0 <= a <= n && n > 0.0
    ensures 0.0 <= a / n <= 1.0
  {
    assert a / n * n == a;
  }

  lemma DivMonotone(a: real, b: real, n: real)
    requires a <= b && n > 0.0
    ensures a / n <= b / n
  {
    assert a / n * n == a && b / n * n == b;
  }

  lemma DivNonNegative(a: real, n: real)
    requires a >= 0.0 && n > 0.0
    ensures a / n >= 0.0
  {
    assert a / n * n == a;
  }

  /** A quotient `x` of `s` by `n` lies in [0, hi] when `s` lies in
      [0, hi * n]. */
  lemma QuotientBound(x: real, s: real, n: real, hi: real)
    requires n > 0.0 && x * n == s && 0.0 <= s <= hi * n
    ensures 0.0 <= x <= hi
  {
    assert x == s / n;
    DivNonNegative(s, n);
    DivMonotone(s, hi * n, n);
    assert hi * n / n == hi;
  }

  lemma MulNonNegative(a: real, b: real)
    requires a >= 0.0 && b >= 0.0
    ensures a * b >= 0.0
  {
  }
}
