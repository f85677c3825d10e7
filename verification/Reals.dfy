/** Exact numbers in the place of floats. */
module Reals {
  type NonNegative = r: real | r >= 0.0

  function MaxReal(a: real, b: real): real
  {
    if a >= b then a else b
  }

  lemma QuotientAtMost(x: real, n: real, bound: real)
    requires n > 0.0 && x <= n * bound
    ensures x / n <= bound
  {
    assert x / n * n == x;
  }
}
