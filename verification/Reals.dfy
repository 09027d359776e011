/** Facts about quotients of reals that several models share. */
module Reals {
  lemma SignOfFactor(d: real, n: real)
    requires n > 0.0 && d * n >= 0.0
    ensures d >= 0.0
  {}

  lemma QuotientBetween(x: real, n: real, lo: real, hi: real)
    requires n > 0.0 && lo * n <= x <= hi * n
    ensures lo <= x / n <= hi
  {
    var q := x / n;
    assert q * n == x;
    assert (q - lo) * n == x - lo * n && (hi - q) * n == hi * n - x;
    SignOfFactor(q - lo, n);
    SignOfFactor(hi - q, n);
  }
}
