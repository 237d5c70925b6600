/** Facts about integer division and remainder by a variable divisor. */
module Arith {

  lemma MulAtLeast(k: int, r: int)
    requires k >= 1 && r >= 0
    ensures k * r >= r
  {
    assert (k - 1) * r >= 0;
    assert k * r == (k - 1) * r + r;
  }

  lemma MulNonNegative(a: int, b: int)
    requires a >= 0 && b >= 0
    ensures a * b >= 0
  {
  }

  /** Quotient and remainder are determined by n == q * r + m with m in range. */
  lemma DivModUnique(n: int, q: int, m: int, r: int)
    requires 0 <= m < r && n == q * r + m
    ensures n / r == q && n % r == m
  {
    var q', m' := n / r, n % r;
    assert n == q' * r + m' && 0 <= m' < r;
    assert (q - q') * r == m' - m;
    if q > q' {
      MulAtLeast(q - q', r);
    } else if q < q' {
      MulAtLeast(q' - q, r);
    }
  }

  /** Adding a multiple of the modulus does not change the remainder. */
  lemma ModAddMultiple(n: int, k: int, r: int)
    requires r > 0
    ensures (n + k * r) % r == n % r
    ensures (n + k * r) / r == n / r + k
  {
    assert n == (n / r) * r + n % r;
    assert n + k * r == (n / r + k) * r + n % r;
    DivModUnique(n + k * r, n / r + k, n % r, r);
  }

  /** A quotient stays below `bound` as long as the dividend stays below divisor * bound. */
  lemma QuotientBounds(t: int, divisor: int, bound: int)
    requires divisor > 0 && 0 <= t < divisor * bound
    ensures 0 <= t / divisor < bound
  {
    var q := t / divisor;
    assert t == q * divisor + t % divisor;
    assert (q - bound) * divisor == q * divisor - divisor * bound;
    if q >= bound {
      MulNonNegative(q - bound, divisor);
    } else if q < 0 {
      MulAtLeast(-q, divisor);
    }
  }

  lemma QuotientPositive(t: int, divisor: int)
    requires divisor > 0 && t >= divisor
    ensures t / divisor > 0
  {
    ModAddMultiple(t - divisor, 1, divisor);
    QuotientBounds(t - divisor, divisor, t - divisor + 1) by { MulAtLeast(divisor, t - divisor + 1); }
  }
}
