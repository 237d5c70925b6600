/** Arithmetic modulo a prime. */
module ModArith {
  import opened Arith

  ghost predicate IsPrime(n: int) {
    n >= 2 && forall d :: 2 <= d < n ==> n % d != 0
  }

  /** A reduced summand may be replaced by the unreduced one. */
  lemma ModAdd(a: int, b: int, n: int)
    requires n > 0
    ensures (a % n + b) % n == (a + b) % n
  {
    assert a == a % n + (a / n) * n;
    ModAddMultiple(a % n + b, a / n, n);
  }

  /** A reduced factor may be replaced by the unreduced one. */
  lemma ModMul(a: int, b: int, n: int)
    requires n > 0
    ensures ((a % n) * b) % n == (a * b) % n
  {
    var q, m := a / n, a % n;
    assert a == m + q * n;
    calc {
      a * b;
      (m + q * n) * b;
      m * b + (q * n) * b;
      { MulShuffle(q, n, b); }
      m * b + (q * b) * n;
    }
    ModAddMultiple(m * b, q * b, n);
  }

  lemma MulShuffle(a: int, b: int, c: int)
    ensures (a * b) * c == (a * c) * b
    ensures (a * b) * c == a * (b * c)
  {
  }

  lemma ModSmall(a: int, n: int)
    requires 0 <= a < n
    ensures a % n == a
  {
    DivModUnique(a, 0, a, n);
  }

  /** Two congruent numbers stay congruent under addition and multiplication. */
  lemma CongruentSum(a: int, b: int, c: int, n: int)
    requires n > 0 && a % n == b % n
    ensures (a + c) % n == (b + c) % n
  {
    ModAdd(a, c, n);
    ModAdd(b, c, n);
  }

  lemma CongruentProduct(a: int, b: int, c: int, n: int)
    requires n > 0 && a % n == b % n
    ensures (a * c) % n == (b * c) % n
    ensures (c * a) % n == (c * b) % n
  {
    ModMul(a, c, n);
    ModMul(b, c, n);
  }

  /** The inverse of r modulo a prime n, by n = (n / r) r + n % r. */
  function ModInverse(r: int, n: int): (i: int)
    requires IsPrime(n) && 0 < r < n
    ensures 0 < i < n && (r * i) % n == 1
    decreases r
  {
    if r == 1 then ModSmall(1, n); 1 else
      assert n % r != 0;
      var i := (-(n / r) * ModInverse(n % r, n)) % n;
      InverseStep(r, ModInverse(n % r, n), n);
      i
  }

  lemma InverseStep(r: int, t: int, n: int)
    requires 2 <= r < n && ((n % r) * t) % n == 1
    ensures var i := (-(n / r) * t) % n; 0 < i < n && (r * i) % n == 1
  {
    var q, m := n / r, n % r;
    var i := (-q * t) % n;
    assert m == n - q * r;
    ModMul(-q * t, r, n);
    calc {
      (-q * t) * r;
      { MulShuffle(-q, t, r); }
      (-q * r) * t;
      { assert -q * r == m - n; }
      (m - n) * t;
      m * t + (-t) * n;
    }
    ModAddMultiple(m * t, -t, n);
    assert (i * r) % n == 1;
    if i == 0 {
      ModSmall(0, n);
    }
  }

  lemma ModMulRight(a: int, b: int, n: int)
    requires n > 0
    ensures (a * (b % n)) % n == (a * b) % n
  {
    ModMul(b, a, n);
    MulComm(b % n, a);
    MulComm(b, a);
  }

  lemma MulComm(a: int, b: int)
    ensures a * b == b * a
  {
  }

  /** a x = b has exactly one solution modulo n, namely inv b. */
  lemma SolveLinear(a: int, inv: int, b: int, x: int, n: int)
    requires n >= 2 && (a * inv) % n == 1 && 0 <= x < n
    ensures (a * x) % n == b % n <==> x == (inv * b) % n
  {
    if (a * x) % n == b % n {
      SolutionIs(a, inv, b, x, n);
    }
    if x == (inv * b) % n {
      SolutionWorks(a, inv, b, n);
    }
  }

  lemma SolutionIs(a: int, inv: int, b: int, x: int, n: int)
    requires n >= 2 && (a * inv) % n == 1 && 0 <= x < n && (a * x) % n == b % n
    ensures x == (inv * b) % n
  {
    calc {
      x;
      { ModSmall(x, n); UndoFactor(a, inv, x, n); }
      (inv * (a * x)) % n;
      { CongruentProduct(a * x, b, inv, n); }
      (inv * b) % n;
    }
  }

  lemma SolutionWorks(a: int, inv: int, b: int, n: int)
    requires n >= 2 && (a * inv) % n == 1
    ensures (a * ((inv * b) % n)) % n == b % n
  {
    calc {
      (a * ((inv * b) % n)) % n;
      { ModMulRight(a, inv * b, n); }
      (a * (inv * b)) % n;
      { MulComm(a, inv); UndoFactor(inv, a, b, n); }
      b % n;
    }
  }

  /** Multiplying by a number and its inverse changes nothing. */
  lemma UndoFactor(a: int, inv: int, c: int, n: int)
    requires n >= 2 && (a * inv) % n == 1
    ensures (inv * (a * c)) % n == c % n
  {
    ModMul(a * inv, c, n);
    MulShuffle(inv, a, c);
    assert (a * inv) * c == inv * (a * c);
  }
}
