/** Positional number systems, most significant digit first. */
module Positional {
  import opened Arith

  /** Every entry is a digit of the base. */
  ghost predicate AreDigits(d: seq<int>, base: int) {
    forall i :: 0 <= i < |d| ==> 0 <= d[i] < base
  }

  ghost predicate NoLeadingZero(d: seq<int>) {
    d == [] || d[0] != 0
  }

  /** The number a digit string denotes. */
  function Value(d: seq<int>, base: int): int {
    if d == [] then 0 else Value(d[..|d| - 1], base) * base + d[|d| - 1]
  }

  /** The value of n followed by further digits. */
  function ValueFrom(n: int, d: seq<int>, base: int): int
    decreases |d|
  {
    if d == [] then n else ValueFrom(n * base + d[0], d[1..], base)
  }

  /** The digits of n without leading zeros; none for zero. */
  function Digits(n: nat, base: int): (d: seq<int>)
    requires base >= 2
  {
    if n == 0 then [] else
      QuotientSmaller(n, base);
      Digits(n / base, base) + [n % base]
  }

  function Zeros(n: nat): (z: seq<int>)
    ensures |z| == n && forall i :: 0 <= i < n ==> z[i] == 0
  {
    seq(n, _ => 0)
  }

  /** How many zeros a digit string starts with. */
  function LeadingZeros(d: seq<int>): (z: nat)
    ensures z <= |d|
    ensures forall i :: 0 <= i < z ==> d[i] == 0
    ensures z < |d| ==> d[z] != 0
  {
    if d == [] || d[0] != 0 then 0 else 1 + LeadingZeros(d[1..])
  }

  lemma QuotientSmaller(n: int, base: int)
    requires n > 0 && base >= 2
    ensures 0 <= n / base < n
  {
    var q := n / base;
    assert n == q * base + n % base;
    assert q * base == q + (base - 1) * q;
    if q >= n {
      MulAtLeast(base - 1, q);
    }
  }

  lemma {:induction false} ValueNonNegative(d: seq<int>, base: int)
    requires base >= 1 && AreDigits(d, base)
    ensures Value(d, base) >= 0
  {
    if d != [] {
      ValueNonNegative(d[..|d| - 1], base);
      assert Value(d[..|d| - 1], base) * base >= 0;
    }
  }

  lemma {:induction false} ValuePositive(d: seq<int>, base: int)
    requires base >= 1 && AreDigits(d, base) && d != [] && d[0] != 0
    ensures Value(d, base) > 0
  {
    if |d| > 1 {
      ValuePositive(d[..|d| - 1], base);
      MulAtLeast(Value(d[..|d| - 1], base), base);
    } else {
      assert d[..0] == [];
    }
  }

  /** Both readings of a digit string agree. */
  lemma {:induction false} ValueFromSnoc(n: int, d: seq<int>, x: int, base: int)
    ensures ValueFrom(n, d + [x], base) == ValueFrom(n, d, base) * base + x
    decreases |d|
  {
    if d == [] {
      assert [x][1..] == [];
    } else {
      ValueFromSnoc(n * base + d[0], d[1..], x, base);
      assert (d + [x])[1..] == d[1..] + [x];
    }
  }

  lemma {:induction false} ValueFromZero(d: seq<int>, base: int)
    ensures ValueFrom(0, d, base) == Value(d, base)
  {
    if d != [] {
      var i := d[..|d| - 1];
      ValueFromZero(i, base);
      ValueFromSnoc(0, i, d[|d| - 1], base);
      assert d == i + [d[|d| - 1]];
    }
  }

  /** A run of zeros inside a digit string, split off. */
  lemma SplitZeros(d: seq<int>, start: nat, end: nat)
    requires start <= end <= |d| && forall i :: start <= i < end ==> d[i] == 0
    ensures d[start..] == Zeros(end - start) + d[end..]
  {
  }

  lemma ValueDropZero(d: seq<int>, base: int)
    requires d != [] && d[0] == 0
    ensures Value(d, base) == Value(d[1..], base)
  {
    ValueFromZero(d, base);
    ValueFromZero(d[1..], base);
  }

  lemma {:induction false} ValueDropZeros(z: nat, d: seq<int>, base: int)
    ensures Value(Zeros(z) + d, base) == Value(d, base)
  {
    if z == 0 {
      assert Zeros(0) + d == d;
    } else {
      ValueDropZero(Zeros(z) + d, base);
      assert (Zeros(z) + d)[1..] == Zeros(z - 1) + d;
      ValueDropZeros(z - 1, d, base);
    }
  }

  /** Digits produces a canonical digit string that denotes n. */
  lemma {:induction false} DigitsDenote(n: nat, base: int)
    requires base >= 2
    ensures Value(Digits(n, base), base) == n
    ensures AreDigits(Digits(n, base), base) && NoLeadingZero(Digits(n, base))
  {
    hide Value, Digits;
    DigitsOfZero(base);
    if n > 0 {
      QuotientSmaller(n, base);
      DigitsDenote(n / base, base);
      DigitsSnoc(n, base);
      DenoteOneMore(n, Digits(n / base, base), base);
    }
  }

  lemma DigitsOfZero(base: int)
    requires base >= 2
    ensures Digits(0, base) == [] && Value([], base) == 0
  {
  }

  /** The digits of the quotient followed by the remainder denote the number. */
  lemma DenoteOneMore(n: nat, d: seq<int>, base: int)
    requires base >= 2 && n > 0 && AreDigits(d, base) && NoLeadingZero(d) && Value(d, base) == n / base
    ensures Value(d + [n % base], base) == n
    ensures AreDigits(d + [n % base], base) && NoLeadingZero(d + [n % base])
  {
    hide Value;
    ValueSnoc(d, n % base, base);
    QuotientAndRemainder(n, base);
    if d == [] {
      DigitsOfZero(base);
    }
  }

  lemma QuotientAndRemainder(n: int, base: int)
    requires base > 0
    ensures n == n / base * base + n % base && 0 <= n % base < base
  {
  }

  lemma DigitsSnoc(n: nat, base: int)
    requires base >= 2 && n > 0
    ensures n / base >= 0 && Digits(n, base) == Digits(n / base, base) + [n % base]
    ensures Digits(n, base)[..|Digits(n, base)| - 1] == Digits(n / base, base)
  {
    QuotientSmaller(n, base);
  }

  /** A canonical digit string is recovered from its value. */
  lemma {:induction false} DigitsUnique(d: seq<int>, base: int)
    requires base >= 2 && AreDigits(d, base) && NoLeadingZero(d)
    ensures Value(d, base) >= 0 && Digits(Value(d, base), base) == d
  {
    ValueNonNegative(d, base);
    if d != [] {
      ValuePositive(d, base);
      var i, x := d[..|d| - 1], d[|d| - 1];
      DigitsUnique(i, base);
      DivModUnique(Value(d, base), Value(i, base), x, base);
      assert d == i + [x];
    }
  }

  // ---- schoolbook division ----------------------------------------------------------

  /** Quotient digits (same length) and remainder of dividing a base-`base` number by `divisor`. */
  datatype Division = Division(quotient: seq<int>, remainder: int)

  function Divide(d: seq<int>, base: int, divisor: int): Division
    requires divisor > 0
  {
    if d == [] then Division([], 0) else
      var r := Divide(d[..|d| - 1], base, divisor);
      var t := r.remainder * base + d[|d| - 1];
      Division(r.quotient + [t / divisor], t % divisor)
  }

  lemma DivideNothing(base: int, divisor: int)
    requires divisor > 0
    ensures Divide([], base, divisor) == Division([], 0)
  {
  }

  lemma DivideStep(d: seq<int>, x: int, base: int, divisor: int)
    requires divisor > 0
    ensures var r := Divide(d, base, divisor);
            var t := r.remainder * base + x;
            Divide(d + [x], base, divisor) == Division(r.quotient + [t / divisor], t % divisor)
  {
    assert (d + [x])[..|d|] == d;
  }

  /** The quotient stays within the base: a digit never overflows its array slot. */
  lemma QuotientDigit(rem: int, x: int, base: int, divisor: int)
    requires base >= 1 && divisor >= 1 && 0 <= rem < divisor && 0 <= x < base
    ensures 0 <= (rem * base + x) / divisor < base && 0 <= (rem * base + x) % divisor < divisor
    ensures 0 <= rem * base + x < divisor * base
  {
    var t := rem * base + x;
    MulNonNegative(rem, base);
    MulAtLeast(divisor - rem, base);
    assert (divisor - rem) * base == divisor * base - rem * base;
    QuotientBounds(t, divisor, base);
  }

  lemma ValueSnoc(d: seq<int>, x: int, base: int)
    ensures Value(d + [x], base) == Value(d, base) * base + x
  {
    assert (d + [x])[..|d|] == d;
  }

  /** What Divide is for: the digit-wise result r of d. */
  ghost predicate Divides(d: seq<int>, r: Division, base: int, divisor: int)
    requires divisor > 0
  {
    && |r.quotient| == |d| && AreDigits(r.quotient, base) && 0 <= r.remainder < divisor
    && Value(r.quotient, base) == Value(d, base) / divisor
    && r.remainder == Value(d, base) % divisor
  }

  lemma DividesStep(d: seq<int>, x: int, r: Division, base: int, divisor: int)
    requires base >= 1 && divisor >= 1 && Divides(d, r, base, divisor) && 0 <= x < base
    ensures var t := r.remainder * base + x;
            Divides(d + [x], Division(r.quotient + [t / divisor], t % divisor), base, divisor)
  {
    hide Value;
    var t := r.remainder * base + x;
    QuotientDigit(r.remainder, x, base, divisor);
    ValueSnoc(d, x, base);
    ValueSnoc(r.quotient, t / divisor, base);
    QuotientAndRemainder(Value(d, base), divisor);
    DivisionExtends(Value(d, base), Value(r.quotient, base), r.remainder, x, base, divisor);
  }

  /** Digit-wise division divides the value. */
  lemma {:induction false} DivideIsDivision(d: seq<int>, base: int, divisor: int)
    requires base >= 2 && divisor >= 2 && AreDigits(d, base)
    ensures Divides(d, Divide(d, base, divisor), base, divisor)
  {
    hide Divides, Divide;
    if d == [] {
      NothingDivides(base, divisor);
    } else {
      var i, x := d[..|d| - 1], d[|d| - 1];
      DivideIsDivision(i, base, divisor);
      DividesStep(i, x, Divide(i, base, divisor), base, divisor);
      DivideStep(i, x, base, divisor);
      assert d == i + [x];
    }
  }

  lemma NothingDivides(base: int, divisor: int)
    requires base >= 2 && divisor >= 2
    ensures Divides([], Divide([], base, divisor), base, divisor)
  {
    hide Value;
    DivideNothing(base, divisor);
    DigitsOfZero(base);
    DivModUnique(0, 0, 0, divisor);
  }

  lemma DivisionExtends(v: int, w: int, rem: int, x: int, base: int, divisor: int)
    requires divisor > 0 && v == w * divisor + rem
    ensures var t := rem * base + x;
            (v * base + x) / divisor == w * base + t / divisor && (v * base + x) % divisor == t % divisor
  {
    var t := rem * base + x;
    calc {
      v * base + x;
      (w * divisor + rem) * base + x;
      (w * divisor) * base + t;
      { MulSwap(w, divisor, base); }
      t + (w * base) * divisor;
    }
    ModAddMultiple(t, w * base, divisor);
  }

  lemma MulSwap(a: int, b: int, c: int)
    ensures (a * b) * c == (a * c) * b
  {
  }

  /** The leading quotient digit, and why the next one is not zero when it is. */
  lemma {:induction false} DivideLeading(d: seq<int>, base: int, divisor: int)
    requires base >= 2 && divisor >= 2 && AreDigits(d, base) && d != []
    ensures var r := Divide(d, base, divisor);
            && |r.quotient| == |d| && r.quotient[0] == d[0] / divisor
            && (|d| == 1 ==> r.remainder == d[0] % divisor)
            && (|d| > 1 && base >= divisor && d[0] % divisor != 0 ==> r.quotient[1] != 0)
  {
    var i, x := d[..|d| - 1], d[|d| - 1];
    if |d| == 1 {
      assert i == [];
    } else {
      DivideLeading(i, base, divisor);
      if |d| == 2 && base >= divisor && d[0] % divisor != 0 {
        var rem := Divide(i, base, divisor).remainder;
        MulAtLeast(rem, base);
        QuotientPositive(rem * base + x, divisor);
      }
    }
  }
}
