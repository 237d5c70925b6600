/** ECDSA over a prime-order group, a point being its discrete logarithm: the point kG is the
    number k modulo n, and 0 is the point at infinity.  The coordinate functions and point
    decompression belong to the curve library and are parameters. */
module Ecdsa {
  import opened Arith
  import opened ModArith
  import opened Positional
  import opened Base58

  datatype Option<T> = None | Some(value: T)

  /** Group order n, field prime p, affine x-coordinate, low bit of y, and decodePoint. */
  datatype Curve = Curve(n: int, p: int, x: int -> int, odd: int -> bool, decompress: (int, bool) -> Option<int>)

  /** What the program relies on: n is an odd prime with p < 2n, the x-coordinate determines a
      point up to sign, the low bit of y tells a point from its negative, and decodePoint
      returns the point with the given x-coordinate and bit when there is one. */
  ghost predicate ValidCurve(c: Curve) {
    && IsPrime(c.n) && c.n > 2 && 0 < c.p < 2 * c.n
    && CoordinatesFit(c) && SignsPair(c) && DecodesPoints(c)
  }

  ghost predicate CoordinatesFit(c: Curve) {
    && (forall P :: 0 < P < c.n ==> 0 <= c.x(P) < c.p)
    && (forall P :: 0 < P < c.n ==> c.odd(P) != c.odd(c.n - P))
  }

  ghost predicate SignsPair(c: Curve) {
    forall P, Q :: 0 < P < c.n && 0 < Q < c.n ==> (c.x(P) == c.x(Q) <==> Q == P || Q == c.n - P)
  }

  ghost predicate DecodesPoints(c: Curve) {
    && (forall P :: 0 < P < c.n ==> c.decompress(c.x(P), c.odd(P)) == Some(P))
    && (forall X, b :: c.decompress(X, b).Some? ==>
         var P := c.decompress(X, b).value; 0 < P < c.n && c.x(P) == X && c.odd(P) == b)
  }

  // ---- the standard, SEC 1 version 2 ------------------------------------------------

  /** Signature verification, section 4.1.4: with u1 = e/s and u2 = r/s the point u1 G + u2 Q
      is not infinity and its x-coordinate reduces to r. */
  ghost predicate Verifies(c: Curve, Q: int, r: int, s: int, e: int)
    requires IsPrime(c.n)
  {
    && 0 < r < c.n && 0 < s < c.n
    && var u1 := (e * ModInverse(s, c.n)) % c.n;
       var u2 := (r * ModInverse(s, c.n)) % c.n;
       var R := (u1 + u2 * Q) % c.n;
       R != 0 && c.x(R) % c.n == r
  }

  /** Signing operation, section 4.1.3, with private key d and nonce k. */
  ghost predicate IsSignature(c: Curve, d: int, k: int, e: int, r: int, s: int)
    requires IsPrime(c.n)
  {
    && 0 < d < c.n && 0 < k < c.n && 0 < r < c.n && 0 < s < c.n
    && r == c.x(k) % c.n
    && s == (ModInverse(k, c.n) * (e + r * d)) % c.n
  }

  // ---- recovery ---------------------------------------------------------------------

  /** A key, the program's null, or an exception. */
  datatype Recovery = Key(q: int) | NoKey | Throws

  /** recoverPubBytesFromSignature, the hash already read as the number e.  A point that does
      not decode and an r without inverse both end in an exception of the library. */
  function Recover(c: Curve, recId: int, r: int, s: int, e: int): Recovery
    requires IsPrime(c.n)
  {
    if recId < 0 || r < 0 || s < 0 then Throws else
      var i := recId / 2;
      var x := r + i * c.n;
      if x >= c.p then NoKey else
        match c.decompress(x, recId % 2 == 1)
        case None => Throws
        case Some(R) =>
          if (c.n * R) % c.n != 0 then NoKey
          else if r % c.n == 0 then Throws
          else
            var eInv := (0 - e) % c.n;
            var rInv := ModInverse(r % c.n, c.n);
            var srInv := (rInv * s) % c.n;
            var eInvrInv := (rInv * eInv) % c.n;
            Key((eInvrInv * 1 + srInv * R) % c.n)
  }

  /** The recovered point is (sR - eG) / r. */
  lemma KeyFormula(rInv: int, s: int, R: int, e: int, n: int)
    requires n > 0
    ensures ((rInv * ((0 - e) % n)) % n * 1 + (rInv * s) % n * R) % n == (rInv * (s * R - e)) % n
  {
    var a, b := rInv * ((0 - e) % n), rInv * s;
    calc {
      (a % n * 1 + b % n * R) % n;
      (a % n + b % n * R) % n;
      { ModAdd(a, b % n * R, n); }
      (a + b % n * R) % n;
      { ModMul(b, R, n); CongruentSum(b % n * R, b * R, a, n); }
      (b * R + a) % n;
      { ModMulRight(rInv, 0 - e, n); CongruentSum(a, rInv * (0 - e), b * R, n); }
      (rInv * (0 - e) + b * R) % n;
      { MulShuffle(rInv, s, R); }
      (rInv * (0 - e) + rInv * (s * R)) % n;
      (rInv * (s * R - e)) % n;
    }
  }

  /** The point of the verification equation is (e + rQ) / s. */
  lemma PointFormula(sInv: int, r: int, Q: int, e: int, n: int)
    requires n > 0
    ensures ((e * sInv) % n + (r * sInv) % n * Q) % n == (sInv * (e + r * Q)) % n
  {
    var a, b := e * sInv, r * sInv;
    calc {
      (a % n + b % n * Q) % n;
      { ModAdd(a, b % n * Q, n); }
      (a + b % n * Q) % n;
      { ModMul(b, Q, n); CongruentSum(b % n * Q, b * Q, a, n); }
      (b * Q + a) % n;
      { MulShuffle(r, sInv, Q); MulComm(r * Q, sInv); MulComm(e, sInv); }
      (sInv * (r * Q) + sInv * e) % n;
      (sInv * (e + r * Q)) % n;
    }
  }

  /** The relation both computations solve: sR = e + rQ modulo n. */
  ghost predicate OnLine(n: int, R: int, Q: int, r: int, s: int, e: int)
    requires n > 0
  {
    (s * R) % n == (e + r * Q) % n
  }

  lemma PointIsOnLine(n: int, R: int, Q: int, r: int, s: int, e: int)
    requires IsPrime(n) && 0 < s < n && 0 <= R < n
    ensures var sInv := ModInverse(s, n);
            R == ((e * sInv) % n + (r * sInv) % n * Q) % n <==> OnLine(n, R, Q, r, s, e)
  {
    var sInv := ModInverse(s, n);
    PointFormula(sInv, r, Q, e, n);
    SolveLinear(s, sInv, e + r * Q, R, n);
  }

  lemma KeyIsOnLine(n: int, R: int, Q: int, r: int, s: int, e: int)
    requires IsPrime(n) && 0 < r < n && 0 <= Q < n
    ensures var rInv := ModInverse(r, n);
            Q == ((rInv * ((0 - e) % n)) % n * 1 + (rInv * s) % n * R) % n <==> OnLine(n, R, Q, r, s, e)
  {
    var rInv := ModInverse(r, n);
    KeyFormula(rInv, s, R, e, n);
    SolveLinear(r, rInv, s * R - e, Q, n);
    if (r * Q) % n == (s * R - e) % n {
      CongruentSum(r * Q, s * R - e, e, n);
    }
    if OnLine(n, R, Q, r, s, e) {
      CongruentSum(s * R, e + r * Q, -e, n);
    }
  }

  /** The point of the verification equation. */
  function PointOf(c: Curve, Q: int, r: int, s: int, e: int): (R: int)
    requires IsPrime(c.n) && 0 < s < c.n
    ensures 0 <= R < c.n
  {
    ((e * ModInverse(s, c.n)) % c.n + (r * ModInverse(s, c.n)) % c.n * Q) % c.n
  }

  /** Recovery is sound: whatever key comes back, the signature verifies under it. */
  lemma RecoverSound(c: Curve, recId: int, r: int, s: int, e: int)
    requires ValidCurve(c) && 0 < r < c.n && 0 < s < c.n
    requires Recover(c, recId, r, s, e).Key?
    ensures var Q := Recover(c, recId, r, s, e).q;
            0 <= Q < c.n && Verifies(c, Q, r, s, e)
            && c.decompress(r + recId / 2 * c.n, recId % 2 == 1) == Some(PointOf(c, Q, r, s, e))
            && c.x(PointOf(c, Q, r, s, e)) == r + recId / 2 * c.n
            && c.odd(PointOf(c, Q, r, s, e)) == (recId % 2 == 1)
  {
    hide IsPrime, ModInverse;
    var Q := Recover(c, recId, r, s, e).q;
    var x := r + recId / 2 * c.n;
    var R := c.decompress(x, recId % 2 == 1).value;
    ModSmall(r, c.n);
    ModAddMultiple(r, recId / 2, c.n);
    KeyIsOnLine(c.n, R, Q, r, s, e);
    PointIsOnLine(c.n, R, Q, r, s, e);
  }

  /** The recovery id that names a point: its x-coordinate beyond r, and the parity of y. */
  function RecIdOf(c: Curve, R: int): int
    requires c.n > 0
  {
    2 * (c.x(R) / c.n) + if c.odd(R) then 1 else 0
  }

  lemma CurveOrder(c: Curve)
    requires ValidCurve(c)
    ensures IsPrime(c.n) && c.n > 2 && 0 < c.p < 2 * c.n
  {
    hide IsPrime;
  }

  /** A point and its negative, and decoding the point from its coordinate and parity. */
  lemma PointLaws(c: Curve, P: int)
    requires ValidCurve(c) && 0 < P < c.n
    ensures 0 <= c.x(P) < c.p && c.x(c.n - P) == c.x(P) && c.odd(c.n - P) != c.odd(P)
    ensures c.decompress(c.x(P), c.odd(P)) == Some(P)
  {
    hide IsPrime;
  }

  /** The point of a verifying signature's equation. */
  lemma VerifiedPoint(c: Curve, Q: int, r: int, s: int, e: int)
    requires ValidCurve(c) && Verifies(c, Q, r, s, e)
    ensures 0 < r < c.n && 0 < s < c.n
    ensures var R := PointOf(c, Q, r, s, e);
            0 < R < c.n && 0 <= c.x(R) < c.p && c.x(R) % c.n == r && c.x(R) == c.x(R) / c.n * c.n + r
  {
    hide IsPrime, ModInverse, ValidCurve;
    CurveOrder(c);
    var R := PointOf(c, Q, r, s, e);
    PointLaws(c, R);
    QuotientAndRemainder(c.x(R), c.n);
  }

  lemma PointOfIsOnLine(c: Curve, Q: int, r: int, s: int, e: int)
    requires IsPrime(c.n) && 0 < s < c.n
    ensures OnLine(c.n, PointOf(c, Q, r, s, e), Q, r, s, e)
  {
    hide IsPrime, ModInverse, OnLine;
    PointIsOnLine(c.n, PointOf(c, Q, r, s, e), Q, r, s, e);
  }

  /** The id of a point halves to its x-coordinate's overflow and keeps its parity. */
  lemma RecIdParts(c: Curve, R: int)
    requires c.n > 0 && 0 <= c.x(R) < 2 * c.n
    ensures var id := RecIdOf(c, R); 0 <= id < 4 && id / 2 == c.x(R) / c.n && (id % 2 == 1) == c.odd(R)
  {
    QuotientBounds(c.x(R), c.n, 2);
  }

  /** The id that names the point of Q's equation recovers Q. */
  lemma NamedIdYields(c: Curve, Q: int, r: int, s: int, e: int)
    requires ValidCurve(c) && 0 <= Q < c.n && Verifies(c, Q, r, s, e)
    ensures var id := RecIdOf(c, PointOf(c, Q, r, s, e)); 0 <= id < 4 && Recover(c, id, r, s, e) == Key(Q)
  {
    hide Recover, IsPrime, ModInverse, ValidCurve, PointOf, OnLine, RecIdOf;
    CurveOrder(c);
    VerifiedPoint(c, Q, r, s, e);
    var R := PointOf(c, Q, r, s, e);
    PointLaws(c, R);
    RecIdParts(c, R);
    RecoverFrom(c, RecIdOf(c, R), R, r, s, e);
    PointOfIsOnLine(c, Q, r, s, e);
    KeyIsOnLine(c.n, R, Q, r, s, e);
  }

  /** The last steps of recovery, once the point has decoded. */
  lemma RecoverFrom(c: Curve, recId: int, R: int, r: int, s: int, e: int)
    requires IsPrime(c.n) && recId >= 0 && 0 < r < c.n && s >= 0
    requires r + recId / 2 * c.n < c.p && c.decompress(r + recId / 2 * c.n, recId % 2 == 1) == Some(R)
    ensures var rInv := ModInverse(r, c.n);
            Recover(c, recId, r, s, e) == Key(((rInv * ((0 - e) % c.n)) % c.n * 1 + (rInv * s) % c.n * R) % c.n)
  {
    ModSmall(r, c.n);
    ModAddMultiple(0, R, c.n);
    ModSmall(0, c.n);
    MulComm(R, c.n);
  }

  /** When a recovery id yields the key Q: exactly when it names the point of Q's equation. */
  lemma RecoverYields(c: Curve, recId: int, Q: int, r: int, s: int, e: int)
    requires ValidCurve(c) && 0 <= Q < c.n && 0 <= recId
    requires Verifies(c, Q, r, s, e)
    ensures Recover(c, recId, r, s, e) == Key(Q) <==> recId == RecIdOf(c, PointOf(c, Q, r, s, e))
  {
    hide Recover, IsPrime, ModInverse, ValidCurve, PointOf;
    CurveOrder(c);
    NamedIdYields(c, Q, r, s, e);
    if Recover(c, recId, r, s, e) == Key(Q) {
      RecoverSound(c, recId, r, s, e);
      DivModUnique(r + recId / 2 * c.n, recId / 2, r, c.n);
    }
  }

  /** Recovery is complete, and with soundness exact: the keys found under the ids 0 to 3 are
      the keys under which the signature verifies. */
  lemma RecoveredKeysAreTheVerifyingOnes(c: Curve, Q: int, r: int, s: int, e: int)
    requires ValidCurve(c) && 0 <= Q < c.n && 0 < r < c.n && 0 < s < c.n
    ensures Verifies(c, Q, r, s, e) <==> exists recId :: 0 <= recId < 4 && Recover(c, recId, r, s, e) == Key(Q)
  {
    if Verifies(c, Q, r, s, e) {
      NamedIdYields(c, Q, r, s, e);
    }
    forall recId | 0 <= recId < 4 && Recover(c, recId, r, s, e) == Key(Q)
      ensures Verifies(c, Q, r, s, e)
    {
      RecoverSound(c, recId, r, s, e);
    }
  }

  lemma Reduces(a: int, b: int, R: int, Q: int, e: int, s: int, n: int)
    requires n > 0 && a % n == b % n
    ensures OnLine(n, R, Q, a, s, e) <==> OnLine(n, R, Q, b, s, e)
  {
    CongruentProduct(a, b, Q, n);
    CongruentSum(a * Q, b * Q, e, n);
  }

  /** The x-coordinate a recovery id asks for. */
  function AskedX(c: Curve, recId: int, r: int): int {
    r + recId / 2 * c.n
  }

  /** Every outcome, for all arguments: it throws for a negative argument and when the x-coordinate
      asked for is in the field but on no point, or r has no inverse; it gives null when that
      coordinate is outside the field; otherwise the key is the one on the line of the point with
      that coordinate and the id's parity. */
  lemma RecoverOutcome(c: Curve, recId: int, r: int, s: int, e: int)
    requires ValidCurve(c)
    ensures Recover(c, recId, r, s, e) == Throws <==>
            recId < 0 || r < 0 || s < 0 || (AskedX(c, recId, r) < c.p && (!IsCoordinate(c, AskedX(c, recId, r)) || r % c.n == 0))
    ensures Recover(c, recId, r, s, e) == NoKey <==> recId >= 0 && r >= 0 && s >= 0 && AskedX(c, recId, r) >= c.p
    ensures Recover(c, recId, r, s, e).Key? ==>
            var Q := Recover(c, recId, r, s, e).q;
            exists R :: 0 < R < c.n && c.x(R) == AskedX(c, recId, r) && c.odd(R) == (recId % 2 == 1)
                        && 0 <= Q < c.n && OnLine(c.n, R, Q, r, s, e)
  {
    hide IsPrime, ModInverse, IsCoordinate, OnLine;
    CurveOrder(c);
    var x := AskedX(c, recId, r);
    CoordinatesDecode(c, x, recId % 2 == 1);
    if recId >= 0 && r >= 0 && s >= 0 && x < c.p && c.decompress(x, recId % 2 == 1).Some? {
      var R := c.decompress(x, recId % 2 == 1).value;
      MultipleIsZero(c.n, R);
      if r % c.n != 0 {
        var Q := Recover(c, recId, r, s, e).q;
        KeyIsOnLine(c.n, R, Q, r % c.n, s, e);
        ModOfMod(r, c.n);
        Reduces(r % c.n, r, R, Q, e, s, c.n);
      }
    }
  }

  lemma MultipleIsZero(n: int, k: int)
    requires n > 0
    ensures (n * k) % n == 0
  {
    ModAddMultiple(0, k, n);
    ModSmall(0, n);
    MulComm(k, n);
  }

  lemma ModOfMod(a: int, n: int)
    requires n > 0
    ensures 0 <= a % n < n && a % n % n == a % n
  {
    ModSmall(a % n, n);
  }

  // ---- low S ------------------------------------------------------------------------

  datatype Signature = Signature(r: int, s: int, v: int)

  /** toCanonicalised; HALF_CURVE_ORDER is n shifted right by one.  A new object has v = 0. */
  function ToCanonicalised(c: Curve, sig: Signature): Signature {
    if sig.s > c.n / 2 then Signature(sig.r, c.n - sig.s, 0) else sig
  }

  lemma NegatedLine(n: int, R: int, Q: int, r: int, s: int, e: int)
    requires n > 0
    ensures OnLine(n, R, Q, r, s, e) <==> OnLine(n, n - R, Q, r, n - s, e)
  {
    calc {
      (n - s) * (n - R);
      n * (n - R) - s * (n - R);
      n * (n - R) - s * n + s * R;
      s * R + (n - R - s) * n;
    }
    ModAddMultiple(s * R, n - R - s, n);
  }

  /** Replacing s by n - s negates the point of the verification equation. */
  lemma NegatedPoint(c: Curve, Q: int, r: int, s: int, e: int)
    requires IsPrime(c.n) && 0 < s < c.n
    ensures PointOf(c, Q, r, c.n - s, e) == if PointOf(c, Q, r, s, e) == 0 then 0 else c.n - PointOf(c, Q, r, s, e)
  {
    var R := PointOf(c, Q, r, s, e);
    PointIsOnLine(c.n, R, Q, r, s, e);
    if R == 0 {
      assert s * 0 == 0 && (c.n - s) * 0 == 0;
      PointIsOnLine(c.n, 0, Q, r, c.n - s, e);
    } else {
      NegatedLine(c.n, R, Q, r, s, e);
      PointIsOnLine(c.n, c.n - R, Q, r, c.n - s, e);
    }
  }

  /** Canonicalising changes nothing about which keys a signature verifies under, and makes s
      the smaller of the two equivalent values. */
  lemma CanonicalisedIsEquivalent(c: Curve, Q: int, sig: Signature, e: int)
    requires ValidCurve(c) && 0 < sig.r < c.n && 0 < sig.s < c.n
    ensures var t := ToCanonicalised(c, sig);
            && t.r == sig.r && 0 < t.s <= c.n / 2 && (t.s == sig.s || t.s == c.n - sig.s)
            && (sig.s <= c.n / 2 ==> t == sig) && (sig.s > c.n / 2 ==> t.s == c.n - sig.s && t.v == 0)
            && (Verifies(c, Q, sig.r, sig.s, e) <==> Verifies(c, Q, t.r, t.s, e))
  {
    hide IsPrime, ModInverse, ValidCurve;
    CurveOrder(c);
    NegatedPoint(c, Q, sig.r, sig.s, e);
    var R := PointOf(c, Q, sig.r, sig.s, e);
    if R != 0 {
      PointLaws(c, R);
    }
  }

  // ---- signing and reading the signature back ---------------------------------------

  datatype Search = Found(recId: int) | Exhausted | Aborted

  /** What the loop of sign finds from id i on: the first id that recovers the own key, unless
      an exception comes first. */
  function Find(c: Curve, pub: int, r: int, s: int, e: int, i: int): Search
    requires IsPrime(c.n) && 0 <= i <= 4
    decreases 4 - i
  {
    if i == 4 then Exhausted else
      var k := Recover(c, i, r, s, e);
      if k == Throws then Aborted else if k == Key(pub) then Found(i) else Find(c, pub, r, s, e, i + 1)
  }

  datatype SignOutcome = Signed(sig: Signature) | WrongLength | NotRecoverable | Thrown

  /** sign: canonicalise what the library signer returned, then look for the recovery id. */
  method Sign(c: Curve, pub: int, raw: Signature, messageHash: seq<Octet>) returns (o: SignOutcome)
    requires IsPrime(c.n)
    ensures o == SignSpec(c, pub, raw, messageHash)
  {
    if |messageHash| != 32 {
      return WrongLength;
    }
    var sig := ToCanonicalised(c, raw);
    var e := Value(messageHash, 256);
    var recId := -1;
    var i := 0;
    while i < 4 && recId == -1
      invariant 0 <= i <= 4
      invariant recId == -1 ==> Find(c, pub, sig.r, sig.s, e, 0) == Find(c, pub, sig.r, sig.s, e, i)
      invariant recId != -1 ==> recId >= 0 && Find(c, pub, sig.r, sig.s, e, 0) == Found(recId)
      decreases 4 - i
    {
      var k := Recover(c, i, sig.r, sig.s, e);
      if k == Throws {
        return Thrown;
      }
      if k == Key(pub) {
        recId := i;
      }
      i := i + 1;
    }
    if recId == -1 {
      return NotRecoverable;
    }
    o := Signed(sig.(v := recId + 27));
  }

  function SignSpec(c: Curve, pub: int, raw: Signature, messageHash: seq<Octet>): SignOutcome
    requires IsPrime(c.n)
  {
    if |messageHash| != 32 then WrongLength else
      var sig := ToCanonicalised(c, raw);
      match Find(c, pub, sig.r, sig.s, Value(messageHash, 256), 0)
      case Found(recId) => Signed(sig.(v := recId + 27))
      case Exhausted => NotRecoverable
      case Aborted => Thrown
  }

  datatype KeyOutcome = PublicKey(q: int) | BadHashLength | BadHeader | Unrecoverable | RecoveryThrows

  /** signatureToKeyBytes: headers 31 to 34 mean the same as 27 to 30. */
  function SignatureToKeyBytes(c: Curve, messageHash: seq<Octet>, sig: Signature): KeyOutcome
    requires IsPrime(c.n)
  {
    if |messageHash| != 32 then BadHashLength else
    if sig.v < 27 || sig.v > 34 then BadHeader else
      var header := if sig.v >= 31 then sig.v - 4 else sig.v;
      match Recover(c, header - 27, sig.r, sig.s, Value(messageHash, 256))
      case Key(q) => PublicKey(q)
      case NoKey => Unrecoverable
      case Throws => RecoveryThrows
  }

  /** A signature made by the standard verifies under the signer's key, and the point of its
      equation is the nonce point. */
  lemma SignatureVerifies(c: Curve, d: int, k: int, e: int, r: int, s: int)
    requires ValidCurve(c) && IsSignature(c, d, k, e, r, s)
    ensures Verifies(c, d, r, s, e) && PointOf(c, d, r, s, e) == k
  {
    hide IsPrime, ModInverse, ValidCurve;
    CurveOrder(c);
    SolveLinear(k, ModInverse(k, c.n), e + r * d, s, c.n);
    MulComm(s, k);
    PointIsOnLine(c.n, k, d, r, s, e);
  }

  /** The point the canonicalised signature's equation is about. */
  function CanonicalPoint(c: Curve, k: int, s: int): int {
    if s > c.n / 2 then c.n - k else k
  }

  /** r is the x-coordinate of some point: then it decodes with either parity bit. */
  ghost predicate IsCoordinate(c: Curve, r: int) {
    exists P :: 0 < P < c.n && c.x(P) == r
  }

  lemma CoordinatesDecode(c: Curve, r: int, bit: bool)
    requires ValidCurve(c)
    ensures c.decompress(r, bit).Some? <==> IsCoordinate(c, r)
  {
    if IsCoordinate(c, r) {
      var P :| 0 < P < c.n && c.x(P) == r;
      var N := c.n - P;
      assert c.x(P) == c.x(N);
      assert c.decompress(c.x(P), c.odd(P)) == Some(P);
      assert c.decompress(c.x(N), c.odd(N)) == Some(N);
    }
  }

  /** Within the field, recovery throws exactly when decoding fails. */
  lemma RecoverThrows(c: Curve, recId: int, r: int, s: int, e: int)
    requires ValidCurve(c) && 0 < r < c.n && 0 < s && 0 <= recId && r + recId / 2 * c.n < c.p
    ensures Recover(c, recId, r, s, e) == Throws <==> !IsCoordinate(c, r + recId / 2 * c.n)
  {
    hide ValidCurve;
    var x := r + recId / 2 * c.n;
    assert 0 < c.n by { CurveOrder(c); }
    CoordinatesDecode(c, x, recId % 2 == 1);
    ModSmall(r, c.n);
    if c.decompress(x, recId % 2 == 1).Some? {
      var R := c.decompress(x, recId % 2 == 1).value;
      ModAddMultiple(0, R, c.n);
      MulComm(R, c.n);
      ModSmall(0, c.n);
    }
  }

  /** The search, exactly: it finds the id of the point unless that point's x-coordinate
      exceeds n and r itself is no x-coordinate, in which case decoding fails first. */
  lemma FindFinds(c: Curve, Q: int, r: int, s: int, e: int)
    requires ValidCurve(c) && 0 <= Q < c.n && Verifies(c, Q, r, s, e)
    ensures var R := PointOf(c, Q, r, s, e);
            Find(c, Q, r, s, e, 0) == if c.x(R) < c.n || IsCoordinate(c, r) then Found(RecIdOf(c, R)) else Aborted
  {
    hide Recover, Find, IsPrime, ModInverse, ValidCurve, PointOf, Verifies, IsCoordinate;
    CurveOrder(c);
    VerifiedPoint(c, Q, r, s, e);
    var R := PointOf(c, Q, r, s, e);
    QuotientBounds(c.x(R), c.n, 2);
    if c.x(R) < c.n {
      DivModUnique(c.x(R), 0, c.x(R), c.n);
      FindLow(c, Q, r, s, e);
    } else {
      QuotientPositive(c.x(R), c.n);
      FindHigh(c, Q, r, s, e);
    }
  }

  /** One turn of the search. */
  lemma FindStep(c: Curve, pub: int, r: int, s: int, e: int, i: int)
    requires IsPrime(c.n) && 0 <= i < 4
    ensures var k := Recover(c, i, r, s, e);
            Find(c, pub, r, s, e, i) ==
              if k == Throws then Aborted else if k == Key(pub) then Found(i) else Find(c, pub, r, s, e, i + 1)
  {
    hide Recover, IsPrime;
  }

  /** The x-coordinate is r itself: id 0 or 1. */
  lemma FindLow(c: Curve, Q: int, r: int, s: int, e: int)
    requires ValidCurve(c) && 0 <= Q < c.n && Verifies(c, Q, r, s, e)
    requires c.x(PointOf(c, Q, r, s, e)) == r
    ensures Find(c, Q, r, s, e, 0) == Found(RecIdOf(c, PointOf(c, Q, r, s, e)))
  {
    hide Recover, Find, IsPrime, ModInverse, ValidCurve, PointOf, Verifies;
    CurveOrder(c);
    VerifiedPoint(c, Q, r, s, e);
    var R := PointOf(c, Q, r, s, e);
    DivModUnique(r, 0, r, c.n);
    assert IsCoordinate(c, r);
    RecoverYields(c, 0, Q, r, s, e);
    RecoverYields(c, 1, Q, r, s, e);
    RecoverThrows(c, 0, r, s, e);
    FindStep(c, Q, r, s, e, 0);
    FindStep(c, Q, r, s, e, 1);
  }

  /** The x-coordinate is r + n: id 2 or 3, unless decoding r throws at id 0. */
  lemma FindHigh(c: Curve, Q: int, r: int, s: int, e: int)
    requires ValidCurve(c) && 0 <= Q < c.n && Verifies(c, Q, r, s, e)
    requires c.x(PointOf(c, Q, r, s, e)) == c.n + r
    ensures Find(c, Q, r, s, e, 0) == if IsCoordinate(c, r) then Found(RecIdOf(c, PointOf(c, Q, r, s, e))) else Aborted
  {
    hide Recover, Find, IsPrime, ModInverse, ValidCurve, PointOf, Verifies;
    CurveOrder(c);
    VerifiedPoint(c, Q, r, s, e);
    var R := PointOf(c, Q, r, s, e);
    DivModUnique(c.n + r, 1, r, c.n);
    assert IsCoordinate(c, c.n + r);
    RecoverYields(c, 0, Q, r, s, e);
    RecoverYields(c, 1, Q, r, s, e);
    RecoverYields(c, 2, Q, r, s, e);
    RecoverYields(c, 3, Q, r, s, e);
    RecoverThrows(c, 0, r, s, e);
    RecoverThrows(c, 1, r, s, e);
    RecoverThrows(c, 2, r, s, e);
    FindStep(c, Q, r, s, e, 0);
    FindStep(c, Q, r, s, e, 1);
    FindStep(c, Q, r, s, e, 2);
    FindStep(c, Q, r, s, e, 3);
  }

  /** Signing and reading back: for a signature made as the standard says, with nonce k, sign
      returns the canonical form with the id of its point, and signatureToKeyBytes recovers
      the signing key from it.  The one way to fail is a nonce point whose x-coordinate is at
      least n while r = x - n is no x-coordinate: then decoding throws at id 0. */
  lemma SignThenRecover(c: Curve, d: int, k: int, messageHash: seq<Octet>, raw: Signature)
    requires ValidCurve(c) && |messageHash| == 32
    requires IsSignature(c, d, k, Value(messageHash, 256), raw.r, raw.s)
    ensures var o := SignSpec(c, d, raw, messageHash);
            var R := CanonicalPoint(c, k, raw.s);
            && (o.Signed? <==> c.x(k) < c.n || IsCoordinate(c, raw.r))
            && (!o.Signed? ==> o == Thrown)
            && (o.Signed? ==>
                  && o.sig == ToCanonicalised(c, raw).(v := 27 + RecIdOf(c, R))
                  && SignatureToKeyBytes(c, messageHash, o.sig) == PublicKey(d)
                  && SignatureToKeyBytes(c, messageHash, o.sig.(v := o.sig.v + 4)) == PublicKey(d)
                  && 0 < o.sig.r < c.n && 0 < o.sig.s <= c.n / 2
                  && (o.sig.v == 27 || o.sig.v == 28 <==> c.x(k) < c.n))
  {
    hide Recover, Find, IsPrime, ModInverse, ValidCurve, PointOf, Verifies, IsCoordinate, IsSignature, Value,
      ToCanonicalised, CanonicalPoint, RecIdOf;
    var e := Value(messageHash, 256);
    var t := ToCanonicalised(c, raw);
    CurveOrder(c);
    CanonicalNonce(c, d, k, e, raw);
    var R := CanonicalPoint(c, k, raw.s);
    FindFinds(c, d, t.r, t.s, e);
    NamedIdYields(c, d, t.r, t.s, e);
    RecIdParts(c, R);
    SmallXSmallId(c, R);
  }

  /** The id is below 2 exactly when the x-coordinate is below n. */
  lemma SmallXSmallId(c: Curve, R: int)
    requires c.n > 0 && 0 <= c.x(R) < 2 * c.n
    ensures RecIdOf(c, R) < 2 <==> c.x(R) < c.n
  {
    QuotientBounds(c.x(R), c.n, 2);
    if c.x(R) < c.n {
      DivModUnique(c.x(R), 0, c.x(R), c.n);
    } else {
      QuotientPositive(c.x(R), c.n);
    }
  }

  /** The outcome of sign for any key and any signature in range: the wrong length exactly for
      another length than 32; a signature exactly when the canonical one verifies under the key
      and no id before its point's throws, namely with that id; an exception when an id throws
      first; and otherwise no recoverable key. */
  lemma SignExactly(c: Curve, pub: int, raw: Signature, messageHash: seq<Octet>)
    requires ValidCurve(c) && 0 <= pub < c.n && 0 < raw.r < c.n && 0 < raw.s < c.n
    ensures var o, t, e := SignSpec(c, pub, raw, messageHash), ToCanonicalised(c, raw), Value(messageHash, 256);
            if |messageHash| != 32 then o == WrongLength
            else if Verifies(c, pub, t.r, t.s, e) then
              var R := PointOf(c, pub, t.r, t.s, e);
              o == if c.x(R) < c.n || IsCoordinate(c, t.r) then Signed(t.(v := 27 + RecIdOf(c, R))) else Thrown
            else o == if SomeIdThrows(c, t.r) then Thrown else NotRecoverable
  {
    hide Recover, Find, IsPrime, ModInverse, ValidCurve, PointOf, Verifies, IsCoordinate, Value, RecIdOf, SomeIdThrows;
    CurveOrder(c);
    CanonicalRange(c, raw);
    var t, e := ToCanonicalised(c, raw), Value(messageHash, 256);
    if Verifies(c, pub, t.r, t.s, e) {
      FindFinds(c, pub, t.r, t.s, e);
    } else {
      FindNothing(c, pub, t.r, t.s, e);
    }
  }

  lemma CanonicalRange(c: Curve, raw: Signature)
    requires c.n > 2 && 0 < raw.r < c.n && 0 < raw.s < c.n
    ensures var t := ToCanonicalised(c, raw); 0 < t.r < c.n && 0 < t.s < c.n
  {
  }

  /** One of r and r + n is in the field but is no point's x-coordinate. */
  ghost predicate SomeIdThrows(c: Curve, r: int) {
    (r < c.p && !IsCoordinate(c, r)) || (r + c.n < c.p && !IsCoordinate(c, r + c.n))
  }

  /** The search for a key under which the signature does not verify. */
  lemma FindNothing(c: Curve, pub: int, r: int, s: int, e: int)
    requires ValidCurve(c) && 0 <= pub < c.n && 0 < r < c.n && 0 < s < c.n && !Verifies(c, pub, r, s, e)
    ensures Find(c, pub, r, s, e, 0) == if SomeIdThrows(c, r) then Aborted else Exhausted
  {
    hide Recover, Find, IsPrime, ModInverse, ValidCurve, Verifies, IsCoordinate;
    CurveOrder(c);
    RecoveredKeysAreTheVerifyingOnes(c, pub, r, s, e);
    assert AskedX(c, 0, r) == AskedX(c, 1, r) == r;
    assert AskedX(c, 2, r) == AskedX(c, 3, r) == r + c.n;
    ModSmall(r, c.n);
    RecoverOutcome(c, 0, r, s, e);
    RecoverOutcome(c, 1, r, s, e);
    RecoverOutcome(c, 2, r, s, e);
    RecoverOutcome(c, 3, r, s, e);
    FindStep(c, pub, r, s, e, 0);
    FindStep(c, pub, r, s, e, 1);
    FindStep(c, pub, r, s, e, 2);
    FindStep(c, pub, r, s, e, 3);
    FindEnds(c, pub, r, s, e);
  }

  lemma FindEnds(c: Curve, pub: int, r: int, s: int, e: int)
    requires IsPrime(c.n)
    ensures Find(c, pub, r, s, e, 4) == Exhausted
  {
    hide IsPrime;
  }

  // ---- reading a signature back -----------------------------------------------------

  /** The outcome for any signature: the two refusals, for the length of the hash and for a header
      outside 27 to 34, and behind them the outcome of recovery under (v - 27) modulo 4. */
  lemma SignatureToKeyOutcome(c: Curve, messageHash: seq<Octet>, sig: Signature)
    requires ValidCurve(c)
    ensures var o := SignatureToKeyBytes(c, messageHash, sig);
            var k := Recover(c, (sig.v - 27) % 4, sig.r, sig.s, Value(messageHash, 256));
            && (o == BadHashLength <==> |messageHash| != 32)
            && (o == BadHeader <==> |messageHash| == 32 && !(27 <= sig.v <= 34))
            && (|messageHash| == 32 && 27 <= sig.v <= 34 ==>
                  && (o == RecoveryThrows <==> k == Throws) && (o == Unrecoverable <==> k == NoKey)
                  && forall q :: o == PublicKey(q) <==> k == Key(q))
  {
    hide Recover, Value, IsPrime;
  }

  /** Exactly which keys are read from a signature in range: q is returned if and only if the hash
      has 32 bytes, the header is one of 27 to 34, the signature verifies under q, and the header
      names the point of q's equation. */
  lemma SignatureToKeyExactly(c: Curve, messageHash: seq<Octet>, sig: Signature, q: int)
    requires ValidCurve(c) && 0 < sig.r < c.n && 0 < sig.s < c.n
    ensures var e := Value(messageHash, 256);
            SignatureToKeyBytes(c, messageHash, sig) == PublicKey(q) <==>
              && |messageHash| == 32 && 27 <= sig.v <= 34 && 0 <= q < c.n
              && Verifies(c, q, sig.r, sig.s, e) && RecIdOf(c, PointOf(c, q, sig.r, sig.s, e)) == (sig.v - 27) % 4
  {
    hide Recover, Value, IsPrime, ModInverse, ValidCurve, Verifies, PointOf, SignatureToKeyBytes, RecIdOf;
    var e, id := Value(messageHash, 256), (sig.v - 27) % 4;
    CurveOrder(c);
    SignatureToKeyOutcome(c, messageHash, sig);
    if Recover(c, id, sig.r, sig.s, e) == Key(q) {
      RecoverSound(c, id, sig.r, sig.s, e);
      RecoverYields(c, id, q, sig.r, sig.s, e);
    }
    if 0 <= q < c.n && Verifies(c, q, sig.r, sig.s, e) {
      RecoverYields(c, id, q, sig.r, sig.s, e);
    }
  }

  /** What canonicalising does to a signature made with nonce k: it verifies under the signer's
      key, and its equation's point is the nonce point or its negative. */
  lemma CanonicalNonce(c: Curve, d: int, k: int, e: int, raw: Signature)
    requires ValidCurve(c) && IsSignature(c, d, k, e, raw.r, raw.s)
    ensures 0 < d < c.n && 0 < k < c.n
    ensures var t := ToCanonicalised(c, raw);
            var R := CanonicalPoint(c, k, raw.s);
            && t.r == raw.r && 0 < t.r < c.n && 0 < t.s <= c.n / 2 && t.s < c.n && Verifies(c, d, t.r, t.s, e)
            && PointOf(c, d, t.r, t.s, e) == R && 0 < R < c.n && c.x(R) == c.x(k) && 0 <= c.x(R) < 2 * c.n
  {
    hide IsPrime, ModInverse, ValidCurve, PointOf, Verifies;
    CurveOrder(c);
    SignatureVerifies(c, d, k, e, raw.r, raw.s);
    CanonicalisedIsEquivalent(c, d, raw, e);
    NegatedPoint(c, d, raw.r, raw.s, e);
    PointLaws(c, k);
  }

  // ---- two curves -------------------------------------------------------------------

  /** The hypotheses can be met: a group of three elements. */
  function ToyCurve(): Curve {
    Curve(3, 5, P => 1, P => P == 2,
          (X: int, b: bool) => if X == 1 then Some(if b then 2 else 1) else None)
  }

  lemma HypothesesCanBeMet()
    ensures ValidCurve(ToyCurve())
  {
    hide IsPrime, CoordinatesFit, SignsPair, DecodesPoints;
    ThreeIsPrime();
    ToyParts();
  }

  lemma ToyParts()
    ensures CoordinatesFit(ToyCurve()) && SignsPair(ToyCurve()) && DecodesPoints(ToyCurve())
  {
  }

  lemma ThreeIsPrime()
    ensures IsPrime(3)
  {
  }

  /** The curve y^2 = x^3 + 2 x + 7 over the field of 11 elements, with generator (10, 2): its six
      points besides infinity have x-coordinates 10, 7 and 6.  10 and 7 are at least the order 7,
      and 10 - 7 is no x-coordinate. */
  function SmallCurve(): Curve {
    Curve(7, 11, P => SmallX(P), P => P >= 4,
          (X: int, b: bool) => SmallPoint(X, b))
  }

  function SmallPoint(X: int, b: bool): Option<int> {
    if X == 10 then Some(if b then 6 else 1)
    else if X == 7 then Some(if b then 5 else 2)
    else if X == 6 then Some(if b then 4 else 3)
    else None
  }

  function SmallX(P: int): int {
    if P == 1 || P == 6 then 10 else if P == 2 || P == 5 then 7 else 6
  }

  function SmallY(P: int): int {
    if P == 1 then 2 else if P == 2 then 10 else if P == 3 then 2 else if P == 4 then 9 else if P == 5 then 1 else 9
  }

  /** The table is that curve's group: the points listed are on it, and adding the generator is
      the chord rule, P, the generator and -(P + 1) being on one line. */
  lemma SmallCurveIsACurve(P: int)
    requires 0 < P < 7
    ensures (SmallY(P) * SmallY(P)) % 11 == (SmallX(P) * SmallX(P) * SmallX(P) + 2 * SmallX(P) + 7) % 11
    ensures SmallX(7 - P) == SmallX(P) && SmallY(7 - P) == 11 - SmallY(P)
    ensures SmallY(P) % 2 == 1 <==> SmallCurve().odd(P)
    ensures SmallCurve().p == 11 && SmallCurve().n == 7 && 0 <= SmallX(P) < 11 && 0 < SmallY(P) < 11
    ensures 1 < P < 6 ==>
      ((SmallY(P) - SmallY(1)) * (SmallX(6 - P) - SmallX(1))) % 11 == ((SmallY(6 - P) - SmallY(1)) * (SmallX(P) - SmallX(1))) % 11
  {
  }

  lemma SevenIsPrime()
    ensures IsPrime(7)
  {
    assert 7 % 2 == 1 && 7 % 3 == 1 && 7 % 4 == 3 && 7 % 5 == 2 && 7 % 6 == 1;
  }

  lemma SmallCurveIsValid()
    ensures ValidCurve(SmallCurve())
  {
    hide IsPrime, CoordinatesFit, SignsPair, DecodesPoints;
    SevenIsPrime();
    SmallFits();
    SmallPairs();
    SmallDecodes();
  }

  lemma SmallFits()
    ensures CoordinatesFit(SmallCurve())
  {
  }

  lemma SmallPairs()
    ensures SignsPair(SmallCurve())
  {
  }

  lemma SmallDecodes()
    ensures DecodesPoints(SmallCurve())
  {
    hide SmallX, SmallPoint;
    forall P | 0 < P < 7
      ensures SmallPoint(SmallX(P), P >= 4) == Some(P)
    {
      SmallRoundTrip(P, 0, false);
    }
    forall X, b | SmallPoint(X, b).Some?
      ensures var P := SmallPoint(X, b).value; 0 < P < 7 && SmallX(P) == X && (P >= 4) == b
    {
      SmallRoundTrip(1, X, b);
    }
  }

  lemma SmallRoundTrip(P: int, X: int, b: bool)
    requires 0 < P < 7
    ensures SmallPoint(SmallX(P), P >= 4) == Some(P)
    ensures SmallPoint(X, b).Some? ==> var P := SmallPoint(X, b).value; 0 < P < 7 && SmallX(P) == X && (P >= 4) == b
  {
  }

  /** The failing case of SignThenRecover does occur: key 1 and nonce 1 make the signature
      (3, 3) of the all-zero hash by the standard, it verifies under the key, and sign throws. */
  lemma SignCanThrow(v: int)
    ensures ValidCurve(SmallCurve()) && IsSignature(SmallCurve(), 1, 1, 0, 3, 3) && Verifies(SmallCurve(), 1, 3, 3, 0)
    ensures SignSpec(SmallCurve(), 1, Signature(3, 3, v), Zeros(32)) == Thrown
  {
    hide *;
    SmallCurveIsValid();
    SmallSignature();
    SignatureVerifies(SmallCurve(), 1, 1, 0, 3, 3);
    ZeroHash();
    SignThenRecover(SmallCurve(), 1, 1, Zeros(32), Signature(3, 3, v));
  }

  lemma SmallSignature()
    ensures var c := SmallCurve();
            IsPrime(c.n) && IsSignature(c, 1, 1, 0, 3, 3) && c.x(1) >= c.n && !IsCoordinate(c, 3)
  {
    hide IsPrime;
    SevenIsPrime();
    assert ModInverse(1, 7) == 1;
  }

  lemma ZeroHash()
    ensures Value(Zeros(32), 256) == 0
  {
    ValueDropZeros(32, [], 256);
    assert Zeros(32) + [] == Zeros(32);
  }
}
