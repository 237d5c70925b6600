/** The 65-byte form of a signature: one header byte, then r and s in 32 bytes each. */
module SignatureData {
  import opened Arith
  import opened JavaArrays
  import opened Positional
  import opened Base58
  import opened ByteUtil
  import opened Ecdsa

  /** The bit pattern of a signed byte, and back. */
  function UnsignedByte(v: int): Octet {
    v % 256
  }

  function SignedByte(o: Octet): int {
    if o < 128 then o else o - 256
  }

  /** What toBase64 encodes. */
  function SigData(sig: Signature): (data: seq<Octet>)
    ensures |data| == 65
  {
    [UnsignedByte(sig.v)] + FixedBytes(sig.r, 32) + FixedBytes(sig.s, 32)
  }

  /** The array toBase64 fills. */
  method FillSigData(sig: Signature) returns (sigData: array<Octet>)
    ensures fresh(sigData) && sigData[..] == SigData(sig)
    ensures sigData.Length == 65 && sigData[0] == sig.v % 256
    ensures Value(sigData[1..33], 256) == sig.r <==> 0 <= sig.r < Pow256(32)
    ensures Value(sigData[33..65], 256) == sig.s <==> 0 <= sig.s < Pow256(32)
  {
    hide FixedBytes, Value, Pow256;
    FixedBytesExact(sig.r, 32);
    FixedBytesExact(sig.s, 32);
    sigData := new Octet[65](_ => 0);
    sigData[0] := UnsignedByte(sig.v);
    var r := BigIntegerToBytes(sig.r, 32);
    ArrayCopy(r, 0, sigData, 1, 32);
    assert sigData[..33] == [UnsignedByte(sig.v)] + FixedBytes(sig.r, 32);
    var s := BigIntegerToBytes(sig.s, 32);
    ArrayCopy(s, 0, sigData, 33, 32);
    assert sigData[1..33] == FixedBytes(sig.r, 32) && sigData[33..65] == FixedBytes(sig.s, 32);
  }

  /** The split in signatureToKeyBytes; None is its exception for short input. */
  function ParseSigData(data: seq<Octet>): Option<Signature> {
    if |data| < 65 then None else
      Some(Signature(Value(data[1..33], 256), Value(data[33..65], 256), SignedByte(data[0])))
  }

  /** A signature survives the encoding exactly when r and s are below 2^256 (and v, a byte in
      the program, is one). */
  lemma SigDataRoundTrip(sig: Signature)
    ensures ParseSigData(SigData(sig)) == Some(sig) <==>
            0 <= sig.r < Pow256(32) && 0 <= sig.s < Pow256(32) && -128 <= sig.v < 128
  {
    hide FixedBytes, Value, Pow256;
    var data := SigData(sig);
    assert data[1..33] == FixedBytes(sig.r, 32) && data[33..65] == FixedBytes(sig.s, 32);
    FixedBytesExact(sig.r, 32);
    FixedBytesExact(sig.s, 32);
  }

  /** What is read is what was written: shorter input throws, and longer input is read as its first
      65 bytes, which writing the signature gives back. */
  lemma ParseThenWrite(data: seq<Octet>)
    ensures ParseSigData(data) == None <==> |data| < 65
    ensures |data| >= 65 ==> SigData(ParseSigData(data).value) == data[..65]
  {
    hide FixedBytes, Value, Pow256;
    if |data| >= 65 {
      var sig := ParseSigData(data).value;
      FixedBytesInvert(data[1..33]);
      FixedBytesInvert(data[33..65]);
      assert data[..65] == [data[0]] + data[1..33] + data[33..65];
    }
  }

  /** Bytes are the fixed-width form of their value. */
  lemma FixedBytesInvert(d: seq<Octet>)
    ensures FixedBytes(Value(d, 256), |d|) == d
  {
    hide FixedBytes, Value, Pow256;
    ValueBelow(d);
    FixedBytesExact(Value(d, 256), |d|);
    SameValue(FixedBytes(Value(d, 256), |d|), d);
  }

  /** Digit strings of equal length and value are equal. */
  lemma {:induction false} SameValue(a: seq<Octet>, d: seq<Octet>)
    requires |a| == |d| && Value(a, 256) == Value(d, 256)
    ensures a == d
  {
    if a != [] {
      var n := |a| - 1;
      DivModUnique(Value(a, 256), Value(a[..n], 256), a[n], 256);
      DivModUnique(Value(d, 256), Value(d[..n], 256), d[n], 256);
      SameValue(a[..n], d[..n]);
    }
  }

  /** Sign, write out, read in, recover: the signing key comes back. */
  lemma SignWriteReadRecover(c: Curve, d: int, k: int, messageHash: seq<Octet>, raw: Signature)
    requires ValidCurve(c) && |messageHash| == 32 && c.n <= Pow256(32)
    requires IsSignature(c, d, k, Value(messageHash, 256), raw.r, raw.s)
    requires c.x(k) < c.n || IsCoordinate(c, raw.r)
    ensures var o := SignSpec(c, d, raw, messageHash);
            && o.Signed?
            && ParseSigData(SigData(o.sig)) == Some(o.sig)
            && SignatureToKeyBytes(c, messageHash, ParseSigData(SigData(o.sig)).value) == PublicKey(d)
  {
    hide SignatureToKeyBytes, SigData, ParseSigData, SignSpec, Pow256, IsCoordinate;
    SignThenRecover(c, d, k, messageHash, raw);
    var o := SignSpec(c, d, raw, messageHash);
    CanonicalRange(c, raw);
    SmallId(c, k, raw.s);
    SigDataRoundTrip(o.sig);
  }

  lemma SmallId(c: Curve, k: int, s: int)
    requires ValidCurve(c) && 0 < k < c.n
    ensures 0 <= RecIdOf(c, CanonicalPoint(c, k, s)) < 4
  {
    var R := CanonicalPoint(c, k, s);
    QuotientBounds(c.x(R), c.n, 2);
  }
}
