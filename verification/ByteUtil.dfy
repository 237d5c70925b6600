/** Integers as byte arrays: ByteUtil, and the 65-byte signature form of ECKey. */
module ByteUtil {
  import opened Arith
  import opened JavaArrays
  import opened Positional
  import opened Base58

  type Int32 = i: int | -0x8000_0000 <= i < 0x8000_0000

  // ---- library conversions ----------------------------------------------------------

  /** BigInteger.toByteArray: the shortest big-endian two's complement form. */
  function ToByteArray(b: int): (bytes: seq<Octet>)
    ensures |bytes| >= 1
    decreases if b < 0 then -b else b
  {
    if -128 <= b < 128 then [b % 256] else ToByteArray(b / 256) + [b % 256]
  }

  /** BigInteger.intValue: the low 32 bits, read as signed. */
  function IntValue(n: int): Int32 {
    var low := n % 0x1_0000_0000;
    if low < 0x8000_0000 then low else low - 0x1_0000_0000
  }

  /** The 32 bits of an int, read as unsigned. */
  function Unsigned(i: Int32): (n: int)
    ensures 0 <= n < 0x1_0000_0000
  {
    if i < 0 then i + 0x1_0000_0000 else i
  }

  function Pow256(k: nat): (p: int)
    ensures p >= 1
  {
    if k == 0 then 1 else 256 * Pow256(k - 1)
  }

  lemma {:induction false} ValueBelow(d: seq<int>)
    requires AreDigits(d, 256)
    ensures 0 <= Value(d, 256) < Pow256(|d|)
  {
    if d != [] {
      ValueBelow(d[..|d| - 1]);
    }
  }

  /** A number with k bytes of room has at most k digits. */
  lemma {:induction false} DigitsFit(n: nat, k: nat)
    requires n < Pow256(k)
    ensures |Digits(n, 256)| <= k
  {
    if n > 0 {
      DigitsSnoc(n, 256);
      DigitsFit(n / 256, k - 1);
    }
  }

  /** For a non-negative number toByteArray is its digits, behind a zero byte when there are no
      digits or the first one would look like a sign bit. */
  lemma {:induction false} ToByteArrayOfNatural(b: nat)
    ensures var d := Digits(b, 256);
            ToByteArray(b) == if d == [] || d[0] >= 128 then [0] + d else d
    decreases b
  {
    if b > 0 {
      DigitsSnoc(b, 256);
    }
    if b >= 128 {
      ToByteArrayOfNatural(b / 256);
    } else if b > 0 {
      }
  }

  // ---- fixed width ------------------------------------------------------------------

  /** What bigIntegerToBytes(b, numBytes) returns. */
  function FixedBytes(b: int, numBytes: nat): (bytes: seq<Octet>)
    ensures |bytes| == numBytes
  {
    var biBytes := ToByteArray(b);
    var start := if |biBytes| == numBytes + 1 then 1 else 0;
    var length := if |biBytes| < numBytes then |biBytes| else numBytes;
    Zeros(numBytes - length) + biBytes[start..start + length]
  }

  /** bigIntegerToBytes(b, numBytes). */
  method BigIntegerToBytes(b: int, numBytes: nat) returns (bytes: array<Octet>)
    ensures fresh(bytes) && bytes[..] == FixedBytes(b, numBytes)
  {
    hide ToByteArray;
    bytes := new Octet[numBytes](_ => 0);
    var s := ToByteArray(b);
    var biBytes := new Octet[|s|](i requires 0 <= i < |s| => s[i]);
    assert biBytes[..] == s;
    var start := if biBytes.Length == numBytes + 1 then 1 else 0;
    var length := if biBytes.Length < numBytes then biBytes.Length else numBytes;
    ArrayCopy(biBytes, start, bytes, numBytes - length, length);
    assert biBytes[start..start + length] == s[start..start + length];
  }

  /** The fixed-width form denotes b exactly when b is natural and fits. */
  lemma FixedBytesExact(b: int, numBytes: nat)
    ensures Value(FixedBytes(b, numBytes), 256) == b <==> 0 <= b < Pow256(numBytes)
  {
    hide Value, Digits, ToByteArray, Pow256;
    ValueBelow(FixedBytes(b, numBytes));
    if 0 <= b < Pow256(numBytes) {
      var d := Digits(b, 256);
      DigitsFit(b, numBytes);
      DigitsDenote(b, 256);
      ToByteArrayOfNatural(b);
      assert [0] + d == Zeros(1) + d;
      if ToByteArray(b) == d {
        assert FixedBytes(b, numBytes) == Zeros(numBytes - |d|) + d;
      } else if |d| == numBytes {
        assert FixedBytes(b, numBytes) == Zeros(0) + d;
      } else {
        assert FixedBytes(b, numBytes) == Zeros(numBytes - |d|) + d;
      }
      ValueDropZeros(numBytes - |d|, d, 256);
    }
  }

  // ---- what the library form denotes, and what does not fit -------------------------

  /** The bytes of toByteArray are the two's complement of b, the first bit being the sign, in the
      shortest such form. */
  lemma {:induction false} ToByteArrayDenotes(b: int)
    ensures var s := ToByteArray(b);
            && Value(s, 256) == (if b < 0 then b + Pow256(|s|) else b)
            && (s[0] >= 128 <==> b < 0)
            && (|s| > 1 ==> !(s[0] == 0 && s[1] < 128) && !(s[0] == 255 && s[1] >= 128))
    decreases if b < 0 then -b else b
  {
    if -128 <= b < 128 {
      OneByte(b % 256);
    } else {
      var s := ToByteArray(b / 256);
      ToByteArrayDenotes(b / 256);
      ValueSnoc(s, b % 256, 256);
      assert ToByteArray(b) == s + [b % 256];
      if |s| == 1 {
        SecondByte(b);
      }
    }
  }

  lemma OneByte(x: Octet)
    ensures Value([x], 256) == x && Pow256(1) == 256
  {
    assert [x][..0] == [];
  }

  lemma SecondByte(b: int)
    requires !(-128 <= b < 128) && -128 <= b / 256 < 128
    ensures !(b / 256 % 256 == 0 && b % 256 < 128) && !(b / 256 % 256 == 255 && b % 256 >= 128)
  {
  }

  lemma {:induction false} ValueConcat(a: seq<int>, d: seq<int>)
    ensures Value(a + d, 256) == Value(a, 256) * Pow256(|d|) + Value(d, 256)
  {
    hide Value;
    if d == [] {
      assert a + d == a;
      DigitsOfZero(256);
    } else {
      var i, x := d[..|d| - 1], d[|d| - 1];
      ValueConcat(a, i);
      ValueSnoc(a + i, x, 256);
      ValueSnoc(i, x, 256);
      assert a + d == (a + i) + [x] && d == i + [x];
      calc {
        Value(a + d, 256);
        (Value(a, 256) * Pow256(|i|) + Value(i, 256)) * 256 + x;
        Value(a, 256) * Pow256(|i|) * 256 + Value(i, 256) * 256 + x;
        { MulTwice(Value(a, 256), Pow256(|i|)); }
        Value(a, 256) * Pow256(|d|) + Value(d, 256);
      }
    }
  }

  lemma MulTwice(a: int, p: int)
    ensures a * p * 256 == a * (256 * p)
  {
  }

  /** What the fixed width holds in every case: the number if its bytes fit, zero-extended whatever
      the sign; its low bytes if there is one byte too many; its high bytes if there are more. */
  lemma FixedBytesValue(b: int, k: nat)
    ensures var s := ToByteArray(b);
            Value(FixedBytes(b, k), 256) ==
              if |s| <= k then Value(s, 256)
              else if |s| == k + 1 then Value(s, 256) % Pow256(k)
              else Value(s, 256) / Pow256(|s| - k)
  {
    hide Value, ToByteArray, Pow256;
    var s := ToByteArray(b);
    if |s| <= k {
      assert FixedBytes(b, k) == Zeros(k - |s|) + s;
      ValueDropZeros(k - |s|, s, 256);
    } else {
      var m := if |s| == k + 1 then 1 else k;
      assert s == s[..m] + s[m..];
      ValueConcat(s[..m], s[m..]);
      ValueBelow(s[m..]);
      DivModUnique(Value(s, 256), Value(s[..m], 256), Value(s[m..], 256), Pow256(|s| - m));
      if |s| == k + 1 {
        assert FixedBytes(b, k) == Zeros(0) + s[1..1 + k] == s[1..];
      } else {
        assert FixedBytes(b, k) == Zeros(0) + s[0..k] == s[..k];
      }
    }
  }

  // ---- minimal width ----------------------------------------------------------------

  /** bigIntegerToBytes(value): the sign byte is dropped. */
  method BigIntegerToMinimalBytes(value: int) returns (data: seq<Octet>)
    ensures value >= 0 ==> data == (if value == 0 then [0] else Digits(value, 256))
    ensures value < 0 ==> data == ToByteArray(value)
  {
    data := ToByteArray(value);
    if value >= 0 {
      ToByteArrayOfNatural(value);
      DigitsDenote(value, 256);
    } else {
      NegativeLeads(value);
    }
    if |data| != 1 && data[0] == 0 {
      data := data[1..];
    }
  }

  lemma {:induction false} NegativeLeads(b: int)
    requires b < 0
    ensures ToByteArray(b)[0] >= 128
    decreases -b
  {
    if b < -128 {
      NegativeLeads(b / 256);
    }
  }

  /** intToBytesNoLeadZeroes: the unsigned 32-bit value without leading zeros. */
  method IntToBytesNoLeadZeroes(i: Int32) returns (result: seq<Octet>)
    ensures result == Digits(Unsigned(i), 256)
  {
    hide Digits;
    DigitsOfZero(256);
    if i == 0 {
      return [];
    }
    var length := 0;
    var tmpVal := Unsigned(i);
    ghost var n := tmpVal;
    while tmpVal != 0
      invariant 0 <= tmpVal && length + |Digits(tmpVal, 256)| == |Digits(n, 256)|
    {
      DigitsSnoc(tmpVal, 256);
      tmpVal := tmpVal / 256;
      length := length + 1;
    }
    assert Digits(0, 256) == [];
    var bytes := new Octet[length](_ => 0);
    var val := Unsigned(i);
    var index := bytes.Length - 1;
    while val != 0
      invariant 0 <= val && |Digits(val, 256)| == index + 1 <= bytes.Length
      invariant Digits(n, 256) == Digits(val, 256) + bytes[index + 1..]
    {
      DigitsSnoc(val, 256);
      ghost var tail := bytes[index + 1..];
      bytes[index] := val % 256;
      assert bytes[index..] == [val % 256] + tail;
      assert Digits(n, 256) == Digits(val / 256, 256) + bytes[index..];
      val := val / 256;
      index := index - 1;
    }
    result := bytes[..];
  }

  /** byteArrayToInt. */
  function ByteArrayToInt(b: seq<Octet>): Int32 {
    if b == [] then 0 else IntValue(Value(b, 256))
  }

  /** Every int, negative ones included, survives the minimal form, which has no leading zero. */
  lemma IntRoundTrip(i: Int32)
    ensures var d := Digits(Unsigned(i), 256);
            AreDigits(d, 256) && NoLeadingZero(d) && |d| <= 4 && ByteArrayToInt(d) == i
  {
    DigitsDenote(Unsigned(i), 256);
    assert Pow256(4) == 0x1_0000_0000;
    DigitsFit(Unsigned(i), 4);
  }

  /** An array of any length gives its value modulo 2^32, as a signed int. */
  lemma ByteArrayToIntWraps(b: seq<Octet>)
    ensures (Value(b, 256) - ByteArrayToInt(b)) % 0x1_0000_0000 == 0
  {
    hide Value;
    DigitsOfZero(256);
    var n := Value(b, 256);
    QuotientAndRemainder(n, 0x1_0000_0000);
    if b != [] {
      var q := n / 0x1_0000_0000;
      if n % 0x1_0000_0000 < 0x8000_0000 {
        assert n - ByteArrayToInt(b) == q * 0x1_0000_0000;
      } else {
        assert n - ByteArrayToInt(b) == (q + 1) * 0x1_0000_0000;
      }
    }
  }

  // ---- merge ------------------------------------------------------------------------

  function Concat(parts: seq<seq<Octet>>): seq<Octet> {
    if parts == [] then [] else Concat(parts[..|parts| - 1]) + parts[|parts| - 1]
  }

  ghost function Contents(arrays: seq<array<Octet>>): (c: seq<seq<Octet>>)
    reads arrays
    ensures |c| == |arrays| && forall i :: 0 <= i < |c| ==> c[i] == arrays[i][..]
  {
    if arrays == [] then [] else Contents(arrays[..|arrays| - 1]) + [arrays[|arrays| - 1][..]]
  }

  /** merge: one array with all contents in order. */
  method Merge(arrays: seq<array<Octet>>) returns (merged: array<Octet>)
    ensures fresh(merged) && merged[..] == Concat(Contents(arrays))
  {
    hide Concat, Contents;
    var count := 0;
    ghost var parts := Contents(arrays);
    ConcatNothing();
    for i := 0 to |arrays|
      invariant count == |Concat(parts[..i])|
    {
      ConcatNext(parts, i);
      count := count + arrays[i].Length;
    }
    assert parts[..|arrays|] == parts;
    merged := new Octet[count](_ => 0);
    var start := 0;
    for i := 0 to |arrays|
      invariant start == |Concat(parts[..i])| <= count
      invariant merged[..start] == Concat(parts[..i])
    {
      ConcatNext(parts, i);
      ConcatPrefix(parts, i + 1);
      ArrayCopy(arrays[i], 0, merged, start, arrays[i].Length);
      start := start + arrays[i].Length;
    }
    assert merged[..count] == merged[..];
  }

  /** How many bytes come before part i. */
  function Before(parts: seq<seq<Octet>>, i: nat): nat
    requires i <= |parts|
  {
    if i == 0 then 0 else Before(parts, i - 1) + |parts[i - 1]|
  }

  /** Each part stands, in full, right behind the parts before it, and nothing else is there. */
  lemma {:induction false} ConcatPlaces(parts: seq<seq<Octet>>, i: nat)
    requires i <= |parts|
    ensures |Concat(parts[..i])| == Before(parts, i) <= |Concat(parts)| && |Concat(parts)| == Before(parts, |parts|)
    ensures i < |parts| ==>
      Before(parts, i) + |parts[i]| <= |Concat(parts)|
      && Concat(parts)[Before(parts, i)..Before(parts, i) + |parts[i]|] == parts[i]
  {
    hide Concat;
    ConcatLengths(parts, i);
    ConcatLengths(parts, |parts|);
    assert parts[..|parts|] == parts;
    ConcatPrefix(parts, i);
    if i < |parts| {
      ConcatNext(parts, i);
      ConcatStarts(parts, i + 1);
      ConcatPrefix(parts, i + 1);
    }
  }

  lemma {:induction false} ConcatLengths(parts: seq<seq<Octet>>, i: nat)
    requires i <= |parts|
    ensures |Concat(parts[..i])| == Before(parts, i)
  {
    hide Concat;
    ConcatNothing();
    if i > 0 {
      ConcatLengths(parts, i - 1);
      ConcatNext(parts, i - 1);
    }
  }

  lemma {:induction false} ConcatStarts(parts: seq<seq<Octet>>, i: nat)
    requires i <= |parts|
    ensures Concat(parts[..i]) <= Concat(parts)
    decreases |parts| - i
  {
    hide Concat;
    if i < |parts| {
      ConcatNext(parts, i);
      ConcatStarts(parts, i + 1);
    } else {
      assert parts[..i] == parts;
    }
  }

  lemma ConcatNothing()
    ensures Concat([]) == []
  {
  }

  lemma ConcatNext(parts: seq<seq<Octet>>, i: nat)
    requires i < |parts|
    ensures Concat(parts[..i + 1]) == Concat(parts[..i]) + parts[i]
  {
    assert parts[..i + 1][..i] == parts[..i];
  }

  lemma {:induction false} ConcatPrefix(parts: seq<seq<Octet>>, i: nat)
    requires i <= |parts|
    ensures |Concat(parts[..i])| <= |Concat(parts)|
    decreases |parts| - i
  {
    if i < |parts| {
      assert parts[..i + 1][..i] == parts[..i];
      ConcatPrefix(parts, i + 1);
    } else {
      assert parts[..i] == parts;
    }
  }
}
