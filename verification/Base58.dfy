/** Base58: in-place long division in both directions. */
module Base58 {
  import opened JavaArrays
  import opened Positional

  /** The bit pattern of a Java byte, read as unsigned. */
  type Octet = b: int | 0 <= b < 256

  /** The 58 characters, broken where the ASCII run is interrupted. */
  const ALPHABET: string :=
    "123456789" + "ABCDEFGH" + "JKLMN" + "PQRSTUVWXYZ" + "abcdefghijk" + "mnopqrstuvwxyz"

  datatype Decoded = Ok(bytes: seq<Octet>) | IllegalCharacter(at: nat)

  // ---- the alphabet -----------------------------------------------------------------

  /** The digit value of a character, -1 outside the alphabet. */
  function IndexOf(c: char): (i: int)
    ensures -1 <= i < 58
  {
    IndexIn(ALPHABET, c, 58)
  }

  /** The last position of c among the first n characters. */
  function IndexIn(a: string, c: char, n: nat): (i: int)
    requires n <= |a|
    ensures -1 <= i < n
    ensures i >= 0 ==> a[i] == c
    ensures i < 0 ==> forall k :: 0 <= k < n ==> a[k] != c
  {
    if n == 0 then -1 else if a[n - 1] == c then n - 1 else IndexIn(a, c, n - 1)
  }

  function CharOf(digit: int): char
    requires 0 <= digit < 58
  {
    ALPHABET[digit]
  }

  /** Consecutive characters of a run have consecutive codes. */
  ghost predicate IsRun(r: string, code: int) {
    forall k :: 0 <= k < |r| ==> r[k] as int == code + k
  }

  lemma Runs()
    ensures IsRun("123456789", 49) && IsRun("ABCDEFGH", 65) && IsRun("JKLMN", 74)
    ensures IsRun("PQRSTUVWXYZ", 80) && IsRun("abcdefghijk", 97) && IsRun("mnopqrstuvwxyz", 109)
  {
  }

  /** The ASCII code of each alphabet character. */
  lemma AlphabetCode(i: nat)
    requires i < 58
    ensures ALPHABET[i] as int ==
            if i < 9 then 49 + i else if i < 17 then 56 + i else if i < 22 then 57 + i
            else if i < 33 then 58 + i else if i < 44 then 64 + i else 65 + i
  {
    Runs();
  }

  /** Characters and digit values determine each other. */
  lemma IndexOfAlphabet(i: nat)
    requires i < 58
    ensures IndexOf(ALPHABET[i]) == i
  {
    var k := IndexOf(ALPHABET[i]);
    AlphabetCode(i);
    AlphabetCode(k);
  }

  // ---- long division in place -------------------------------------------------------

  /** divmod58: number[startAt..] is divided by 58 where it stands. */
  method DivMod58(number: array<Octet>, startAt: nat) returns (remainder: int)
    requires startAt <= number.Length
    modifies number
    ensures var r := Divide(old(number[startAt..]), 256, 58);
            number[..] == old(number[..startAt]) + r.quotient && remainder == r.remainder
  {
    hide Divide;
    remainder := 0;
    DivideNothing(256, 58);
    ghost var d: seq<int> := number[startAt..];
    for i := startAt to number.Length
      invariant |Divide(d[..i - startAt], 256, 58).quotient| == i - startAt
      invariant number[..] == old(number[..startAt]) + Divide(d[..i - startAt], 256, 58).quotient + old(number[i..])
      invariant 0 <= remainder < 58 && remainder == Divide(d[..i - startAt], 256, 58).remainder
    {
      var digit256 := number[i];
      var temp := remainder * 256 + digit256;
      DivideStep(d[..i - startAt], digit256, 256, 58);
      assert d[..i + 1 - startAt] == d[..i - startAt] + [digit256];
      number[i] := temp / 58;
      remainder := temp % 58;
    }
    assert d[..number.Length - startAt] == d;
  }

  /** divmod256: number58[startAt..] is divided by 256 where it stands. */
  method DivMod256(number58: array<Octet>, startAt: nat) returns (remainder: Octet)
    requires startAt <= number58.Length
    requires AreDigits(number58[startAt..], 58)
    modifies number58
    ensures var r := Divide(old(number58[startAt..]), 58, 256);
            number58[..] == old(number58[..startAt]) + r.quotient && remainder == r.remainder
  {
    hide Divide;
    remainder := 0;
    DivideNothing(58, 256);
    ghost var d: seq<int> := number58[startAt..];
    for i := startAt to number58.Length
      invariant |Divide(d[..i - startAt], 58, 256).quotient| == i - startAt
      invariant number58[..] == old(number58[..startAt]) + Divide(d[..i - startAt], 58, 256).quotient + old(number58[i..])
      invariant remainder == Divide(d[..i - startAt], 58, 256).remainder
    {
      var digit58 := number58[i];
      var temp := remainder * 58 + digit58;
      DivideStep(d[..i - startAt], digit58, 58, 256);
      assert d[..i + 1 - startAt] == d[..i - startAt] + [digit58];
      number58[i] := temp / 256;
      remainder := temp % 256;
    }
    assert d[..number58.Length - startAt] == d;
  }

  // ---- what encode and decode compute -----------------------------------------------

  /** The characters of a base-58 digit string. */
  function Chars(d: seq<int>): (s: string)
    requires AreDigits(d, 58)
    ensures |s| == |d|
  {
    seq(|d|, i requires 0 <= i < |d| => CharOf(d[i]))
  }

  function Ones(n: nat): (s: string)
    ensures |s| == n && forall i :: 0 <= i < n ==> s[i] == '1'
  {
    seq(n, _ => '1')
  }

  /** One '1' per leading zero byte, then the number in base 58. */
  function Encoding(b: seq<Octet>): string {
    ValueNonNegative(b, 256);
    DigitsDenote(Value(b, 256), 58);
    Ones(LeadingZeros(b)) + Chars(Digits(Value(b, 256), 58))
  }

  /** Position of the first character outside the alphabet, |s| if there is none. */
  function FirstIllegal(s: string): (i: nat)
    ensures i <= |s|
    ensures forall k :: 0 <= k < i ==> IndexOf(s[k]) >= 0
    ensures i < |s| ==> IndexOf(s[i]) < 0
  {
    if s == [] || IndexOf(s[0]) < 0 then 0 else 1 + FirstIllegal(s[1..])
  }

  /** The digit values of a string over the alphabet. */
  function Indices(s: string): (d: seq<int>)
    requires FirstIllegal(s) == |s|
    ensures |d| == |s| && AreDigits(d, 58)
  {
    seq(|s|, i requires 0 <= i < |s| => IndexOf(s[i]))
  }

  /** One zero byte per leading '1', then the number in base 256. */
  function Decoding(s: string): Decoded {
    if FirstIllegal(s) < |s| then IllegalCharacter(FirstIllegal(s)) else
      var d := Indices(s);
      ValueNonNegative(d, 58);
      DigitsDenote(Value(d, 58), 256);
      Ok(Zeros(LeadingZeros(d)) + Digits(Value(d, 58), 256))
  }

  /** `s` is a string over the alphabet. */
  predicate IsBase58(s: string) {
    FirstIllegal(s) == |s|
  }

  // ---- the two functions are inverse ------------------------------------------------

  lemma LeadingZerosOf(z: nat, d: seq<int>)
    requires NoLeadingZero(d)
    ensures LeadingZeros(Zeros(z) + d) == z
  {
    assert d != [] ==> (Zeros(z) + d)[z] == d[0];
  }

  /** A digit string is its leading zeros followed by the canonical digits of its value. */
  lemma CanonicalForm(d: seq<int>, base: int)
    requires base >= 2 && AreDigits(d, base)
    ensures Value(d, base) >= 0
    ensures d == Zeros(LeadingZeros(d)) + Digits(Value(d, base), base)
  {
    hide Value, Digits;
    var z := LeadingZeros(d);
    assert d == Zeros(z) + d[z..];
    ValueNonNegative(d, base);
    ValueDropZeros(z, d[z..], base);
    DigitsUnique(d[z..], base);
  }

  /** Digits, characters, digits: nothing is lost. */
  lemma IndicesOfEncoding(z: nat, d: seq<int>)
    requires AreDigits(d, 58)
    ensures IsBase58(Ones(z) + Chars(d)) && Indices(Ones(z) + Chars(d)) == Zeros(z) + d
  {
    hide IndexOf, ALPHABET;
    var s := Ones(z) + Chars(d);
    forall k | 0 <= k < |s|
      ensures IndexOf(s[k]) == (Zeros(z) + d)[k]
    {
      if k < z {
        OneIsZero();
      } else {
        IndexOfAlphabet(d[k - z]);
      }
    }
  }

  lemma OneIsZero()
    ensures IndexOf('1') == 0 && ALPHABET[0] == '1'
  {
    IndexOfAlphabet(0);
  }

  lemma CharsOfIndices(s: string)
    requires IsBase58(s)
    ensures Chars(Indices(s)) == s
  {
    forall k | 0 <= k < |s|
      ensures ALPHABET[IndexOf(s[k])] == s[k]
    {
    }
  }

  lemma CharsConcat(z: nat, d: seq<int>)
    requires AreDigits(d, 58)
    ensures AreDigits(Zeros(z) + d, 58) && Chars(Zeros(z) + d) == Ones(z) + Chars(d)
  {
    hide ALPHABET;
    OneIsZero();
  }

  /** Decoding an encoding gives the bytes back, leading zeros included. */
  lemma DecodeEncode(b: seq<Octet>)
    ensures IsBase58(Encoding(b)) && Decoding(Encoding(b)) == Ok(b)
  {
    hide Value, Digits, Chars, Ones, Indices, Zeros;
    var n, z := Value(b, 256), LeadingZeros(b);
    ValueNonNegative(b, 256);
    DigitsDenote(n, 58);
    var d := Digits(n, 58);
    IndicesOfEncoding(z, d);
    ValueDropZeros(z, d, 58);
    LeadingZerosOf(z, d);
    CanonicalForm(b, 256);
  }

  /** Encoding what was decoded gives the string back. */
  lemma EncodeDecode(s: string)
    requires IsBase58(s)
    ensures Decoding(s).Ok? && Encoding(Decoding(s).bytes) == s
  {
    hide Value, Digits, Chars, Ones, Indices, Zeros;
    var d := Indices(s);
    var n, z := Value(d, 58), LeadingZeros(d);
    ValueNonNegative(d, 58);
    DigitsDenote(n, 256);
    var b := Decoding(s).bytes;
    ValueDropZeros(z, Digits(n, 256), 256);
    LeadingZerosOf(z, Digits(n, 256));
    CanonicalForm(d, 58);
    DigitsDenote(n, 58);
    CharsConcat(z, Digits(n, 58));
    CharsOfIndices(s);
  }

  /** A string decodes exactly when it is the encoding of some bytes, namely the result. */
  lemma DecodesExactly(s: string, b: seq<Octet>)
    ensures Decoding(s) == Ok(b) <==> s == Encoding(b)
  {
    hide Encoding, Decoding;
    DecodeEncode(b);
    if IsBase58(s) {
      EncodeDecode(s);
    } else {
      IllegalFails(s);
    }
  }

  lemma IllegalFails(s: string)
    requires !IsBase58(s)
    ensures Decoding(s) == IllegalCharacter(FirstIllegal(s))
  {
  }

  // ---- one pass of either loop ------------------------------------------------------

  /** The digits that stay in play after a division: a leading zero is dropped. */
  function Next(q: seq<int>): seq<int> {
    if q != [] && q[0] == 0 then q[1..] else q
  }

  /** Between passes of encode: the digits still to come are those of `cur`. */
  ghost predicate Encoded(n: int, cur: seq<int>, written: seq<int>) {
    && AreDigits(cur, 256) && NoLeadingZero(cur) && AreDigits(written, 58)
    && n >= 0 && Value(cur, 256) >= 0
    && Digits(n, 58) == Digits(Value(cur, 256), 58) + written
  }

  /** One pass of encode: the value strictly decreases, the remainder is the next digit from
      the right, and no zero is left in front. */
  lemma EncodePass(n: int, cur: seq<int>, written: seq<int>)
    requires Encoded(n, cur, written) && cur != []
    ensures var r := Divide(cur, 256, 58);
            && |r.quotient| == |cur| && r.quotient[0] == cur[0] / 58 && 0 <= r.remainder < 58
            && Encoded(n, Next(r.quotient), [r.remainder] + written)
            && Value(Next(r.quotient), 256) < Value(cur, 256)
  {
    hide Value, Digits, Divide;
    var r := Divide(cur, 256, 58);
    DivideIsDivision(cur, 256, 58);
    DivideLeading(cur, 256, 58);
    ValuePositive(cur, 256);
    DigitsSnoc(Value(cur, 256), 58);
    QuotientSmaller(Value(cur, 256), 58);
    if r.quotient[0] == 0 {
      ValueDropZero(r.quotient, 256);
    }
    assert Digits(Value(cur, 256), 58) + written == Digits(Value(Next(r.quotient), 256), 58) + ([r.remainder] + written);
  }

  lemma EncodeStarts(cur: seq<int>)
    requires AreDigits(cur, 256) && NoLeadingZero(cur)
    ensures Encoded(Value(cur, 256), cur, [])
  {
    ValueNonNegative(cur, 256);
  }

  lemma EncodeEnds(n: int, written: seq<int>)
    requires Encoded(n, [], written)
    ensures n >= 0 && written == Digits(n, 58) && AreDigits(written, 58) && NoLeadingZero(written)
  {
    assert Digits(Value([], 256), 58) == [];
    DigitsDenote(n, 58);
  }

  /** Between passes of decode: `cur` followed by the bytes written denotes n. */
  ghost predicate Undecoded(n: int, cur: seq<int>, written: seq<int>) {
    && AreDigits(cur, 58) && AreDigits(written, 256)
    && ValueFrom(Value(cur, 58), written, 256) == n
  }

  /** One pass of decode: the leading digit always becomes zero and is dropped, and putting
      the remainder in front of what was written keeps the value. */
  lemma DecodePass(n: int, cur: seq<int>, written: seq<int>)
    requires Undecoded(n, cur, written) && cur != []
    ensures var r := Divide(cur, 58, 256);
            && |r.quotient| == |cur| && r.quotient[0] == 0 && 0 <= r.remainder < 256
            && Undecoded(n, r.quotient[1..], [r.remainder] + written)
  {
    hide Value, Divide;
    var r := Divide(cur, 58, 256);
    DivideIsDivision(cur, 58, 256);
    DivideLeading(cur, 58, 256);
    ValueDropZero(r.quotient, 58);
    assert ([r.remainder] + written)[1..] == written;
  }

  lemma DecodeStarts(d: seq<int>)
    requires AreDigits(d, 58)
    ensures Undecoded(Value(d, 58), d[LeadingZeros(d)..], [])
  {
    hide Value, LeadingZeros;
    var z := LeadingZeros(d);
    SplitZeros(d, 0, z);
    assert d[0..] == d;
    ValueDropZeros(z, d[z..], 58);
    NothingWritten(Value(d, 58), d[z..]);
  }

  lemma NothingWritten(n: int, cur: seq<int>)
    requires AreDigits(cur, 58) && Value(cur, 58) == n
    ensures Undecoded(n, cur, [])
  {
    hide Value;
  }

  /** At the end the bytes are the canonical ones behind some zeros, which are stripped. */
  lemma DecodeEnds(n: int, zeros: nat, rest: seq<int>)
    requires Undecoded(n, [], Zeros(zeros) + rest) && NoLeadingZero(rest)
    ensures n >= 0 && rest == Digits(n, 256)
  {
    hide Value, Digits, ValueFrom;
    DigitsOfZero(58);
    ValueFromZero(Zeros(zeros) + rest, 256);
    ValueDropZeros(zeros, rest, 256);
    assert AreDigits(rest, 256) by {
      assert forall i :: 0 <= i < |rest| ==> rest[i] == (Zeros(zeros) + rest)[zeros + i];
    }
    DigitsUnique(rest, 256);
  }

  // ---- the methods ------------------------------------------------------------------

  /** The loop both directions start with. */
  method CountZeros(number: array<Octet>) returns (zeroCount: nat)
    ensures zeroCount == LeadingZeros(number[..])
  {
    zeroCount := 0;
    while zeroCount < number.Length && number[zeroCount] == 0
      invariant zeroCount <= number.Length
      invariant forall i :: 0 <= i < zeroCount ==> number[i] == 0
    {
      zeroCount := zeroCount + 1;
    }
    LeadingZerosUnique(number[..], zeroCount);
  }

  lemma LeadingZerosUnique(d: seq<int>, z: nat)
    requires z <= |d| && (forall i :: 0 <= i < z ==> d[i] == 0) && (z < |d| ==> d[z] != 0)
    ensures LeadingZeros(d) == z
  {
  }

  /** encode: the caller's array is left alone, and the buffer of twice the input length never
      runs out of room. */
  method Encode(input: array<Octet>) returns (s: string)
    ensures s == Encoding(input[..])
  {
    hide Value, Digits, Chars, Ones, Zeros;
    if input.Length == 0 {
      EncodingOfNothing();
      assert input[..] == [];
      return "";
    }
    var number := new Octet[input.Length](_ => 0);
    ArrayCopy(input, 0, number, 0, input.Length);
    assert number[..] == input[..];
    var zeroCount := CountZeros(number);
    var temp := new char[2 * number.Length](_ => '0');
    var j := EncodeDigits(number, zeroCount, temp);
    j := PrependOnes(temp, j, zeroCount);
    s := temp[j..];
    EncodingByParts(input[..], zeroCount);
  }

  lemma EncodingOfNothing()
    ensures Encoding([]) == ""
  {
  }

  lemma EncodingByParts(b: seq<Octet>, z: nat)
    requires z == LeadingZeros(b)
    ensures var n := Value(b[z..], 256);
            n >= 0 && AreDigits(Digits(n, 58), 58) && Encoding(b) == Ones(z) + Chars(Digits(n, 58))
  {
    hide Value, Digits, Chars;
    assert Zeros(z) + b[z..] == b;
    ValueDropZeros(z, b[z..], 256);
    ValueNonNegative(b, 256);
    DigitsDenote(Value(b, 256), 58);
  }

  /** As many leading '1' as there were leading zeros. */
  method PrependOnes(temp: array<char>, end: nat, zeroCount: nat) returns (j: nat)
    requires zeroCount <= end <= temp.Length
    modifies temp
    ensures j == end - zeroCount && temp[j..] == Ones(zeroCount) + old(temp[end..])
  {
    j := end;
    var k := zeroCount - 1;
    while k >= 0
      invariant -1 <= k < zeroCount && j == end - (zeroCount - 1 - k)
      invariant forall i :: j <= i < end ==> temp[i] == '1'
      invariant forall i :: end <= i < temp.Length ==> temp[i] == old(temp[i])
    {
      j := j - 1;
      temp[j] := '1';
      k := k - 1;
    }
  }

  /** The strip loops: the first position from `start` on that does not hold x. */
  method Skip<T(==)>(temp: array<T>, start: nat, x: T) returns (j: nat)
    requires start <= temp.Length
    ensures start <= j <= temp.Length && (j < temp.Length ==> temp[j] != x)
    ensures forall i :: start <= i < j ==> temp[i] == x
  {
    j := start;
    while j < temp.Length && temp[j] == x
      invariant start <= j <= temp.Length
      invariant forall i :: start <= i < j ==> temp[i] == x
    {
      j := j + 1;
    }
  }

  /** The conversion loop of encode and the strip loop behind it, which never moves. */
  method EncodeDigits(number: array<Octet>, zeroCount: nat, temp: array<char>) returns (j: nat)
    requires zeroCount == LeadingZeros(number[..]) && temp.Length == 2 * number.Length
    modifies number, temp
    ensures 2 * zeroCount <= j <= temp.Length
    ensures var n := Value(old(number[zeroCount..]), 256);
            n >= 0 && AreDigits(Digits(n, 58), 58) && temp[j..] == Chars(Digits(n, 58))
  {
    hide Value, Digits, Divide, CharOf, Chars, Encoded;
    ghost var n := Value(number[zeroCount..], 256);
    ghost var written: seq<int> := [];
    EncodeStarts(number[zeroCount..]);
    CharsEmpty();
    j := temp.Length;
    var startAt := zeroCount;
    while startAt < number.Length
      invariant zeroCount <= startAt <= number.Length && 0 <= j <= temp.Length
      invariant Encoded(n, number[startAt..], written)
      invariant AreDigits(written, 58) && temp[j..] == Chars(written)
      invariant temp.Length - j <= 2 * (startAt - zeroCount) + if startAt < number.Length && number[startAt] < 5 then 1 else 0
      decreases Value(number[startAt..], 256)
    {
      ghost var cur: seq<int> := number[startAt..];
      ghost var q := Divide(cur, 256, 58).quotient;
      EncodedParts(n, cur, written);
      EncodePass(n, cur, written);
      var mod := DivMod58(number, startAt);
      assert number[startAt..] == q;
      if number[startAt] == 0 {
        startAt := startAt + 1;
        assert number[startAt..] == q[1..];
      }
      j := j - 1;
      temp[j] := CharOf(mod);
      CharsCons(mod, written);
      written := [mod] + written;
      EncodedParts(n, number[startAt..], written);
    }
    assert number[startAt..] == [];
    EncodeEnds(n, written);
    StripStays(written);
    j := Skip(temp, j, CharOf(0));
  }

  lemma EncodedParts(n: int, cur: seq<int>, written: seq<int>)
    requires Encoded(n, cur, written)
    ensures Value(cur, 256) >= 0 && AreDigits(written, 58)
  {
  }

  lemma CharsEmpty()
    ensures Chars([]) == []
  {
  }

  lemma CharsCons(x: int, d: seq<int>)
    requires 0 <= x < 58 && AreDigits(d, 58)
    ensures AreDigits([x] + d, 58) && Chars([x] + d) == [CharOf(x)] + Chars(d)
  {
    hide CharOf;
  }

  /** A canonical digit string does not start with the character for zero. */
  lemma StripStays(d: seq<int>)
    requires AreDigits(d, 58) && NoLeadingZero(d)
    ensures Chars(d) != [] ==> Chars(d)[0] != CharOf(0)
  {
    if d != [] {
      IndexOfAlphabet(d[0]);
      IndexOfAlphabet(0);
    }
  }

  // ---- decode -----------------------------------------------------------------------

  /** The static table of digit values by ASCII code. */
  method BuildIndexes() returns (indexes: array<int>)
    ensures fresh(indexes) && IsIndexTable(indexes[..])
  {
    indexes := new int[128](_ => 0);
    for i := 0 to indexes.Length
      invariant forall k :: 0 <= k < i ==> indexes[k] == -1
    {
      indexes[i] := -1;
    }
    hide ALPHABET;
    AlphabetLength();
    for i := 0 to |ALPHABET|
      invariant forall k :: 0 <= k < 128 ==> indexes[k] == IndexIn(ALPHABET, k as char, i)
    {
      AlphabetCode(i);
      indexes[ALPHABET[i] as int] := i;
    }
  }

  lemma AlphabetLength()
    ensures |ALPHABET| == 58
  {
  }

  ghost predicate IsIndexTable(t: seq<int>) {
    |t| == 128 && forall k :: 0 <= k < 128 ==> t[k] == IndexOf(k as char)
  }

  /** The digit of a character: the table lookup guarded by the ASCII test. */
  lemma OutsideAscii(c: char)
    requires c >= 128 as char
    ensures IndexOf(c) == -1
  {
    if IndexOf(c) >= 0 {
      AlphabetCode(IndexOf(c));
    }
  }

  /** decode: the bytes of the string, or the first character outside the alphabet. */
  method Decode(input: string, indexes: array<int>) returns (r: Decoded)
    requires IsIndexTable(indexes[..])
    ensures r == Decoding(input)
  {
    hide Value, Digits, IndexOf, Zeros;
    if |input| == 0 {
      DecodingOfNothing();
      return Ok([]);
    }
    var input58 := new Octet[|input|](_ => 0);
    for i := 0 to |input|
      invariant forall k :: 0 <= k < i ==> IndexOf(input[k]) >= 0 && input58[k] == IndexOf(input[k])
    {
      var c := input[i];
      var digit58 := -1;
      if c < 128 as char {
        digit58 := indexes[c as int];
        assert indexes[..][c as int] == IndexOf(c as int as char);
      } else {
        OutsideAscii(c);
      }
      if digit58 < 0 {
        FirstIllegalUnique(input, i);
        return IllegalCharacter(i);
      }
      input58[i] := digit58;
    }
    FirstIllegalUnique(input, |input|);
    assert input58[..] == Indices(input);
    var bytes := DecodeDigits(input58);
    r := Ok(bytes);
  }

  lemma DecodingOfNothing()
    ensures Decoding("") == Ok([])
  {
  }

  lemma FirstIllegalUnique(s: string, i: nat)
    requires i <= |s| && (forall k :: 0 <= k < i ==> IndexOf(s[k]) >= 0) && (i < |s| ==> IndexOf(s[i]) < 0)
    ensures FirstIllegal(s) == i
  {
    hide IndexOf;
  }

  /** The conversion loop of decode; the final slice re-uses zeros left in front of the bytes. */
  method DecodeDigits(input58: array<Octet>) returns (bytes: seq<Octet>)
    requires AreDigits(input58[..], 58)
    modifies input58
    ensures var d: seq<int> := old(input58[..]);
            Value(d, 58) >= 0 && bytes == Zeros(LeadingZeros(d)) + Digits(Value(d, 58), 256)
  {
    hide Value, Digits, Divide, Undecoded, Zeros, LeadingZeros;
    ghost var d: seq<int> := input58[..];
    ghost var n := Value(d, 58);
    var zeroCount := CountZeros(input58);
    DecodeStarts(d);
    var temp := new Octet[input58.Length](_ => 0);
    var j := temp.Length;
    var startAt := zeroCount;
    assert temp[j..] == [];
    while startAt < input58.Length
      invariant zeroCount <= startAt <= input58.Length && temp.Length - j == startAt - zeroCount
      invariant Undecoded(n, input58[startAt..], temp[j..])
      invariant forall i :: 0 <= i < j ==> temp[i] == 0
    {
      ghost var cur: seq<int> := input58[startAt..];
      ghost var q, tail := Divide(cur, 58, 256).quotient, temp[j..];
      UndecodedDigits(n, cur, tail);
      DecodePass(n, cur, tail);
      var mod := DivMod256(input58, startAt);
      assert input58[startAt..] == q;
      if input58[startAt] == 0 {
        startAt := startAt + 1;
      }
      assert input58[startAt..] == q[1..];
      j := j - 1;
      temp[j] := mod;
      assert temp[j..] == [mod] + tail;
    }
    assert input58[startAt..] == [];
    bytes := CutBytes(temp, j, zeroCount, n);
  }

  /** The strip loop of decode and its final slice. */
  method CutBytes(temp: array<Octet>, start: nat, zeroCount: nat, ghost n: int) returns (bytes: seq<Octet>)
    requires zeroCount <= start <= temp.Length && Undecoded(n, [], temp[start..])
    requires forall i :: 0 <= i < start ==> temp[i] == 0
    ensures n >= 0 && bytes == Zeros(zeroCount) + Digits(n, 256)
  {
    hide Digits, Undecoded, Zeros;
    var j := Skip(temp, start, 0);
    ghost var d: seq<int> := temp[..];
    assert temp[start..] == d[start..] && temp[j..] == d[j..];
    SplitZeros(d, start, j);
    DecodeEnds(n, j - start, d[j..]);
    SplitZeros(d, j - zeroCount, j);
    bytes := temp[j - zeroCount..];
    assert bytes == d[j - zeroCount..];
  }

  lemma UndecodedDigits(n: int, cur: seq<int>, written: seq<int>)
    requires Undecoded(n, cur, written)
    ensures AreDigits(cur, 58)
  {
  }
}
