/** Base58Check for an arbitrary checksum hash with 32-byte results (SHA-256 in the program). */
module Base58Check {
  import opened JavaArrays
  import opened Base58

  type Hash = seq<Octet> -> seq<Octet>

  ghost predicate IsHash32(sha: Hash) {
    forall b :: |sha(b)| == 32
  }

  datatype Checked = Payload(bytes: seq<Octet>) | Rejected | BadCharacter(at: nat)

  /** The first four bytes of the double hash. */
  function Checksum(sha: Hash, b: seq<Octet>): (c: seq<Octet>)
    requires |sha(sha(b))| == 32
    ensures |c| == 4
  {
    sha(sha(b))[..4]
  }

  function Encoding58Check(sha: Hash, b: seq<Octet>): string
    requires |sha(sha(b))| == 32
  {
    Encoding(b + Checksum(sha, b))
  }

  ghost function Decoding58Check(sha: Hash, s: string): Checked
    requires IsHash32(sha)
  {
    match Decoding(s)
    case IllegalCharacter(at) => BadCharacter(at)
    case Ok(d) =>
      if |d| <= 4 then Rejected else
        var y := d[..|d| - 4];
        if d[|d| - 4..] == Checksum(sha, y) then Payload(y) else Rejected
  }

  /** What is encoded: the payload followed by the first four bytes of its double hash. */
  lemma EncodesPayloadAndChecksum(sha: Hash, y: seq<Octet>)
    requires IsHash32(sha)
    ensures Decoding(Encoding58Check(sha, y)) == Ok(y + sha(sha(y))[..4])
  {
    hide Encoding, Decoding;
    DecodeEncode(y + Checksum(sha, y));
  }

  /** The outcome for any string: the bad character if there is one; the payload when more than
      four bytes decode and the last four are the first four of the payload's double hash; null
      otherwise. */
  lemma DecodesByChecksum(sha: Hash, s: string)
    requires IsHash32(sha)
    ensures forall at :: Decoding58Check(sha, s) == BadCharacter(at) <==> Decoding(s) == IllegalCharacter(at)
    ensures forall y :: Decoding58Check(sha, s) == Payload(y) <==>
              && Decoding(s).Ok? && |Decoding(s).bytes| > 4
              && y == Decoding(s).bytes[..|Decoding(s).bytes| - 4]
              && Decoding(s).bytes[|Decoding(s).bytes| - 4..] == sha(sha(y))[..4]
  {
    hide Decoding;
  }

  /** A string is accepted with payload y exactly when y is not empty and the string is the
      one encode58Check makes of y. */
  lemma AcceptedExactly(sha: Hash, s: string, y: seq<Octet>)
    requires IsHash32(sha)
    ensures Decoding58Check(sha, s) == Payload(y) <==> y != [] && s == Encoding58Check(sha, y)
  {
    hide Encoding, Decoding, Checksum;
    var c := Checksum(sha, y);
    DecodesExactly(s, y + c);
    SplitChecked(y, c);
    if Decoding58Check(sha, s).Payload? {
      JoinChecked(Decoding(s).bytes);
    }
  }

  lemma SplitChecked(y: seq<Octet>, c: seq<Octet>)
    requires |c| == 4
    ensures (y + c)[..|y + c| - 4] == y && (y + c)[|y + c| - 4..] == c
  {
  }

  lemma JoinChecked(d: seq<Octet>)
    requires |d| >= 4
    ensures d == d[..|d| - 4] + d[|d| - 4..]
  {
  }

  /** The round trip, and its one exception: the empty payload is encoded to a string that
      decode58Check rejects. */
  lemma CheckRoundTrip(sha: Hash, y: seq<Octet>)
    requires IsHash32(sha)
    ensures Decoding58Check(sha, Encoding58Check(sha, y)) == if y == [] then Rejected else Payload(y)
  {
    hide Encoding, Decoding, Checksum;
    var c := Checksum(sha, y);
    DecodeEncode(y + c);
    SplitChecked(y, c);
  }

  /** No two accepted strings carry the same payload, and no string carries two. */
  lemma PayloadDeterminesString(sha: Hash, s: string, t: string)
    requires IsHash32(sha)
    requires Decoding58Check(sha, s).Payload?
    ensures Decoding58Check(sha, s) == Decoding58Check(sha, t) <==> s == t
  {
    hide Decoding58Check, Encoding58Check;
    AcceptedExactly(sha, s, Decoding58Check(sha, s).bytes);
    AcceptedExactly(sha, t, Decoding58Check(sha, s).bytes);
  }

  /** decodeAddress throws: Base58 does on a bad character, copying the bytes of null otherwise. */
  ghost predicate DecodeAddressThrows(sha: Hash, s: string)
    requires IsHash32(sha)
  {
    !Decoding58Check(sha, s).Payload?
  }

  /** Which addresses make decodeAddress throw: all that encode58Check makes of no payload. */
  lemma AddressThrowsIff(sha: Hash, s: string)
    requires IsHash32(sha)
    ensures DecodeAddressThrows(sha, s) <==> forall y :: y != [] ==> s != Encoding58Check(sha, y)
  {
    hide Decoding58Check, Encoding58Check;
    forall y: seq<Octet>
      ensures Decoding58Check(sha, s) == Payload(y) <==> y != [] && s == Encoding58Check(sha, y)
    {
      AcceptedExactly(sha, s, y);
    }
    if !DecodeAddressThrows(sha, s) {
      assert Decoding58Check(sha, s) == Payload(Decoding58Check(sha, s).bytes);
    }
  }

  /** encode58Check. */
  method Encode58Check(sha: Hash, input: array<Octet>) returns (s: string)
    requires IsHash32(sha)
    ensures s == Encoding58Check(sha, input[..])
  {
    hide Encoding;
    var hash0 := sha(input[..]);
    var hash1 := sha(hash0);
    var inputCheck := new Octet[input.Length + 4](_ => 0);
    ArrayCopy(input, 0, inputCheck, 0, input.Length);
    assert inputCheck[..input.Length] == input[..];
    inputCheck[input.Length] := hash1[0];
    inputCheck[input.Length + 1] := hash1[1];
    inputCheck[input.Length + 2] := hash1[2];
    inputCheck[input.Length + 3] := hash1[3];
    assert inputCheck[..input.Length] == input[..];
    assert inputCheck[..] == input[..] + Checksum(sha, input[..]);
    s := Encode(inputCheck);
  }

  /** decode58Check; Rejected is the program's null. */
  method Decode58Check(sha: Hash, input: string, indexes: array<int>) returns (r: Checked)
    requires IsHash32(sha) && IsIndexTable(indexes[..])
    ensures r == Decoding58Check(sha, input)
  {
    hide Decoding;
    var decoded := Decode(input, indexes);
    if decoded.IllegalCharacter? {
      return BadCharacter(decoded.at);
    }
    var decodeCheck := decoded.bytes;
    if |decodeCheck| <= 4 {
      return Rejected;
    }
    var n := |decodeCheck| - 4;
    var decodeData := decodeCheck[..n];
    var hash0 := sha(decodeData);
    var hash1 := sha(hash0);
    assert decodeCheck[n..] == [decodeCheck[n], decodeCheck[n + 1], decodeCheck[n + 2], decodeCheck[n + 3]];
    if hash1[0] == decodeCheck[n] && hash1[1] == decodeCheck[n + 1] &&
       hash1[2] == decodeCheck[n + 2] && hash1[3] == decodeCheck[n + 3] {
      assert decodeCheck[n..] == Checksum(sha, decodeData);
      r := Payload(decodeData);
    } else {
      r := Rejected;
    }
  }
}
