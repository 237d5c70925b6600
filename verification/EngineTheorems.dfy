/** What a user of the engine can rely on across calls. */
module EngineTheorems {
  import opened Complement
  import opened Sponge
  import opened KeccakEngine

  /** Chunking is invisible: the lanes, the block count, the fill level and the buffered bytes
      depend only on the bytes fed, not on how they were split over update calls. */
  lemma SameInputSameState(d: KeccakCore, e: KeccakCore)
    requires d.Valid() && e.Valid()
    requires d.digestLen == e.digestLen && d.absorbed == e.absorbed
    ensures d.A[..] == e.A[..] && d.blockCount == e.blockCount && d.inputLen == e.inputLen
    ensures d.inputBuf[..d.inputLen] == e.inputBuf[..e.inputLen]
  {
    hide Stored, Absorb, Processed, Tail, Pending, Blocks, Aligned;
    assert |d.inputBuf[..d.inputLen]| == d.inputLen && |e.inputBuf[..e.inputLen]| == e.inputLen;
  }

  /** The documented bookkeeping: whole blocks processed, the rest waiting in the buffer. */
  lemma BytesAreAccountedFor(e: KeccakCore)
    requires e.Valid()
    ensures |e.absorbed| == e.blockCount * e.blockLen + e.inputLen && e.inputLen < e.blockLen
    ensures e.inputBuf[..e.inputLen] == e.absorbed[e.blockCount * e.blockLen..]
  {
    hide Stored, Absorb, Processed, Aligned;
    var n, r := |e.absorbed|, e.blockLen;
    assert |e.inputBuf[..e.inputLen]| == e.inputLen;
    assert n == (n / r) * r + n % r;
  }

  /** An update call: a single byte, or a slice of an array with the given contents. */
  datatype Call = One(input: Byte) | Slice(contents: Bytes, offset: int, len: int)

  /** A slice has to lie inside its array. */
  predicate InRange(call: Call) {
    call.Slice? && call.len > 0 ==> 0 <= call.offset && call.offset + call.len <= |call.contents|
  }

  /** The bytes a call feeds; a slice of non-positive length feeds none. */
  function Fed(call: Call): Bytes
    requires InRange(call)
  {
    match call
    case One(input) => [input]
    case Slice(contents, offset, len) => if len > 0 then contents[offset..offset + len] else []
  }

  method MakeCall(e: KeccakCore, call: Call)
    requires e.Valid() && InRange(call)
    modifies e.Repr
    ensures e.Valid() && e.absorbed == old(e.absorbed) + Fed(call)
  {
    hide Represents;
    match call
    case One(input) =>
      e.Update(input);
    case Slice(contents, offset, len) =>
      var data := new Byte[|contents|](i requires 0 <= i < |contents| => contents[i]);
      assert data[..] == contents;
      e.UpdateSlice(data, offset, len);
  }

  /** The bytes the calls feed to one of two engines, the flag telling which. */
  function Sent(script: seq<(bool, Call)>, toCopy: bool): Bytes
    requires forall i :: 0 <= i < |script| ==> InRange(script[i].1)
  {
    if script == [] then [] else
      var last := script[|script| - 1];
      Sent(script[..|script| - 1], toCopy) + if last.0 == toCopy then Fed(last.1) else []
  }

  lemma SentSnoc(script: seq<(bool, Call)>, toCopy: bool, i: nat)
    requires i < |script| && forall k :: 0 <= k < |script| ==> InRange(script[k].1)
    ensures Sent(script[..i + 1], toCopy) == Sent(script[..i], toCopy) + if script[i].0 == toCopy then Fed(script[i].1) else []
  {
    assert script[..i + 1][..i] == script[..i];
  }

  /** The hash an engine owes that got the prefix and then its calls of the script. */
  function ExpectedHash(prefix: Bytes, script: seq<(bool, Call)>, toCopy: bool, digestLen: nat): Bytes
    requires IsDigestLength(digestLen) && forall i :: 0 <= i < |script| ==> InRange(script[i].1)
  {
    Hash(prefix + Sent(script, toCopy), digestLen)
  }

  /** A copy taken mid-stream evolves on its own: whatever the interleaving of byte and slice
      updates, each engine returns the hash of the common prefix followed by its own bytes. */
  method CopyIsIndependent(e: KeccakCore, script: seq<(bool, Call)>)
    returns (original: array<Byte>, copied: array<Byte>)
    requires e.Valid() && forall i :: 0 <= i < |script| ==> InRange(script[i].1)
    modifies e.Repr
    ensures original[..] == ExpectedHash(old(e.absorbed), script, false, e.digestLen)
    ensures copied[..] == ExpectedHash(old(e.absorbed), script, true, e.digestLen)
  {
    hide Hash, Represents, Sent, Fed, InRange;
    var c := e.Copy();
    NothingSent();
    assert script[..0] == [];
    for i := 0 to |script|
      invariant e.Valid() && c.Valid() && fresh(c.Repr) && c.digestLen == e.digestLen
      invariant e.absorbed == old(e.absorbed) + Sent(script[..i], false)
      invariant c.absorbed == old(e.absorbed) + Sent(script[..i], true)
    {
      SentSnoc(script, false, i);
      SentSnoc(script, true, i);
      if script[i].0 {
        MakeCall(c, script[i].1);
      } else {
        MakeCall(e, script[i].1);
      }
    }
    assert script[..|script|] == script;
    original := e.Digest();
    copied := c.Digest();
  }

  lemma NothingSent()
    ensures Sent([], false) == [] && Sent([], true) == []
  {
  }
}
