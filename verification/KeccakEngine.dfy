/** KeccakCore on top of DigestEngine: the incremental hash object.  Lengths other than those
    of Keccak256 (32) and Keccak512 (64) are allowed as long as one squeeze suffices. */
module KeccakEngine {
  import opened Arith
  import opened JavaArrays
  import opened Lanes
  import opened Fips202
  import opened Complement
  import opened Sponge
  import opened KeccakPermutation

  /** The value a digest call has to return for everything absorbed so far. */
  function Hash(m: Bytes, digestLen: nat): (h: Bytes)
    requires IsDigestLength(digestLen)
    ensures |h| == digestLen
  {
    Keccak(m, 200 - 2 * digestLen, digestLen)
  }

  /** The two hashes of the program: Keccak[512] cut at 32 bytes and Keccak[1024] cut at 64. */
  lemma HashesAreKeccak(m: Bytes)
    ensures Hash(m, 32) == Keccak(m, 136, 32) && Hash(m, 64) == Keccak(m, 72, 64)
  {
    hide Keccak;
  }

  predicate IsDigestLength(d: nat) {
    0 < d <= 64 && d % 4 == 0
  }

  /** How many of n absorbed bytes wait in the block buffer. */
  function Pending(n: nat, r: nat): (p: nat)
    requires r > 0
    ensures p < r && p <= n && Aligned(n - p, r)
  {
    assert n == (n / r) * r + n % r;
    ModAddMultiple(0, n / r, r);
    n % r
  }

  /** How many whole blocks n bytes make. */
  function Blocks(n: nat, r: nat): nat
    requires r > 0
  {
    n / r
  }

  /** Bytes already pushed through the permutation. */
  function Processed(m: Bytes, r: nat): (b: Bytes)
    requires r > 0
    ensures Aligned(|b|, r)
  {
    m[..|m| - Pending(|m|, r)]
  }

  function Tail(m: Bytes, r: nat): (b: Bytes)
    requires r > 0
    ensures |b| == Pending(|m|, r)
  {
    m[|m| - Pending(|m|, r)..]
  }

  /** What the engine holds after absorbing m at rate r: the buffered bytes, the block count
      and the lanes.  All three are functions of m. */
  predicate Represents(m: Bytes, r: nat, buffered: Bytes, blockCount: nat, lanes: seq<Lane>)
    requires r > 0
  {
    buffered == Tail(m, r) && blockCount == Blocks(|m|, r) && lanes == Stored(Absorb(Processed(m, r), r))
  }

  /** Feeding less than fills the block only lengthens the tail. */
  lemma TailGrows(m: Bytes, more: Bytes, r: nat)
    requires r > 0 && Pending(|m|, r) + |more| < r
    ensures Tail(m + more, r) == Tail(m, r) + more && Processed(m + more, r) == Processed(m, r)
    ensures Blocks(|m + more|, r) == Blocks(|m|, r)
  {
    var p := Pending(|m|, r);
    assert |m| == (|m| / r) * r + p;
    DivModUnique(|m + more|, |m| / r, p + |more|, r);
  }

  /** Filling the block moves the whole buffer over to the processed side. */
  lemma BlockFills(m: Bytes, more: Bytes, r: nat)
    requires r > 0 && Pending(|m|, r) + |more| == r
    ensures Tail(m + more, r) == [] && Processed(m + more, r) == Processed(m, r) + (Tail(m, r) + more)
    ensures Blocks(|m + more|, r) == Blocks(|m|, r) + 1
  {
    var p := Pending(|m|, r);
    assert |m| == (|m| / r) * r + p;
    assert |m + more| == (|m| / r + 1) * r + 0;
    DivModUnique(|m + more|, |m| / r + 1, 0, r);
  }

  lemma RepresentedParts(m: Bytes, r: nat, buffered: Bytes, blockCount: nat, lanes: seq<Lane>)
    requires r > 0 && Represents(m, r, buffered, blockCount, lanes)
    ensures |buffered| < r && lanes == Stored(Absorb(Processed(m, r), r))
  {
    hide Stored, Absorb, Processed, Blocks;
  }

  /** Extending a buffer that stays short of a block. */
  lemma StaysOpen(m: Bytes, r: nat, buffered: Bytes, blockCount: nat, lanes: seq<Lane>, more: Bytes)
    requires r > 0 && Represents(m, r, buffered, blockCount, lanes)
    requires |buffered| + |more| < r
    ensures Represents(m + more, r, buffered + more, blockCount, lanes)
  {
    hide Stored, Absorb, Processed, Tail, Pending, Blocks, Aligned;
    TailGrows(m, more, r);
  }

  /** Extending a buffer to exactly one block, which is then absorbed. */
  lemma BlockCloses(m: Bytes, r: nat, buffered: Bytes, blockCount: nat, lanes: seq<Lane>, more: Bytes)
    requires r > 0 && Represents(m, r, buffered, blockCount, lanes)
    requires |buffered| + |more| == r
    ensures Represents(m + more, r, [], blockCount + 1,
                       Stored(AbsorbBlock(Absorb(Processed(m, r), r), buffered + more)))
  {
    hide Stored, Absorb, AbsorbBlock, Processed, Tail, Pending, Blocks, Aligned;
    BlockFills(m, more, r);
    AbsorbOneMore(Processed(m, r), buffered + more, r);
  }

  lemma FreshStart(r: nat)
    requires r > 0
    ensures Represents([], r, [], 0, Stored(ZeroState()))
  {
    hide Stored;
  }

  lemma WholePrefix<T>(s: seq<T>)
    ensures s[..|s|] == s && s[0..|s|] == s
  {
  }

  lemma StoredXor(s: State, t: State)
    ensures XorState(Stored(s), t) == Stored(XorState(s, t))
  {
    hide Xor, Mask;
    forall i | 0 <= i < 25
      ensures XorState(Stored(s), t)[i] == Stored(XorState(s, t))[i]
    {
      XorAssoc(s[i], Mask()[i], t[i]);
      XorComm(Mask()[i], t[i]);
      XorAssoc(s[i], t[i], Mask()[i]);
    }
  }

  /** Padding the buffered bytes gives the last block of the padded message. */
  lemma LastBlock(m: Bytes, r: nat, buffered: Bytes, blockCount: nat, lanes: seq<Lane>)
    requires r > 0 && Represents(m, r, buffered, blockCount, lanes)
    ensures |buffered| < r
    ensures Absorb(Padded(m, r), r) ==
            AbsorbBlock(Absorb(Processed(m, r), r), buffered + PadTail(r - |buffered|))
  {
    hide AbsorbBlock, Absorb, PadTail, Stored;
    var last := buffered + PadTail(r - |buffered|);
    AbsorbOneMore(Processed(m, r), last, r);
    assert Processed(m, r) + last == Padded(m, r);
  }

  lemma HashIsOneSqueeze(m: Bytes, d: nat)
    requires IsDigestLength(d)
    ensures Hash(m, d) == StateBytes(Absorb(Padded(m, 200 - 2 * d), 200 - 2 * d))[..d]
  {
    hide Absorb, Padded, StateBytes, KeccakF;
  }

  // ---- the processBlock entry point -------------------------------------------------

  /** processBlock: xor the block into the lanes, then permute. */
  method ProcessBlock(A: array<Lane>, data: array<Byte>, ghost s: State)
    requires A.Length == 25 && data.Length % 8 == 0 && data.Length <= 200
    requires A[..] == Stored(s)
    modifies A
    ensures A[..] == Stored(AbsorbBlock(s, data[..]))
  {
    hide Xor, LaneAt, Stored, KeccakF;
    ghost var block := BlockState(data[..]);
    var i := 0;
    while i < data.Length
      invariant 0 <= i <= data.Length && i % 8 == 0
      invariant forall k :: 0 <= k < 25 ==> A[k] == if 8 * k < i then Xor(Stored(s)[k], block[k]) else Stored(s)[k]
    {
      A[i / 8] := Xor(A[i / 8], LaneAt(data[..], i));
      i := i + 8;
    }
    forall k | 0 <= k < 25
      ensures A[k] == XorState(Stored(s), block)[k]
    {
      XorZero(Stored(s)[k]);
    }
    assert A[..] == XorState(Stored(s), block);
    StoredXor(s, block);
    Permute(A, XorState(s, block));
  }

  /** encodeLELong: eight bytes, least significant first. */
  method EncodeLELong(val: Lane, buf: array<Byte>, off: nat)
    requires off + 8 <= buf.Length
    modifies buf
    ensures forall k :: 0 <= k < 8 ==> buf[off + k] == LaneByte(val, k)
    ensures forall k :: 0 <= k < off || off + 8 <= k < buf.Length ==> buf[k] == old(buf[k])
  {
    hide LaneByte;
    buf[off + 0] := LaneByte(val, 0);
    buf[off + 1] := LaneByte(val, 1);
    buf[off + 2] := LaneByte(val, 2);
    buf[off + 3] := LaneByte(val, 3);
    buf[off + 4] := LaneByte(val, 4);
    buf[off + 5] := LaneByte(val, 5);
    buf[off + 6] := LaneByte(val, 6);
    buf[off + 7] := LaneByte(val, 7);
  }

  lemma StateByteAt(s: State, i: int, k: int)
    requires 0 <= i < 25 && 0 <= k < 8
    ensures StateBytes(s)[8 * i + k] == LaneByte(s[i], k)
  {
    hide LaneByte;
    assert (8 * i + k) / 8 == i && (8 * i + k) % 8 == k;
  }

  lemma XorZero(x: Lane)
    ensures Xor(x, ZERO) == x
  {
    XorConstants(x);
  }

  lemma SliceGrows<T>(s: seq<T>, start: nat, offset: nat, n: nat)
    requires start <= offset && offset + n <= |s|
    ensures s[start..offset] + s[offset..offset + n] == s[start..offset + n]
  {
  }

  /** s with part in place of the elements from off on. */
  function Overwritten<T>(s: seq<T>, off: nat, part: seq<T>): seq<T> {
    if off + |part| <= |s| then s[..off] + part + s[off + |part|..] else s
  }

  /** The first n elements, or all if there are fewer. */
  function FirstBytes(s: Bytes, n: nat): Bytes {
    if n < |s| then s[..n] else s
  }

  // ---- the engine -------------------------------------------------------------------

  class KeccakCore {
    const digestLen: nat
    const blockLen: nat
    const A: array<Lane>
    const tmpOut: array<Byte>
    const inputBuf: array<Byte>
    const outputBuf: array<Byte>
    var inputLen: nat
    var blockCount: nat

    /** Every byte fed since creation or the last reset. */
    ghost var absorbed: Bytes

    ghost const Repr: set<object>

    ghost predicate Shape()
    {
      && Repr == {this, A, tmpOut, inputBuf, outputBuf}
      && A as object != inputBuf && A as object != tmpOut && A as object != outputBuf
      && tmpOut != inputBuf && tmpOut != outputBuf && inputBuf != outputBuf
      && IsDigestLength(digestLen) && blockLen == 200 - 2 * digestLen
      && A.Length == 25 && inputBuf.Length == blockLen && outputBuf.Length == digestLen
      && digestLen <= tmpOut.Length && tmpOut.Length == (digestLen + 7) / 8 * 8
    }

    /** Everything the object stores is a function of `absorbed`. */
    ghost predicate Valid()
      reads this, A, inputBuf
    {
      && Shape()
      && inputLen < blockLen
      && Represents(absorbed, blockLen, inputBuf[..inputLen], blockCount, A[..])
    }

    constructor (digestLen: nat)
      requires IsDigestLength(digestLen)
      ensures Valid() && fresh(Repr)
      ensures this.digestLen == digestLen && absorbed == []
    {
      hide Stored, Represents;
      this.digestLen := digestLen;
      var blockLen := 200 - 2 * digestLen;
      this.blockLen := blockLen;
      var A := new Lane[25](_ => ZERO);
      var tmpOut := new Byte[(digestLen + 7) / 8 * 8](_ => Byte(0));
      var inputBuf := new Byte[blockLen](_ => Byte(0));
      var outputBuf := new Byte[digestLen](_ => Byte(0));
      this.A, this.tmpOut, this.inputBuf, this.outputBuf := A, tmpOut, inputBuf, outputBuf;
      inputLen := 0;
      blockCount := 0;
      absorbed := [];
      Repr := {this, A, tmpOut, inputBuf, outputBuf};
      new;
      DoReset();
      assert inputBuf[..0] == [];
      FreshStart(blockLen);
    }

    /** doReset: the all-zero state, stored with its complement mask. */
    method DoReset()
      requires A.Length == 25
      modifies A
      ensures A[..] == Stored(ZeroState())
    {
      hide Not;
      for i := 0 to 25
        invariant forall k :: 0 <= k < i ==> A[k] == ZERO
      {
        A[i] := ZERO;
      }
      A[1] := ONES;
      A[2] := ONES;
      A[8] := ONES;
      A[12] := ONES;
      A[17] := ONES;
      A[20] := ONES;
      StoredZero();
    }

    /** The state between extending the buffer by `more` and the test for a full block. */
    ghost predicate Extended(more: Bytes)
      reads this, A, inputBuf
    {
      && Shape()
      && |more| <= inputLen <= blockLen
      && inputBuf[inputLen - |more|..inputLen] == more
      && Represents(absorbed, blockLen, inputBuf[..inputLen - |more|], blockCount, A[..])
    }

    /** The end of both update forms: process the block once it is full. */
    method ProcessIfFull(ghost more: Bytes)
      requires Extended(more)
      modifies this, A
      ensures Valid() && absorbed == old(absorbed) + more
    {
      hide Stored, Absorb, AbsorbBlock, Processed, Aligned, Represents;
      ghost var buffered := inputBuf[..inputLen - |more|];
      assert inputBuf[..inputLen] == buffered + more;
      if inputLen == blockLen {
        BlockCloses(absorbed, blockLen, buffered, blockCount, A[..], more);
        WholePrefix(inputBuf[..]);
        RepresentedParts(absorbed, blockLen, buffered, blockCount, A[..]);
        ProcessBlock(A, inputBuf, Absorb(Processed(absorbed, blockLen), blockLen));
        blockCount := blockCount + 1;
        inputLen := 0;
      } else {
        StaysOpen(absorbed, blockLen, buffered, blockCount, A[..], more);
      }
      absorbed := absorbed + more;
    }

    /** update(byte). */
    method Update(input: Byte)
      requires Valid()
      modifies this, A, inputBuf
      ensures Valid() && absorbed == old(absorbed) + [input]
    {
      hide Represents;
      ghost var buffered := inputBuf[..inputLen];
      inputBuf[inputLen] := input;
      inputLen := inputLen + 1;
      assert inputBuf[..inputLen - 1] == buffered;
      ProcessIfFull([input]);
    }

    /** System.arraycopy into the buffer, and the counters that go with it. */
    method CopyIn(input: array<Byte>, offset: nat, copyLen: nat)
      requires Valid() && input !in Repr && offset + copyLen <= input.Length && inputLen + copyLen <= blockLen
      modifies this`inputLen, inputBuf
      ensures Extended(input[offset..offset + copyLen])
    {
      hide Represents;
      ghost var buffered := inputBuf[..inputLen];
      ArrayCopy(input, offset, inputBuf, inputLen, copyLen);
      inputLen := inputLen + copyLen;
      assert inputBuf[..inputLen - copyLen] == buffered;
    }

    /** update(byte[]). */
    method UpdateAll(input: array<Byte>)
      requires Valid() && input !in Repr
      modifies this, A, inputBuf
      ensures Valid() && absorbed == old(absorbed) + input[..]
    {
      hide Valid;
      WholePrefix(input[..]);
      UpdateSlice(input, 0, input.Length);
    }

    /** One turn of the loop below: as much as the buffer still takes. */
    method UpdateChunk(input: array<Byte>, offset: nat, len: nat) returns (copyLen: nat)
      requires Valid() && input !in Repr && len > 0 && offset + len <= input.Length
      modifies this, A, inputBuf
      ensures Valid() && 0 < copyLen <= len
      ensures absorbed == old(absorbed) + input[offset..offset + copyLen]
    {
      hide Represents;
      copyLen := blockLen - inputLen;
      if copyLen > len {
        copyLen := len;
      }
      ghost var more := input[offset..offset + copyLen];
      CopyIn(input, offset, copyLen);
      ProcessIfFull(more);
    }

    lemma HasShape()
      requires Valid()
      ensures Shape() && inputLen < blockLen
    {
      hide Represents;
    }

    lemma InputIsApart(input: array<Byte>)
      requires Valid() && input !in Repr
      ensures input != inputBuf
    {
      hide Represents;
    }

    /** update(byte[], offset, len); a non-positive len does nothing. */
    method UpdateSlice(input: array<Byte>, offset: int, len: int)
      requires Valid() && input !in Repr
      requires len > 0 ==> 0 <= offset && offset + len <= input.Length
      modifies this, A, inputBuf
      ensures Valid()
      ensures absorbed == old(absorbed) + if len > 0 then input[offset..offset + len] else []
    {
      hide Valid;
      InputIsApart(input);
      var offset, len := offset, len;
      ghost var start, end := offset, offset + len;
      while len > 0
        invariant Valid() && start <= offset && offset + len == end
        invariant len > 0 || offset > start ==> 0 <= start && 0 <= len && end <= input.Length
        invariant absorbed == old(absorbed) + if offset > start then input[start..offset] else []
      {
        var copyLen := UpdateChunk(input, offset, len);
        SliceGrows(input[..], start, offset, copyLen);
        offset := offset + copyLen;
        len := len - copyLen;
      }
    }

    /** reset(): the object is as good as new. */
    method Reset()
      requires Shape()
      modifies this, A
      ensures Valid() && absorbed == []
    {
      hide Stored, Represents;
      DoReset();
      inputLen := 0;
      blockCount := 0;
      absorbed := [];
      assert inputBuf[..0] == [];
      FreshStart(blockLen);
    }

    /** The padding bytes written behind the tail. */
    method PadBuffer()
      requires Valid()
      modifies inputBuf
      ensures inputBuf[..] == old(inputBuf[..inputLen]) + PadTail(blockLen - inputLen)
    {
      hide Represents;
      var ptr := inputLen;
      ghost var tail := inputBuf[..ptr];
      if ptr + 1 == inputBuf.Length {
        inputBuf[ptr] := Byte(0x81);
      } else {
        inputBuf[ptr] := Byte(0x01);
        for i := ptr + 1 to inputBuf.Length - 1
          invariant inputBuf[..ptr] == tail && inputBuf[ptr] == Byte(0x01)
          invariant forall k :: ptr < k < i ==> inputBuf[k] == Byte(0)
        {
          inputBuf[i] := Byte(0);
        }
        inputBuf[inputBuf.Length - 1] := Byte(0x80);
      }
      assert inputBuf[ptr..] == PadTail(blockLen - ptr);
      assert inputBuf[..] == inputBuf[..ptr] + inputBuf[ptr..];
    }

    /** The six complements that turn the stored state into the plain one. */
    method Uncomplement(ghost s: State)
      requires A.Length == 25 && A[..] == Stored(s)
      modifies A
      ensures A[..] == s
    {
      hide Not, Stored;
      A[1] := Not(A[1]);
      A[2] := Not(A[2]);
      A[8] := Not(A[8]);
      A[12] := Not(A[12]);
      A[17] := Not(A[17]);
      A[20] := Not(A[20]);
      StoredLanes(s);
    }

    /** encodeLELong over the lanes of the output. */
    method EncodeLanes()
      requires Shape()
      modifies tmpOut
      ensures tmpOut[..digestLen] == StateBytes(A[..])[..digestLen]
    {
      hide LaneByte, StateBytes;
      ghost var bytes := StateBytes(A[..]);
      var i := 0;
      while i < digestLen
        invariant 0 <= i <= tmpOut.Length && i % 8 == 0
        invariant forall k :: 0 <= k < i ==> tmpOut[k] == bytes[k]
      {
        EncodeLELong(A[i / 8], tmpOut, i);
        forall k | i <= k < i + 8
          ensures tmpOut[k] == bytes[k]
        {
          StateByteAt(A[..], i / 8, k - i);
          assert tmpOut[i + (k - i)] == LaneByte(A[i / 8], k - i);
        }
        i := i + 8;
      }
    }

    /** doPadding: the hash of everything absorbed goes to out[off..off + digestLen]. */
    method DoPadding(out: array<Byte>, off: nat)
      requires Valid() && out != inputBuf && out != tmpOut && off + digestLen <= out.Length
      modifies A, inputBuf, tmpOut, out
      ensures out[..] == old(out[..off]) + Hash(absorbed, digestLen) + old(out[off + digestLen..])
    {
      hide Stored, Absorb, AbsorbBlock, Processed, Padded, Aligned, StateBytes, PadTail, Hash, Represents;
      ghost var s := Absorb(Processed(absorbed, blockLen), blockLen);
      RepresentedParts(absorbed, blockLen, inputBuf[..inputLen], blockCount, A[..]);
      LastBlock(absorbed, blockLen, inputBuf[..inputLen], blockCount, A[..]);
      PadBuffer();
      ProcessBlock(A, inputBuf, s);
      Uncomplement(AbsorbBlock(s, inputBuf[..]));
      EncodeLanes();
      HashIsOneSqueeze(absorbed, digestLen);
      assert tmpOut[0..digestLen] == tmpOut[..digestLen];
      ArrayCopy(tmpOut, 0, out, off, digestLen);
    }

    /** digest(buf, offset, len): writes the first min(len, digestLen) bytes of the hash. */
    method DigestInto(buf: array<Byte>, offset: nat, len: nat) returns (n: nat)
      requires Valid() && buf !in Repr
      requires offset + (if len < digestLen then len else digestLen) <= buf.Length
      modifies Repr, buf
      ensures Valid() && absorbed == []
      ensures n == if len < digestLen then len else digestLen
      ensures buf[..] == Overwritten(old(buf[..]), offset, FirstBytes(Hash(old(absorbed), digestLen), len))
    {
      hide Represents, Hash, Valid;
      HasShape();
      if len >= digestLen {
        DoPadding(buf, offset);
        Reset();
        n := digestLen;
      } else {
        DoPadding(outputBuf, 0);
        assert outputBuf[0..len] == Hash(absorbed, digestLen)[..len];
        ArrayCopy(outputBuf, 0, buf, offset, len);
        Reset();
        n := len;
      }
    }

    /** digest(). */
    method Digest() returns (result: array<Byte>)
      requires Valid()
      modifies Repr
      ensures Valid() && absorbed == [] && fresh(result)
      ensures result[..] == Hash(old(absorbed), digestLen)
    {
      hide Represents, Hash;
      result := new Byte[digestLen](_ => Byte(0));
      var n := DigestInto(result, 0, digestLen);
    }

    /** digest(byte[]): update, then digest(). */
    method DigestOf(input: array<Byte>) returns (result: array<Byte>)
      requires Valid() && input !in Repr
      modifies Repr
      ensures Valid() && absorbed == [] && fresh(result)
      ensures result[..] == Hash(old(absorbed) + input[..], digestLen)
    {
      hide Represents, Hash;
      UpdateAll(input);
      result := Digest();
    }

    /** copy(): a new engine in the same state, sharing no array with this one. */
    method Copy() returns (dst: KeccakCore)
      requires Valid()
      ensures dst.Valid() && fresh(dst.Repr)
      ensures dst.digestLen == digestLen && dst.absorbed == absorbed
    {
      hide Represents, Valid;
      HasShape();
      dst := new KeccakCore(digestLen);
      dst.HasShape();
      ArrayCopy(A, 0, dst.A, 0, 25);
      dst.inputLen := inputLen;
      dst.blockCount := blockCount;
      ArrayCopy(inputBuf, 0, dst.inputBuf, 0, inputBuf.Length);
      ArrayCopy(outputBuf, 0, dst.outputBuf, 0, outputBuf.Length);
      dst.absorbed := absorbed;
      assert dst.A[..] == A[..];
      assert dst.inputBuf[..inputLen] == inputBuf[..inputLen];
      dst.SameIsValid(this);
    }

    lemma SameIsValid(e: KeccakCore)
      requires e.Valid() && Shape() && digestLen == e.digestLen
      requires inputLen == e.inputLen && blockCount == e.blockCount && absorbed == e.absorbed
      requires A[..] == e.A[..] && inputBuf[..inputLen] == e.inputBuf[..e.inputLen]
      ensures Valid()
    {
      hide Represents;
    }
  }

  lemma StoredLanes(s: State)
    ensures forall i :: 0 <= i < 25 ==> s[i] == if IsComplemented(i) then Not(Stored(s)[i]) else Stored(s)[i]
  {
    hide Not, IsComplemented, IsMidComplemented;
    NotLaws();
    forall i | 0 <= i < 25
      ensures s[i] == if IsComplemented(i) then Not(Stored(s)[i]) else Stored(s)[i]
    {
      MaskedLane(s, i);
    }
  }

  lemma StoredZero()
    ensures forall i :: 0 <= i < 25 ==> Stored(ZeroState())[i] == if IsComplemented(i) then ONES else ZERO
  {
    hide Not, IsComplemented, IsMidComplemented;
    NotConstants();
    forall i | 0 <= i < 25
      ensures Stored(ZeroState())[i] == if IsComplemented(i) then ONES else ZERO
    {
      MaskedLane(ZeroState(), i);
    }
  }
}
