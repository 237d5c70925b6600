/** The sponge construction of FIPS 202 on byte strings: lanes from bytes (appendix B.1),
    pad10*1 (section 5.1), absorbing and squeezing (section 4), Keccak[c] (section 5.2). */
module Sponge {
  import opened Lanes
  import opened Fips202
  import opened Arith

  /** A byte; like a lane, its bits are touched only where they matter. */
  datatype Byte = Byte(bits: bv8)

  type Bytes = seq<Byte>

  // ---- bytes and lanes --------------------------------------------------------------

  /** decodeLELong on eight bytes, least significant first. */
  function Decode64(b0: bv8, b1: bv8, b2: bv8, b3: bv8, b4: bv8, b5: bv8, b6: bv8, b7: bv8): bv64 {
    (b0 as bv64) | (b1 as bv64 << 8) | (b2 as bv64 << 16) | (b3 as bv64 << 24) |
    (b4 as bv64 << 32) | (b5 as bv64 << 40) | (b6 as bv64 << 48) | (b7 as bv64 << 56)
  }

  /** Byte k of the little-endian form of a word. */
  function Byte64(w: bv64, k: int): bv8
    requires 0 <= k < 8
  {
    match k
    case 0 => (w & 0xFF) as bv8
    case 1 => ((w >> 8) & 0xFF) as bv8
    case 2 => ((w >> 16) & 0xFF) as bv8
    case 3 => ((w >> 24) & 0xFF) as bv8
    case 4 => ((w >> 32) & 0xFF) as bv8
    case 5 => ((w >> 40) & 0xFF) as bv8
    case 6 => ((w >> 48) & 0xFF) as bv8
    case _ => ((w >> 56) & 0xFF) as bv8
  }

  /** Decoding and encoding a word are inverse. */
  lemma Decode64Byte64(w: bv64)
    ensures Decode64(Byte64(w, 0), Byte64(w, 1), Byte64(w, 2), Byte64(w, 3),
                     Byte64(w, 4), Byte64(w, 5), Byte64(w, 6), Byte64(w, 7)) == w
  {
  }

  lemma Byte64Decode64(b0: bv8, b1: bv8, b2: bv8, b3: bv8, b4: bv8, b5: bv8, b6: bv8, b7: bv8)
    ensures var w := Decode64(b0, b1, b2, b3, b4, b5, b6, b7);
            && Byte64(w, 0) == b0 && Byte64(w, 1) == b1 && Byte64(w, 2) == b2 && Byte64(w, 3) == b3
            && Byte64(w, 4) == b4 && Byte64(w, 5) == b5 && Byte64(w, 6) == b6 && Byte64(w, 7) == b7
  {
  }

  /** Byte k of a lane. */
  function LaneByte(l: Lane, k: int): Byte
    requires 0 <= k < 8
  {
    Byte(Byte64(l.word, k))
  }

  /** The lane spelled by the eight bytes from offset off. */
  function LaneAt(b: Bytes, off: nat): Lane
    requires off + 8 <= |b|
  {
    Lane(Decode64(b[off].bits, b[off + 1].bits, b[off + 2].bits, b[off + 3].bits,
                  b[off + 4].bits, b[off + 5].bits, b[off + 6].bits, b[off + 7].bits))
  }

  /** The 200 bytes of a state, lane after lane. */
  function StateBytes(s: State): (b: Bytes)
    ensures |b| == 200
  {
    seq(200, i requires 0 <= i < 200 => LaneByte(s[i / 8], i % 8))
  }

  /** A block of r = |b| bytes followed by the all-zero capacity part, as a state. */
  function BlockState(b: Bytes): State {
    seq(25, i requires 0 <= i < 25 => if 8 * i + 8 <= |b| then LaneAt(b, 8 * i) else ZERO)
  }

  /** The bytes of a block's state are the block and then zeros: the lane view loses nothing. */
  lemma BlockStateBytes(b: Bytes)
    requires |b| % 8 == 0 && |b| <= 200
    ensures StateBytes(BlockState(b)) == b + Zeros(200 - |b|)
  {
    hide LaneAt, LaneByte;
    forall i | 0 <= i < 200
      ensures StateBytes(BlockState(b))[i] == (b + Zeros(200 - |b|))[i]
    {
      var o, k := 8 * (i / 8), i % 8;
      assert i == o + k;
      if o < |b| {
        LaneAtByte(b, o, k);
      } else {
        ZeroLaneByte(k);
      }
    }
  }

  /** A lane spelled by eight bytes has those bytes. */
  lemma LaneAtByte(b: Bytes, off: nat, k: nat)
    requires off + 8 <= |b| && k < 8
    ensures LaneByte(LaneAt(b, off), k) == b[off + k]
  {
    hide Decode64, Byte64;
    Byte64Decode64(b[off].bits, b[off + 1].bits, b[off + 2].bits, b[off + 3].bits,
                   b[off + 4].bits, b[off + 5].bits, b[off + 6].bits, b[off + 7].bits);
  }

  lemma ZeroLaneByte(k: nat)
    requires k < 8
    ensures LaneByte(ZERO, k) == Byte(0)
  {
    hide Byte64;
    ZeroBytes();
  }

  lemma ZeroBytes()
    ensures forall k :: 0 <= k < 8 ==> Byte64(0, k) == 0
  {
  }

  // ---- padding ----------------------------------------------------------------------

  function Zeros(n: nat): (b: Bytes)
    ensures |b| == n && forall i :: 0 <= i < n ==> b[i] == Byte(0)
  {
    seq(n, _ => Byte(0))
  }

  /** The bytes doPadding appends when `free` bytes of the last block are unused. */
  function PadTail(free: nat): (b: Bytes)
    requires free > 0
    ensures |b| == free
  {
    if free == 1 then [Byte(0x81)] else [Byte(0x01)] + Zeros(free - 2) + [Byte(0x80)]
  }

  /** The bits of a byte, least significant first. */
  function ByteBits(byte: Byte): (bits: seq<bool>)
    ensures |bits| == 8
  {
    var b := byte.bits;
    [b & 1 != 0, b & 2 != 0, b & 4 != 0, b & 8 != 0, b & 16 != 0, b & 32 != 0, b & 64 != 0, b & 128 != 0]
  }

  function Bits(b: Bytes): (bits: seq<bool>)
    ensures |bits| == 8 * |b|
  {
    if b == [] then [] else Bits(b[..|b| - 1]) + ByteBits(b[|b| - 1])
  }

  function FalseBits(n: nat): (bits: seq<bool>)
    ensures |bits| == n && forall i :: 0 <= i < n ==> !bits[i]
  {
    seq(n, _ => false)
  }

  /** pad10*1 of FIPS 202 section 5.1: block length x, message length m, both in bits. */
  function Pad101(x: nat, m: int): seq<bool>
    requires x > 0
  {
    var unused := -m - 2;
    var j := unused % x;
    [true] + FalseBits(j) + [true]
  }

  lemma {:induction false} BitsConcat(a: Bytes, b: Bytes)
    ensures Bits(a + b) == Bits(a) + Bits(b)
  {
    hide ByteBits;
    if b == [] {
      assert a + b == a;
    } else {
      BitsConcat(a, b[..|b| - 1]);
      assert (a + b)[..|a + b| - 1] == a + b[..|b| - 1];
    }
  }

  lemma {:induction false} BitsOfZeros(n: nat)
    ensures Bits(Zeros(n)) == FalseBits(8 * n)
  {
    if n > 0 {
      BitsOfZeros(n - 1);
      assert Zeros(n)[..n - 1] == Zeros(n - 1);
    }
  }

  lemma PadBytesBits()
    ensures ByteBits(Byte(0x01)) == [true] + FalseBits(7)
    ensures ByteBits(Byte(0x80)) == FalseBits(7) + [true]
    ensures ByteBits(Byte(0x81)) == [true] + FalseBits(6) + [true]
  {
  }

  lemma BitsOfOne(b: Byte)
    ensures Bits([b]) == ByteBits(b)
  {
    assert [b][..0] == [];
  }

  /** The appended bytes are exactly pad10*1 on the message's bits, with no domain suffix. */
  lemma PadIsPad101(len: nat, r: nat)
    requires r > 0
    ensures Bits(PadTail(r - len % r)) == Pad101(8 * r, 8 * len)
  {
    hide ByteBits, Bits;
    var free := r - len % r;
    PadBytesBits();
    BitsOfOne(Byte(0x01));
    BitsOfOne(Byte(0x80));
    BitsOfOne(Byte(0x81));
    PadLength(len, r);
    if free > 1 {
      BitsOfZeros(free - 2);
      BitsConcat([Byte(0x01)], Zeros(free - 2));
      BitsConcat([Byte(0x01)] + Zeros(free - 2), [Byte(0x80)]);
      FalseRuns(8 * (free - 2));
    }
  }

  lemma PadLength(len: nat, r: nat)
    requires r > 0
    ensures var unused: int := -(8 * len) - 2; unused % (8 * r) == 8 * (r - len % r) - 2
  {
    var q, m := len / r, len % r;
    assert len == q * r + m;
    assert (-q - 1) * (8 * r) == -8 * (q * r) - 8 * r;
    DivModUnique(-(8 * len) - 2, -q - 1, 8 * (r - m) - 2, 8 * r);
  }

  lemma FalseRuns(n: nat)
    ensures [true] + FalseBits(7) + FalseBits(n) + (FalseBits(7) + [true]) == [true] + FalseBits(n + 14) + [true]
  {
  }

  /** A whole number of r-byte blocks. */
  predicate Aligned(n: nat, r: nat) {
    r > 0 && n % r == 0
  }

  /** The whole padded message. */
  function Padded(m: Bytes, r: nat): (p: Bytes)
    requires r > 0
    ensures Aligned(|p|, r) && |p| > 0
  {
    ModAddMultiple(0, |m| / r + 1, r);
    assert |m| == (|m| / r) * r + |m| % r;
    m + PadTail(r - |m| % r)
  }

  // ---- the sponge -------------------------------------------------------------------

  lemma BlockBefore(n: nat, r: nat)
    requires Aligned(n, r) && n > 0
    ensures n >= r && Aligned(n - r, r)
  {
    assert n == (n / r) * r;
    ModAddMultiple(n, -1, r);
  }

  function ZeroState(): State {
    seq(25, i requires 0 <= i < 25 => ZERO)
  }

  function AbsorbBlock(s: State, block: Bytes): State {
    KeccakF(XorState(s, BlockState(block)))
  }

  /** Absorbing whole blocks of r bytes, first to last. */
  function Absorb(data: Bytes, r: nat): State
    requires Aligned(|data|, r)
    decreases |data|
  {
    if data == [] then ZeroState() else
      BlockBefore(|data|, r);
      AbsorbBlock(Absorb(data[..|data| - r], r), data[|data| - r..])
  }

  /** The first d bytes squeezed at rate r. */
  function Squeeze(s: State, r: nat, d: nat): Bytes
    requires 0 < r <= 200
    decreases d
  {
    if d <= r then StateBytes(s)[..d] else StateBytes(s)[..r] + Squeeze(KeccakF(s), r, d - r)
  }

  /** Keccak with rate r and d output bytes: pad, absorb, squeeze. */
  function Keccak(m: Bytes, r: nat, d: nat): Bytes
    requires 0 < r <= 200
  {
    Squeeze(Absorb(Padded(m, r), r), r, d)
  }

  /** Section 4, on whole messages that fit one block: pad, permute the block alone, cut. */
  lemma OneBlock(m: Bytes, r: nat, d: nat)
    requires 0 < r <= 200 && |m| < r && d <= r
    ensures Keccak(m, r, d) == StateBytes(KeccakF(BlockState(m + PadTail(r - |m|))))[..d]
  {
    hide KeccakF, StateBytes, BlockState, PadTail, Padded, Absorb, Aligned, XorState, ZeroState;
    PaddedShort(m, r);
    FirstBlock(Padded(m, r), r);
  }

  lemma PaddedShort(m: Bytes, r: nat)
    requires |m| < r
    ensures Padded(m, r) == m + PadTail(r - |m|)
  {
    hide PadTail;
    DivModUnique(|m|, 0, |m|, r);
  }

  lemma FirstBlock(block: Bytes, r: nat)
    requires r > 0 && |block| == r && Aligned(|block|, r)
    ensures Absorb(block, r) == KeccakF(BlockState(block))
  {
    hide KeccakF, BlockState, XorState, ZeroState, Absorb;
    NothingAbsorbed(r);
    AbsorbChain([], block, r);
    assert [] + block == block;
    XorZeroState(BlockState(block));
  }

  lemma NothingAbsorbed(r: nat)
    requires r > 0
    ensures Aligned(0, r) && Absorb([], r) == ZeroState()
  {
  }

  lemma XorZeroState(s: State)
    ensures XorState(ZeroState(), s) == s
  {
    hide Xor;
    forall i | 0 <= i < 25
      ensures XorState(ZeroState(), s)[i] == s[i]
    {
      XorConstants(s[i]);
      XorComm(s[i], ZERO);
    }
  }

  /** Section 4: every further block is xored into the state, which is then permuted. */
  lemma AbsorbChain(data: Bytes, block: Bytes, r: nat)
    requires Aligned(|data|, r) && |block| == r
    ensures Aligned(|data + block|, r)
    ensures Absorb(data + block, r) == KeccakF(XorState(Absorb(data, r), BlockState(block)))
  {
    hide KeccakF, XorState, BlockState;
    AbsorbOneMore(data, block, r);
  }

  lemma AbsorbOneMore(data: Bytes, block: Bytes, r: nat)
    requires Aligned(|data|, r) && |block| == r
    ensures Aligned(|data + block|, r)
    ensures Absorb(data + block, r) == AbsorbBlock(Absorb(data, r), block)
  {
    ModAddMultiple(|data|, 1, r);
    assert (data + block)[..|data + block| - r] == data;
    assert (data + block)[|data + block| - r..] == block;
  }
}
