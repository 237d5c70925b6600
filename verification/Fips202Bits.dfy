/** The steps of Keccak-f[1600] bit by bit, as FIPS 202 states them (section 3.2), and the bit
    strings that states stand for (section 3.1 and appendix B.1). */
module Fips202Bits {
  import opened LaneBits
  import opened Lanes
  import opened Fips202
  import opened Fips202Tables
  import opened Sponge

  // ---- the state array, sections 3.1.2 and 3.1.3 ------------------------------------

  /** A[x, y, z]. */
  predicate A(s: State, x: int, y: int, z: bv6)
    requires 0 <= x < 5 && 0 <= y < 5
  {
    Bit(s[x + 5 * y], z)
  }

  /** A state is its 1600 bits. */
  lemma StateIsItsBits(s: State, t: State)
    requires forall x, y, z :: 0 <= x < 5 && 0 <= y < 5 ==> A(s, x, y, z) == A(t, x, y, z)
    ensures s == t
  {
    hide Bit64;
    forall i | 0 <= i < 25
      ensures s[i] == t[i]
    {
      forall z: bv6
        ensures Bit64(s[i].word, z) == Bit64(t[i].word, z)
      {
        assert A(s, i % 5, i / 5, z) == A(t, i % 5, i / 5, z);
      }
      SameBits(s[i].word, t[i].word);
    }
  }

  // ---- step mappings, section 3.2 ---------------------------------------------------

  /** Whether an odd number of bits of column (x, z) is set. */
  predicate ColumnIsOdd(s: State, x: int, z: bv6)
    requires 0 <= x < 5
  {
    A(s, x, 0, z) != (A(s, x, 1, z) != (A(s, x, 2, z) != (A(s, x, 3, z) != A(s, x, 4, z))))
  }

  lemma ParityBit(s: State, x: int, z: bv6)
    requires 0 <= x < 5
    ensures Bit(Parity(s, x), z) == ColumnIsOdd(s, x, z)
  {
    hide Xor, Bit;
    var p1 := Xor(s[x], s[x + 5]);
    var p2 := Xor(p1, s[x + 10]);
    var p3 := Xor(p2, s[x + 15]);
    BitwiseLanes(s[x], s[x + 5], z);
    BitwiseLanes(p1, s[x + 10], z);
    BitwiseLanes(p2, s[x + 15], z);
    BitwiseLanes(p3, s[x + 20], z);
  }

  lemma ThetaLane(s: State, x: int, y: int)
    requires 0 <= x < 5 && 0 <= y < 5
    ensures Theta(s)[x + 5 * y] == Xor(s[x + 5 * y], Xor(Parity(s, (x + 4) % 5), Rotl(Parity(s, (x + 1) % 5), 1)))
  {
    hide Xor, Rotl, Parity;
    assert (x + 5 * y) % 5 == x;
  }

  /** Theta flips a bit for each odd one of two columns: the left neighbour's, and the right
      neighbour's one bit lower. */
  lemma ThetaBits(s: State, x: int, y: int, z: bv6)
    requires 0 <= x < 5 && 0 <= y < 5
    ensures A(Theta(s), x, y, z) <==>
            A(s, x, y, z) != (ColumnIsOdd(s, (x + 4) % 5, z) != ColumnIsOdd(s, (x + 1) % 5, z - 1))
  {
    hide Xor, Bit, Rotl, Parity, ColumnIsOdd, Higher, Theta;
    var l, r := Parity(s, (x + 4) % 5), Parity(s, (x + 1) % 5);
    ThetaLane(s, x, y);
    ParityBit(s, (x + 4) % 5, z);
    ParityBit(s, (x + 1) % 5, z - 1);
    RotlBit(r, 1, z - 1);
    OneHigher(z);
    BitwiseLanes(l, Rotl(r, 1), z);
    BitwiseLanes(s[x + 5 * y], Xor(l, Rotl(r, 1)), z);
  }

  /** Rho moves the bits of the t-th lane of the walk up by (t + 1)(t + 2) / 2, and those of lane
      (0, 0) not at all. */
  lemma RhoBits(s: State, t: nat, z: bv6)
    requires t < 24
    ensures A(Rho(s), Walk(t).0, Walk(t).1, Higher(z, ((t + 1) * (t + 2) / 2) % 64)) == A(s, Walk(t).0, Walk(t).1, z)
    ensures A(Rho(s), 0, 0, Higher(z, 0)) == A(s, 0, 0, z)
  {
    hide Bit, Rotl, Walk, RhoOffset, Higher;
    RhoOffsetsFollowTheWalk(t);
    RotlBit(s[WalkIndex(t)], RhoOffset(WalkIndex(t)), z);
    RotlBit(s[0], 0, z);
  }

  /** Pi puts at (x, y) what was at (x + 3y, x). */
  lemma PiBits(s: State, x: int, y: int, z: bv6)
    requires 0 <= x < 5 && 0 <= y < 5
    ensures A(Pi(s), x, y, z) == A(s, (x + 3 * y) % 5, x, z)
  {
    hide Bit;
    assert (x + 5 * y) % 5 == x && (x + 5 * y) / 5 == y;
  }

  lemma ChiRow(s: State, x: int, y: int)
    requires 0 <= x < 5 && 0 <= y < 5
    ensures Chi(s)[x + 5 * y] == Xor(s[x + 5 * y], And(Not(s[(x + 1) % 5 + 5 * y]), s[(x + 2) % 5 + 5 * y]))
  {
    hide Xor, And, Not, Right;
    RightOf(x, y, 1);
    RightOf(x, y, 2);
  }

  lemma RightOf(x: int, y: int, k: nat)
    requires 0 <= x < 5 && 0 <= y < 5
    ensures Right(x + 5 * y, k) == (x + k) % 5 + 5 * y
  {
    assert (x + 5 * y) % 5 == x && (x + 5 * y) / 5 == y;
  }

  /** Chi flips a bit when the next one in the row is clear and the one after it set. */
  lemma ChiBits(s: State, x: int, y: int, z: bv6)
    requires 0 <= x < 5 && 0 <= y < 5
    ensures A(Chi(s), x, y, z) <==> A(s, x, y, z) != (!A(s, (x + 1) % 5, y, z) && A(s, (x + 2) % 5, y, z))
  {
    hide Bit, Xor, And, Not, Chi;
    ChiRow(s, x, y);
    var a, b, c := s[x + 5 * y], s[(x + 1) % 5 + 5 * y], s[(x + 2) % 5 + 5 * y];
    BitwiseLanes(b, b, z);
    BitwiseLanes(Not(b), c, z);
    BitwiseLanes(a, And(Not(b), c), z);
  }

  /** Iota flips the bits of lane (0, 0) that the round constant has. */
  lemma IotaBits(s: State, rc: Lane, x: int, y: int, z: bv6)
    requires 0 <= x < 5 && 0 <= y < 5
    ensures A(Iota(s, rc), x, y, z) <==> A(s, x, y, z) != (x == 0 && y == 0 && Bit(rc, z))
  {
    hide Bit, Xor;
    BitwiseLanes(s[0], rc, z);
  }

  // ---- the permutation, sections 3.3 and 3.4 ----------------------------------------

  /** The lane length is 2 to the l. */
  const ELL := 6

  /** Section 3.3: the last nr of the 12 + 2 l rounds, from round ir on. */
  function KeccakP(s: State, ir: nat): State
    requires ir <= 12 + 2 * ELL
    decreases 12 + 2 * ELL - ir
  {
    if ir == 12 + 2 * ELL then s else KeccakP(Round(s, RC(ir)), ir + 1)
  }

  lemma {:induction false} RoundsFrom(s: State, ir: nat)
    requires ir <= 24
    ensures KeccakP(Rounds(s, ir), ir) == Rounds(s, 24)
    decreases 24 - ir
  {
    hide Round, RC;
    if ir < 24 {
      RoundsFrom(s, ir + 1);
    }
  }

  /** Section 3.4: Keccak-f[1600] is Keccak-p[1600, 24], all of the rounds 12 + 2 l. */
  lemma KeccakFIsKeccakP(s: State)
    ensures KeccakF(s) == KeccakP(s, 0)
  {
    hide Round, RC;
    RoundsFrom(s, 0);
  }

  // ---- bit strings, appendix B.1 ----------------------------------------------------

  /** Byte k of a word carries its bits from 8k on, lowest first. */
  predicate CarriesBits(w: bv64, k: nat, z: bv6)
    requires k < 8
  {
    ByteBits(Byte(Byte64(w, k))) ==
      [Bit64(w, z), Bit64(w, z + 1), Bit64(w, z + 2), Bit64(w, z + 3),
       Bit64(w, z + 4), Bit64(w, z + 5), Bit64(w, z + 6), Bit64(w, z + 7)]
  }

  lemma Byte0(w: bv64)
    ensures CarriesBits(w, 0, 0)
  {
    Shift0(w);
  }

  lemma Shift0(w: bv64)
    ensures (w & 0xFF) as bv8 & 1 != 0 <==> w & 0x0000000000000001 != 0
    ensures (w & 0xFF) as bv8 & 2 != 0 <==> w & 0x0000000000000002 != 0
    ensures (w & 0xFF) as bv8 & 4 != 0 <==> w & 0x0000000000000004 != 0
    ensures (w & 0xFF) as bv8 & 8 != 0 <==> w & 0x0000000000000008 != 0
    ensures (w & 0xFF) as bv8 & 16 != 0 <==> w & 0x0000000000000010 != 0
    ensures (w & 0xFF) as bv8 & 32 != 0 <==> w & 0x0000000000000020 != 0
    ensures (w & 0xFF) as bv8 & 64 != 0 <==> w & 0x0000000000000040 != 0
    ensures (w & 0xFF) as bv8 & 128 != 0 <==> w & 0x0000000000000080 != 0
  {
  }

  lemma Byte1(w: bv64)
    ensures CarriesBits(w, 1, 8)
  {
    Shift1(w);
  }

  lemma Shift1(w: bv64)
    ensures ((w >> 8) & 0xFF) as bv8 & 1 != 0 <==> w & 0x0000000000000100 != 0
    ensures ((w >> 8) & 0xFF) as bv8 & 2 != 0 <==> w & 0x0000000000000200 != 0
    ensures ((w >> 8) & 0xFF) as bv8 & 4 != 0 <==> w & 0x0000000000000400 != 0
    ensures ((w >> 8) & 0xFF) as bv8 & 8 != 0 <==> w & 0x0000000000000800 != 0
    ensures ((w >> 8) & 0xFF) as bv8 & 16 != 0 <==> w & 0x0000000000001000 != 0
    ensures ((w >> 8) & 0xFF) as bv8 & 32 != 0 <==> w & 0x0000000000002000 != 0
    ensures ((w >> 8) & 0xFF) as bv8 & 64 != 0 <==> w & 0x0000000000004000 != 0
    ensures ((w >> 8) & 0xFF) as bv8 & 128 != 0 <==> w & 0x0000000000008000 != 0
  {
  }

  lemma Byte2(w: bv64)
    ensures CarriesBits(w, 2, 16)
  {
    Shift2(w);
  }

  lemma Shift2(w: bv64)
    ensures ((w >> 16) & 0xFF) as bv8 & 1 != 0 <==> w & 0x0000000000010000 != 0
    ensures ((w >> 16) & 0xFF) as bv8 & 2 != 0 <==> w & 0x0000000000020000 != 0
    ensures ((w >> 16) & 0xFF) as bv8 & 4 != 0 <==> w & 0x0000000000040000 != 0
    ensures ((w >> 16) & 0xFF) as bv8 & 8 != 0 <==> w & 0x0000000000080000 != 0
    ensures ((w >> 16) & 0xFF) as bv8 & 16 != 0 <==> w & 0x0000000000100000 != 0
    ensures ((w >> 16) & 0xFF) as bv8 & 32 != 0 <==> w & 0x0000000000200000 != 0
    ensures ((w >> 16) & 0xFF) as bv8 & 64 != 0 <==> w & 0x0000000000400000 != 0
    ensures ((w >> 16) & 0xFF) as bv8 & 128 != 0 <==> w & 0x0000000000800000 != 0
  {
  }

  lemma Byte3(w: bv64)
    ensures CarriesBits(w, 3, 24)
  {
    Shift3(w);
  }

  lemma Shift3(w: bv64)
    ensures ((w >> 24) & 0xFF) as bv8 & 1 != 0 <==> w & 0x0000000001000000 != 0
    ensures ((w >> 24) & 0xFF) as bv8 & 2 != 0 <==> w & 0x0000000002000000 != 0
    ensures ((w >> 24) & 0xFF) as bv8 & 4 != 0 <==> w & 0x0000000004000000 != 0
    ensures ((w >> 24) & 0xFF) as bv8 & 8 != 0 <==> w & 0x0000000008000000 != 0
    ensures ((w >> 24) & 0xFF) as bv8 & 16 != 0 <==> w & 0x0000000010000000 != 0
    ensures ((w >> 24) & 0xFF) as bv8 & 32 != 0 <==> w & 0x0000000020000000 != 0
    ensures ((w >> 24) & 0xFF) as bv8 & 64 != 0 <==> w & 0x0000000040000000 != 0
    ensures ((w >> 24) & 0xFF) as bv8 & 128 != 0 <==> w & 0x0000000080000000 != 0
  {
  }

  lemma Byte4(w: bv64)
    ensures CarriesBits(w, 4, 32)
  {
    Shift4(w);
  }

  lemma Shift4(w: bv64)
    ensures ((w >> 32) & 0xFF) as bv8 & 1 != 0 <==> w & 0x0000000100000000 != 0
    ensures ((w >> 32) & 0xFF) as bv8 & 2 != 0 <==> w & 0x0000000200000000 != 0
    ensures ((w >> 32) & 0xFF) as bv8 & 4 != 0 <==> w & 0x0000000400000000 != 0
    ensures ((w >> 32) & 0xFF) as bv8 & 8 != 0 <==> w & 0x0000000800000000 != 0
    ensures ((w >> 32) & 0xFF) as bv8 & 16 != 0 <==> w & 0x0000001000000000 != 0
    ensures ((w >> 32) & 0xFF) as bv8 & 32 != 0 <==> w & 0x0000002000000000 != 0
    ensures ((w >> 32) & 0xFF) as bv8 & 64 != 0 <==> w & 0x0000004000000000 != 0
    ensures ((w >> 32) & 0xFF) as bv8 & 128 != 0 <==> w & 0x0000008000000000 != 0
  {
  }

  lemma Byte5(w: bv64)
    ensures CarriesBits(w, 5, 40)
  {
    Shift5(w);
  }

  lemma Shift5(w: bv64)
    ensures ((w >> 40) & 0xFF) as bv8 & 1 != 0 <==> w & 0x0000010000000000 != 0
    ensures ((w >> 40) & 0xFF) as bv8 & 2 != 0 <==> w & 0x0000020000000000 != 0
    ensures ((w >> 40) & 0xFF) as bv8 & 4 != 0 <==> w & 0x0000040000000000 != 0
    ensures ((w >> 40) & 0xFF) as bv8 & 8 != 0 <==> w & 0x0000080000000000 != 0
    ensures ((w >> 40) & 0xFF) as bv8 & 16 != 0 <==> w & 0x0000100000000000 != 0
    ensures ((w >> 40) & 0xFF) as bv8 & 32 != 0 <==> w & 0x0000200000000000 != 0
    ensures ((w >> 40) & 0xFF) as bv8 & 64 != 0 <==> w & 0x0000400000000000 != 0
    ensures ((w >> 40) & 0xFF) as bv8 & 128 != 0 <==> w & 0x0000800000000000 != 0
  {
  }

  lemma Byte6(w: bv64)
    ensures CarriesBits(w, 6, 48)
  {
    Shift6(w);
  }

  lemma Shift6(w: bv64)
    ensures ((w >> 48) & 0xFF) as bv8 & 1 != 0 <==> w & 0x0001000000000000 != 0
    ensures ((w >> 48) & 0xFF) as bv8 & 2 != 0 <==> w & 0x0002000000000000 != 0
    ensures ((w >> 48) & 0xFF) as bv8 & 4 != 0 <==> w & 0x0004000000000000 != 0
    ensures ((w >> 48) & 0xFF) as bv8 & 8 != 0 <==> w & 0x0008000000000000 != 0
    ensures ((w >> 48) & 0xFF) as bv8 & 16 != 0 <==> w & 0x0010000000000000 != 0
    ensures ((w >> 48) & 0xFF) as bv8 & 32 != 0 <==> w & 0x0020000000000000 != 0
    ensures ((w >> 48) & 0xFF) as bv8 & 64 != 0 <==> w & 0x0040000000000000 != 0
    ensures ((w >> 48) & 0xFF) as bv8 & 128 != 0 <==> w & 0x0080000000000000 != 0
  {
  }

  lemma Byte7(w: bv64)
    ensures CarriesBits(w, 7, 56)
  {
    Shift7(w);
  }

  lemma Shift7(w: bv64)
    ensures ((w >> 56) & 0xFF) as bv8 & 1 != 0 <==> w & 0x0100000000000000 != 0
    ensures ((w >> 56) & 0xFF) as bv8 & 2 != 0 <==> w & 0x0200000000000000 != 0
    ensures ((w >> 56) & 0xFF) as bv8 & 4 != 0 <==> w & 0x0400000000000000 != 0
    ensures ((w >> 56) & 0xFF) as bv8 & 8 != 0 <==> w & 0x0800000000000000 != 0
    ensures ((w >> 56) & 0xFF) as bv8 & 16 != 0 <==> w & 0x1000000000000000 != 0
    ensures ((w >> 56) & 0xFF) as bv8 & 32 != 0 <==> w & 0x2000000000000000 != 0
    ensures ((w >> 56) & 0xFF) as bv8 & 64 != 0 <==> w & 0x4000000000000000 != 0
    ensures ((w >> 56) & 0xFF) as bv8 & 128 != 0 <==> w & 0x8000000000000000 != 0
  {
  }

  /** The bytes of a state in order: the eight bytes of lane (x, y) start at 8 (x + 5y), and byte k of
      them carries the bits from 8k on. */
  lemma StateBytesBits(s: State, x: int, y: int, k: nat)
    requires 0 <= x < 5 && 0 <= y < 5 && k < 8
    ensures StateBytes(s)[8 * (x + 5 * y) + k] == Byte(Byte64(s[x + 5 * y].word, k))
    ensures CarriesBits(s[x + 5 * y].word, k, FirstBit(k))
  {
    hide Byte64, CarriesBits;
    assert (8 * (x + 5 * y) + k) / 8 == x + 5 * y && (8 * (x + 5 * y) + k) % 8 == k;
    var w := s[x + 5 * y].word;
    match k
    case 0 => Byte0(w);
    case 1 => Byte1(w);
    case 2 => Byte2(w);
    case 3 => Byte3(w);
    case 4 => Byte4(w);
    case 5 => Byte5(w);
    case 6 => Byte6(w);
    case _ => Byte7(w);
  }

  function FirstBit(k: nat): bv6
    requires k < 8
  {
    match k case 0 => 0 case 1 => 8 case 2 => 16 case 3 => 24 case 4 => 32 case 5 => 40 case 6 => 48 case _ => 56
  }
}
