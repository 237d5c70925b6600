/** 64-bit words and the 25-lane Keccak state.  The bit-vector operators sit under named
    word functions, so that structural proofs can hide their bodies and use only laws. */
module Lanes {

  // ---- words ------------------------------------------------------------------------

  function Xor64(x: bv64, y: bv64): bv64 { x ^ y }

  function And64(x: bv64, y: bv64): bv64 { x & y }

  function Or64(x: bv64, y: bv64): bv64 { x | y }

  function Not64(x: bv64): bv64 { !x }

  /** Left rotation, written with the two shifts the source uses. */
  function Rotl64(x: bv64, n: nat): bv64
    requires n < 64
  {
    (x << n) | (x >> (64 - n))
  }

  lemma Xor64Assoc(x: bv64, y: bv64, z: bv64)
    ensures Xor64(Xor64(x, y), z) == Xor64(x, Xor64(y, z))
  {
    calc {
      Xor64(Xor64(x, y), z);
      Xor64(x ^ y, z);
      Xor64(x, y ^ z);
      Xor64(x, Xor64(y, z));
    }
  }

  lemma Xor64Comm(x: bv64, y: bv64)
    ensures Xor64(x, y) == Xor64(y, x)
  {
  }

  lemma Xor64Not(x: bv64, y: bv64)
    ensures Xor64(Not64(x), y) == Not64(Xor64(x, y))
  {
    calc {
      Xor64(Not64(x), y);
      Xor64(!x, y);
      Not64(x ^ y);
      Not64(Xor64(x, y));
    }
  }

  lemma Or64DeMorgan(x: bv64, y: bv64)
    ensures Or64(x, y) == Not64(And64(Not64(x), Not64(y)))
  {
    calc {
      Or64(x, y);
      Not64(!x & !y);
      Not64(And64(!x, !y));
      Not64(And64(Not64(x), !y));
      Not64(And64(Not64(x), Not64(y)));
    }
  }

  lemma Not64Not(x: bv64)
    ensures Not64(Not64(x)) == x
  {
    calc {
      Not64(Not64(x));
      Not64(!x);
      x;
    }
  }

  /** The rotation amounts that occur in the permutation. */
  predicate IsOffset(n: int) {
    n in {0, 1, 2, 3, 6, 8, 10, 14, 15, 18, 20, 21, 25, 27, 28, 36, 39, 41, 43, 44, 45, 55, 56, 61, 62}
  }

  lemma Rotl64Xor(x: bv64, y: bv64, n: nat)
    requires n < 64 && IsOffset(n)
    ensures Rotl64(Xor64(x, y), n) == Xor64(Rotl64(x, n), Rotl64(y, n))
  {
    match n
    case 0 => assert Rotl64(x ^ y, 0) == Xor64((x << 0) | (x >> 64), (y << 0) | (y >> 64));
    case 1 => assert Rotl64(x ^ y, 1) == Xor64((x << 1) | (x >> 63), (y << 1) | (y >> 63));
    case 2 => assert Rotl64(x ^ y, 2) == Xor64((x << 2) | (x >> 62), (y << 2) | (y >> 62));
    case 3 => assert Rotl64(x ^ y, 3) == Xor64((x << 3) | (x >> 61), (y << 3) | (y >> 61));
    case 6 => assert Rotl64(x ^ y, 6) == Xor64((x << 6) | (x >> 58), (y << 6) | (y >> 58));
    case 8 => assert Rotl64(x ^ y, 8) == Xor64((x << 8) | (x >> 56), (y << 8) | (y >> 56));
    case 10 => assert Rotl64(x ^ y, 10) == Xor64((x << 10) | (x >> 54), (y << 10) | (y >> 54));
    case 14 => assert Rotl64(x ^ y, 14) == Xor64((x << 14) | (x >> 50), (y << 14) | (y >> 50));
    case 15 => assert Rotl64(x ^ y, 15) == Xor64((x << 15) | (x >> 49), (y << 15) | (y >> 49));
    case 18 => assert Rotl64(x ^ y, 18) == Xor64((x << 18) | (x >> 46), (y << 18) | (y >> 46));
    case 20 => assert Rotl64(x ^ y, 20) == Xor64((x << 20) | (x >> 44), (y << 20) | (y >> 44));
    case 21 => assert Rotl64(x ^ y, 21) == Xor64((x << 21) | (x >> 43), (y << 21) | (y >> 43));
    case 25 => assert Rotl64(x ^ y, 25) == Xor64((x << 25) | (x >> 39), (y << 25) | (y >> 39));
    case 27 => assert Rotl64(x ^ y, 27) == Xor64((x << 27) | (x >> 37), (y << 27) | (y >> 37));
    case 28 => assert Rotl64(x ^ y, 28) == Xor64((x << 28) | (x >> 36), (y << 28) | (y >> 36));
    case 36 => assert Rotl64(x ^ y, 36) == Xor64((x << 36) | (x >> 28), (y << 36) | (y >> 28));
    case 39 => assert Rotl64(x ^ y, 39) == Xor64((x << 39) | (x >> 25), (y << 39) | (y >> 25));
    case 41 => assert Rotl64(x ^ y, 41) == Xor64((x << 41) | (x >> 23), (y << 41) | (y >> 23));
    case 43 => assert Rotl64(x ^ y, 43) == Xor64((x << 43) | (x >> 21), (y << 43) | (y >> 21));
    case 44 => assert Rotl64(x ^ y, 44) == Xor64((x << 44) | (x >> 20), (y << 44) | (y >> 20));
    case 45 => assert Rotl64(x ^ y, 45) == Xor64((x << 45) | (x >> 19), (y << 45) | (y >> 19));
    case 55 => assert Rotl64(x ^ y, 55) == Xor64((x << 55) | (x >> 9), (y << 55) | (y >> 9));
    case 56 => assert Rotl64(x ^ y, 56) == Xor64((x << 56) | (x >> 8), (y << 56) | (y >> 8));
    case 61 => assert Rotl64(x ^ y, 61) == Xor64((x << 61) | (x >> 3), (y << 61) | (y >> 3));
    case 62 => assert Rotl64(x ^ y, 62) == Xor64((x << 62) | (x >> 2), (y << 62) | (y >> 2));
    case _ =>
  }

  // ---- lanes ------------------------------------------------------------------------

  /** One 64-bit lane; the `word` is touched only by the lemmas of this module. */
  datatype Lane = Lane(word: bv64)

  const ZERO := Lane(0)
  const ONES := Lane(0xFFFF_FFFF_FFFF_FFFF)

  function Xor(x: Lane, y: Lane): Lane { Lane(Xor64(x.word, y.word)) }

  function And(x: Lane, y: Lane): Lane { Lane(And64(x.word, y.word)) }

  function Or(x: Lane, y: Lane): Lane { Lane(Or64(x.word, y.word)) }

  function Not(x: Lane): Lane { Lane(Not64(x.word)) }

  function Rotl(x: Lane, n: nat): Lane
    requires n < 64
  {
    Lane(Rotl64(x.word, n))
  }

  lemma XorAssoc(x: Lane, y: Lane, z: Lane)
    ensures Xor(Xor(x, y), z) == Xor(x, Xor(y, z))
  {
    hide Xor64;
    Xor64Assoc(x.word, y.word, z.word);
  }

  lemma XorComm(x: Lane, y: Lane)
    ensures Xor(x, y) == Xor(y, x)
  {
    hide Xor64;
    Xor64Comm(x.word, y.word);
  }

  lemma {:induction false} XorSwap(a: Lane, b: Lane, c: Lane, d: Lane)
    ensures Xor(Xor(a, b), Xor(c, d)) == Xor(Xor(a, c), Xor(b, d))
  {
    hide Xor;
    XorAssoc(a, b, Xor(c, d));
    XorAssoc(b, c, d);
    XorComm(b, c);
    XorAssoc(c, b, d);
    XorAssoc(a, c, Xor(b, d));
  }

  lemma RotlXor(x: Lane, y: Lane, n: nat)
    requires n < 64 && IsOffset(n)
    ensures Rotl(Xor(x, y), n) == Xor(Rotl(x, n), Rotl(y, n))
  {
    hide Xor64, Rotl64;
    Rotl64Xor(x.word, y.word, n);
  }

  lemma XorConstants(x: Lane)
    ensures Xor(x, ZERO) == x && Xor(x, ONES) == Not(x)
  {
    assert Xor64(x.word, 0) == x.word;
    assert Xor64(x.word, 0xFFFF_FFFF_FFFF_FFFF) == Not64(x.word);
  }

  lemma RotlConstants(n: nat)
    requires n < 64 && IsOffset(n)
    ensures Rotl(ZERO, n) == ZERO && Rotl(ONES, n) == ONES
  {
    match n
    case 0 => assert Rotl64(0, 0) == 0 && Rotl64(0xFFFF_FFFF_FFFF_FFFF, 0) == 0xFFFF_FFFF_FFFF_FFFF;
    case 1 => assert Rotl64(0, 1) == 0 && Rotl64(0xFFFF_FFFF_FFFF_FFFF, 1) == 0xFFFF_FFFF_FFFF_FFFF;
    case 2 => assert Rotl64(0, 2) == 0 && Rotl64(0xFFFF_FFFF_FFFF_FFFF, 2) == 0xFFFF_FFFF_FFFF_FFFF;
    case 3 => assert Rotl64(0, 3) == 0 && Rotl64(0xFFFF_FFFF_FFFF_FFFF, 3) == 0xFFFF_FFFF_FFFF_FFFF;
    case 6 => assert Rotl64(0, 6) == 0 && Rotl64(0xFFFF_FFFF_FFFF_FFFF, 6) == 0xFFFF_FFFF_FFFF_FFFF;
    case 8 => assert Rotl64(0, 8) == 0 && Rotl64(0xFFFF_FFFF_FFFF_FFFF, 8) == 0xFFFF_FFFF_FFFF_FFFF;
    case 10 => assert Rotl64(0, 10) == 0 && Rotl64(0xFFFF_FFFF_FFFF_FFFF, 10) == 0xFFFF_FFFF_FFFF_FFFF;
    case 14 => assert Rotl64(0, 14) == 0 && Rotl64(0xFFFF_FFFF_FFFF_FFFF, 14) == 0xFFFF_FFFF_FFFF_FFFF;
    case 15 => assert Rotl64(0, 15) == 0 && Rotl64(0xFFFF_FFFF_FFFF_FFFF, 15) == 0xFFFF_FFFF_FFFF_FFFF;
    case 18 => assert Rotl64(0, 18) == 0 && Rotl64(0xFFFF_FFFF_FFFF_FFFF, 18) == 0xFFFF_FFFF_FFFF_FFFF;
    case 20 => assert Rotl64(0, 20) == 0 && Rotl64(0xFFFF_FFFF_FFFF_FFFF, 20) == 0xFFFF_FFFF_FFFF_FFFF;
    case 21 => assert Rotl64(0, 21) == 0 && Rotl64(0xFFFF_FFFF_FFFF_FFFF, 21) == 0xFFFF_FFFF_FFFF_FFFF;
    case 25 => assert Rotl64(0, 25) == 0 && Rotl64(0xFFFF_FFFF_FFFF_FFFF, 25) == 0xFFFF_FFFF_FFFF_FFFF;
    case 27 => assert Rotl64(0, 27) == 0 && Rotl64(0xFFFF_FFFF_FFFF_FFFF, 27) == 0xFFFF_FFFF_FFFF_FFFF;
    case 28 => assert Rotl64(0, 28) == 0 && Rotl64(0xFFFF_FFFF_FFFF_FFFF, 28) == 0xFFFF_FFFF_FFFF_FFFF;
    case 36 => assert Rotl64(0, 36) == 0 && Rotl64(0xFFFF_FFFF_FFFF_FFFF, 36) == 0xFFFF_FFFF_FFFF_FFFF;
    case 39 => assert Rotl64(0, 39) == 0 && Rotl64(0xFFFF_FFFF_FFFF_FFFF, 39) == 0xFFFF_FFFF_FFFF_FFFF;
    case 41 => assert Rotl64(0, 41) == 0 && Rotl64(0xFFFF_FFFF_FFFF_FFFF, 41) == 0xFFFF_FFFF_FFFF_FFFF;
    case 43 => assert Rotl64(0, 43) == 0 && Rotl64(0xFFFF_FFFF_FFFF_FFFF, 43) == 0xFFFF_FFFF_FFFF_FFFF;
    case 44 => assert Rotl64(0, 44) == 0 && Rotl64(0xFFFF_FFFF_FFFF_FFFF, 44) == 0xFFFF_FFFF_FFFF_FFFF;
    case 45 => assert Rotl64(0, 45) == 0 && Rotl64(0xFFFF_FFFF_FFFF_FFFF, 45) == 0xFFFF_FFFF_FFFF_FFFF;
    case 55 => assert Rotl64(0, 55) == 0 && Rotl64(0xFFFF_FFFF_FFFF_FFFF, 55) == 0xFFFF_FFFF_FFFF_FFFF;
    case 56 => assert Rotl64(0, 56) == 0 && Rotl64(0xFFFF_FFFF_FFFF_FFFF, 56) == 0xFFFF_FFFF_FFFF_FFFF;
    case 61 => assert Rotl64(0, 61) == 0 && Rotl64(0xFFFF_FFFF_FFFF_FFFF, 61) == 0xFFFF_FFFF_FFFF_FFFF;
    case 62 => assert Rotl64(0, 62) == 0 && Rotl64(0xFFFF_FFFF_FFFF_FFFF, 62) == 0xFFFF_FFFF_FFFF_FFFF;
    case _ =>
  }

  /** How complementation moves through the other operators. */
  lemma NotLaws()
    ensures forall x :: Not(Not(x)) == x
    ensures forall x, y :: Xor(Not(x), y) == Not(Xor(x, y))
    ensures forall x, y :: Xor(x, Not(y)) == Not(Xor(x, y))
    ensures forall x, y :: Or(x, y) == Not(And(Not(x), Not(y)))
  {
    hide Xor64, And64, Or64, Not64;
    forall x: Lane ensures Not(Not(x)) == x {
      Not64Not(x.word);
    }
    forall x: Lane, y: Lane
      ensures Xor(Not(x), y) == Not(Xor(x, y))
      ensures Xor(x, Not(y)) == Not(Xor(x, y))
      ensures Or(x, y) == Not(And(Not(x), Not(y)))
    {
      Xor64Not(x.word, y.word);
      Xor64Not(y.word, x.word);
      Xor64Comm(x.word, y.word);
      Xor64Comm(x.word, Not64(y.word));
      Or64DeMorgan(x.word, y.word);
    }
  }

  // ---- states -----------------------------------------------------------------------

  /** The 25 lanes of the state; lane (x, y) has index x + 5y. */
  type State = s: seq<Lane> | |s| == 25 witness seq(25, _ => ZERO)

  function XorState(s: State, t: State): State {
    seq(25, i requires 0 <= i < 25 => Xor(s[i], t[i]))
  }

  /** Extensionality with the 25 indices spelled out. */
  lemma EqualLanes<T>(s: seq<T>, t: seq<T>)
    requires |s| == |t| == 25
    requires s[0] == t[0] && s[1] == t[1] && s[2] == t[2] && s[3] == t[3] && s[4] == t[4]
    requires s[5] == t[5] && s[6] == t[6] && s[7] == t[7] && s[8] == t[8] && s[9] == t[9]
    requires s[10] == t[10] && s[11] == t[11] && s[12] == t[12] && s[13] == t[13] && s[14] == t[14]
    requires s[15] == t[15] && s[16] == t[16] && s[17] == t[17] && s[18] == t[18] && s[19] == t[19]
    requires s[20] == t[20] && s[21] == t[21] && s[22] == t[22] && s[23] == t[23] && s[24] == t[24]
    ensures s == t
  {
  }
}
