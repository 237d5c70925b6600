/** Words and lanes bit by bit: what the word functions mean.  A bit index z has type bv6, so that
    sums of indices wrap at the lane length. */
module LaneBits {
  import opened Lanes

  // ---- the bits of a word -----------------------------------------------------------

  /** The word with bit z alone. */
  function Hot(z: bv6): bv64 {
    1 << z
  }

  /** Bit z of the word, bit 0 being the lowest. */
  predicate Bit64(x: bv64, z: bv6) {
    And64(x, Hot(z)) != 0
  }

  lemma OneHot(x: bv64, z: bv6)
    ensures And64(x, Hot(z)) == 0 || And64(x, Hot(z)) == Hot(z)
  {
  }

  lemma HotNonZero(z: bv6)
    ensures Hot(z) != 0
  {
  }

  lemma XorAnd(x: bv64, y: bv64, m: bv64)
    ensures (x ^ y) & m == (x & m) ^ (y & m)
  {
  }

  lemma OrAnd(x: bv64, y: bv64, m: bv64)
    ensures (x | y) & m == (x & m) | (y & m)
  {
  }

  lemma AndAnd(x: bv64, y: bv64, m: bv64)
    ensures (x & y) & m == (x & m) & (y & m)
  {
  }

  lemma XorIs(x: bv64, y: bv64)
    ensures Xor64(x, y) == x ^ y
  {
  }

  lemma AndIs(x: bv64, y: bv64)
    ensures And64(x, y) == x & y
  {
  }

  lemma OrIs(x: bv64, y: bv64)
    ensures Or64(x, y) == x | y
  {
  }

  lemma NotIsXor(x: bv64)
    ensures Not64(x) == Xor64(x, 0xFFFF_FFFF_FFFF_FFFF)
  {
  }

  lemma AllBits(m: bv64)
    ensures And64(0xFFFF_FFFF_FFFF_FFFF, m) == m
  {
  }

  lemma MaskXor(x: bv64, y: bv64, m: bv64)
    ensures And64(Xor64(x, y), m) == Xor64(And64(x, m), And64(y, m))
  {
    hide *;
    XorIs(x, y);
    AndIs(x ^ y, m);
    AndIs(x, m);
    AndIs(y, m);
    XorIs(x & m, y & m);
    XorAnd(x, y, m);
  }

  lemma MaskAnd(x: bv64, y: bv64, m: bv64)
    ensures And64(And64(x, y), m) == And64(And64(x, m), And64(y, m))
  {
    hide *;
    AndIs(x, y);
    AndIs(x & y, m);
    AndIs(x, m);
    AndIs(y, m);
    AndIs(x & m, y & m);
    AndAnd(x, y, m);
  }

  lemma MaskOr(x: bv64, y: bv64, m: bv64)
    ensures And64(Or64(x, y), m) == Or64(And64(x, m), And64(y, m))
  {
    hide *;
    OrIs(x, y);
    AndIs(x | y, m);
    AndIs(x, m);
    AndIs(y, m);
    OrIs(x & m, y & m);
    OrAnd(x, y, m);
  }

  lemma ZeroOrMask(m: bv64)
    ensures Xor64(0, 0) == 0 && Xor64(0, m) == m && Xor64(m, 0) == m && Xor64(m, m) == 0
    ensures And64(0, 0) == 0 && And64(0, m) == 0 && And64(m, 0) == 0 && And64(m, m) == m
    ensures Or64(0, 0) == 0 && Or64(0, m) == m && Or64(m, 0) == m && Or64(m, m) == m
  {
  }

  /** The word functions work on each bit by itself. */
  lemma Xor64Bit(x: bv64, y: bv64, z: bv6)
    ensures Bit64(Xor64(x, y), z) <==> Bit64(x, z) != Bit64(y, z)
  {
    hide Hot, Xor64, And64;
    HotNonZero(z);
    OneHot(x, z);
    OneHot(y, z);
    MaskXor(x, y, Hot(z));
    ZeroOrMask(Hot(z));
  }

  lemma And64Bit(x: bv64, y: bv64, z: bv6)
    ensures Bit64(And64(x, y), z) <==> Bit64(x, z) && Bit64(y, z)
  {
    hide Hot, And64;
    HotNonZero(z);
    OneHot(x, z);
    OneHot(y, z);
    MaskAnd(x, y, Hot(z));
    ZeroOrMask(Hot(z));
  }

  lemma Or64Bit(x: bv64, y: bv64, z: bv6)
    ensures Bit64(Or64(x, y), z) <==> Bit64(x, z) || Bit64(y, z)
  {
    hide Hot, Or64, And64;
    HotNonZero(z);
    OneHot(x, z);
    OneHot(y, z);
    MaskOr(x, y, Hot(z));
    ZeroOrMask(Hot(z));
  }

  lemma Not64Bit(x: bv64, z: bv6)
    ensures Bit64(Not64(x), z) <==> !Bit64(x, z)
  {
    hide Hot, Not64, And64, Xor64;
    NotIsXor(x);
    Xor64Bit(x, 0xFFFF_FFFF_FFFF_FFFF, z);
    AllBits(Hot(z));
    HotNonZero(z);
  }

  // ---- rotation ---------------------------------------------------------------------

  /** The bit index n places up, around the end of the word. */
  function Higher(z: bv6, n: nat): bv6
    requires n < 64
  {
    z + (n as bv6)
  }

  /** What rotation by n does to masks and to single bits; one lemma for each offset that occurs. */
  lemma RotlBy0(x: bv64, m: bv64, z: bv6)
    ensures Rotl64(And64(x, m), 0) == And64(Rotl64(x, 0), Rotl64(m, 0))
    ensures Rotl64(Hot(z), 0) == Hot(Higher(z, 0))
  {
    assert Rotl64(x & m, 0) == And64((x << 0) | (x >> 64), (m << 0) | (m >> 64));
    assert Rotl64(1 << z, 0) == ((1 << z) << 0) | ((1 << z) >> 64);
  }

  lemma RotlBy1(x: bv64, m: bv64, z: bv6)
    ensures Rotl64(And64(x, m), 1) == And64(Rotl64(x, 1), Rotl64(m, 1))
    ensures Rotl64(Hot(z), 1) == Hot(Higher(z, 1))
  {
    assert Rotl64(x & m, 1) == And64((x << 1) | (x >> 63), (m << 1) | (m >> 63));
    assert Rotl64(1 << z, 1) == ((1 << z) << 1) | ((1 << z) >> 63);
  }

  lemma RotlBy2(x: bv64, m: bv64, z: bv6)
    ensures Rotl64(And64(x, m), 2) == And64(Rotl64(x, 2), Rotl64(m, 2))
    ensures Rotl64(Hot(z), 2) == Hot(Higher(z, 2))
  {
    assert Rotl64(x & m, 2) == And64((x << 2) | (x >> 62), (m << 2) | (m >> 62));
    assert Rotl64(1 << z, 2) == ((1 << z) << 2) | ((1 << z) >> 62);
  }

  lemma RotlBy3(x: bv64, m: bv64, z: bv6)
    ensures Rotl64(And64(x, m), 3) == And64(Rotl64(x, 3), Rotl64(m, 3))
    ensures Rotl64(Hot(z), 3) == Hot(Higher(z, 3))
  {
    assert Rotl64(x & m, 3) == And64((x << 3) | (x >> 61), (m << 3) | (m >> 61));
    assert Rotl64(1 << z, 3) == ((1 << z) << 3) | ((1 << z) >> 61);
  }

  lemma RotlBy6(x: bv64, m: bv64, z: bv6)
    ensures Rotl64(And64(x, m), 6) == And64(Rotl64(x, 6), Rotl64(m, 6))
    ensures Rotl64(Hot(z), 6) == Hot(Higher(z, 6))
  {
    assert Rotl64(x & m, 6) == And64((x << 6) | (x >> 58), (m << 6) | (m >> 58));
    assert Rotl64(1 << z, 6) == ((1 << z) << 6) | ((1 << z) >> 58);
  }

  lemma RotlBy8(x: bv64, m: bv64, z: bv6)
    ensures Rotl64(And64(x, m), 8) == And64(Rotl64(x, 8), Rotl64(m, 8))
    ensures Rotl64(Hot(z), 8) == Hot(Higher(z, 8))
  {
    assert Rotl64(x & m, 8) == And64((x << 8) | (x >> 56), (m << 8) | (m >> 56));
    assert Rotl64(1 << z, 8) == ((1 << z) << 8) | ((1 << z) >> 56);
  }

  lemma RotlBy10(x: bv64, m: bv64, z: bv6)
    ensures Rotl64(And64(x, m), 10) == And64(Rotl64(x, 10), Rotl64(m, 10))
    ensures Rotl64(Hot(z), 10) == Hot(Higher(z, 10))
  {
    assert Rotl64(x & m, 10) == And64((x << 10) | (x >> 54), (m << 10) | (m >> 54));
    assert Rotl64(1 << z, 10) == ((1 << z) << 10) | ((1 << z) >> 54);
  }

  lemma RotlBy14(x: bv64, m: bv64, z: bv6)
    ensures Rotl64(And64(x, m), 14) == And64(Rotl64(x, 14), Rotl64(m, 14))
    ensures Rotl64(Hot(z), 14) == Hot(Higher(z, 14))
  {
    assert Rotl64(x & m, 14) == And64((x << 14) | (x >> 50), (m << 14) | (m >> 50));
    assert Rotl64(1 << z, 14) == ((1 << z) << 14) | ((1 << z) >> 50);
  }

  lemma RotlBy15(x: bv64, m: bv64, z: bv6)
    ensures Rotl64(And64(x, m), 15) == And64(Rotl64(x, 15), Rotl64(m, 15))
    ensures Rotl64(Hot(z), 15) == Hot(Higher(z, 15))
  {
    assert Rotl64(x & m, 15) == And64((x << 15) | (x >> 49), (m << 15) | (m >> 49));
    assert Rotl64(1 << z, 15) == ((1 << z) << 15) | ((1 << z) >> 49);
  }

  lemma RotlBy18(x: bv64, m: bv64, z: bv6)
    ensures Rotl64(And64(x, m), 18) == And64(Rotl64(x, 18), Rotl64(m, 18))
    ensures Rotl64(Hot(z), 18) == Hot(Higher(z, 18))
  {
    assert Rotl64(x & m, 18) == And64((x << 18) | (x >> 46), (m << 18) | (m >> 46));
    assert Rotl64(1 << z, 18) == ((1 << z) << 18) | ((1 << z) >> 46);
  }

  lemma RotlBy20(x: bv64, m: bv64, z: bv6)
    ensures Rotl64(And64(x, m), 20) == And64(Rotl64(x, 20), Rotl64(m, 20))
    ensures Rotl64(Hot(z), 20) == Hot(Higher(z, 20))
  {
    assert Rotl64(x & m, 20) == And64((x << 20) | (x >> 44), (m << 20) | (m >> 44));
    assert Rotl64(1 << z, 20) == ((1 << z) << 20) | ((1 << z) >> 44);
  }

  lemma RotlBy21(x: bv64, m: bv64, z: bv6)
    ensures Rotl64(And64(x, m), 21) == And64(Rotl64(x, 21), Rotl64(m, 21))
    ensures Rotl64(Hot(z), 21) == Hot(Higher(z, 21))
  {
    assert Rotl64(x & m, 21) == And64((x << 21) | (x >> 43), (m << 21) | (m >> 43));
    assert Rotl64(1 << z, 21) == ((1 << z) << 21) | ((1 << z) >> 43);
  }

  lemma RotlBy25(x: bv64, m: bv64, z: bv6)
    ensures Rotl64(And64(x, m), 25) == And64(Rotl64(x, 25), Rotl64(m, 25))
    ensures Rotl64(Hot(z), 25) == Hot(Higher(z, 25))
  {
    assert Rotl64(x & m, 25) == And64((x << 25) | (x >> 39), (m << 25) | (m >> 39));
    assert Rotl64(1 << z, 25) == ((1 << z) << 25) | ((1 << z) >> 39);
  }

  lemma RotlBy27(x: bv64, m: bv64, z: bv6)
    ensures Rotl64(And64(x, m), 27) == And64(Rotl64(x, 27), Rotl64(m, 27))
    ensures Rotl64(Hot(z), 27) == Hot(Higher(z, 27))
  {
    assert Rotl64(x & m, 27) == And64((x << 27) | (x >> 37), (m << 27) | (m >> 37));
    assert Rotl64(1 << z, 27) == ((1 << z) << 27) | ((1 << z) >> 37);
  }

  lemma RotlBy28(x: bv64, m: bv64, z: bv6)
    ensures Rotl64(And64(x, m), 28) == And64(Rotl64(x, 28), Rotl64(m, 28))
    ensures Rotl64(Hot(z), 28) == Hot(Higher(z, 28))
  {
    assert Rotl64(x & m, 28) == And64((x << 28) | (x >> 36), (m << 28) | (m >> 36));
    assert Rotl64(1 << z, 28) == ((1 << z) << 28) | ((1 << z) >> 36);
  }

  lemma RotlBy36(x: bv64, m: bv64, z: bv6)
    ensures Rotl64(And64(x, m), 36) == And64(Rotl64(x, 36), Rotl64(m, 36))
    ensures Rotl64(Hot(z), 36) == Hot(Higher(z, 36))
  {
    assert Rotl64(x & m, 36) == And64((x << 36) | (x >> 28), (m << 36) | (m >> 28));
    assert Rotl64(1 << z, 36) == ((1 << z) << 36) | ((1 << z) >> 28);
  }

  lemma RotlBy39(x: bv64, m: bv64, z: bv6)
    ensures Rotl64(And64(x, m), 39) == And64(Rotl64(x, 39), Rotl64(m, 39))
    ensures Rotl64(Hot(z), 39) == Hot(Higher(z, 39))
  {
    assert Rotl64(x & m, 39) == And64((x << 39) | (x >> 25), (m << 39) | (m >> 25));
    assert Rotl64(1 << z, 39) == ((1 << z) << 39) | ((1 << z) >> 25);
  }

  lemma RotlBy41(x: bv64, m: bv64, z: bv6)
    ensures Rotl64(And64(x, m), 41) == And64(Rotl64(x, 41), Rotl64(m, 41))
    ensures Rotl64(Hot(z), 41) == Hot(Higher(z, 41))
  {
    assert Rotl64(x & m, 41) == And64((x << 41) | (x >> 23), (m << 41) | (m >> 23));
    assert Rotl64(1 << z, 41) == ((1 << z) << 41) | ((1 << z) >> 23);
  }

  lemma RotlBy43(x: bv64, m: bv64, z: bv6)
    ensures Rotl64(And64(x, m), 43) == And64(Rotl64(x, 43), Rotl64(m, 43))
    ensures Rotl64(Hot(z), 43) == Hot(Higher(z, 43))
  {
    assert Rotl64(x & m, 43) == And64((x << 43) | (x >> 21), (m << 43) | (m >> 21));
    assert Rotl64(1 << z, 43) == ((1 << z) << 43) | ((1 << z) >> 21);
  }

  lemma RotlBy44(x: bv64, m: bv64, z: bv6)
    ensures Rotl64(And64(x, m), 44) == And64(Rotl64(x, 44), Rotl64(m, 44))
    ensures Rotl64(Hot(z), 44) == Hot(Higher(z, 44))
  {
    assert Rotl64(x & m, 44) == And64((x << 44) | (x >> 20), (m << 44) | (m >> 20));
    assert Rotl64(1 << z, 44) == ((1 << z) << 44) | ((1 << z) >> 20);
  }

  lemma RotlBy45(x: bv64, m: bv64, z: bv6)
    ensures Rotl64(And64(x, m), 45) == And64(Rotl64(x, 45), Rotl64(m, 45))
    ensures Rotl64(Hot(z), 45) == Hot(Higher(z, 45))
  {
    assert Rotl64(x & m, 45) == And64((x << 45) | (x >> 19), (m << 45) | (m >> 19));
    assert Rotl64(1 << z, 45) == ((1 << z) << 45) | ((1 << z) >> 19);
  }

  lemma RotlBy55(x: bv64, m: bv64, z: bv6)
    ensures Rotl64(And64(x, m), 55) == And64(Rotl64(x, 55), Rotl64(m, 55))
    ensures Rotl64(Hot(z), 55) == Hot(Higher(z, 55))
  {
    assert Rotl64(x & m, 55) == And64((x << 55) | (x >> 9), (m << 55) | (m >> 9));
    assert Rotl64(1 << z, 55) == ((1 << z) << 55) | ((1 << z) >> 9);
  }

  lemma RotlBy56(x: bv64, m: bv64, z: bv6)
    ensures Rotl64(And64(x, m), 56) == And64(Rotl64(x, 56), Rotl64(m, 56))
    ensures Rotl64(Hot(z), 56) == Hot(Higher(z, 56))
  {
    assert Rotl64(x & m, 56) == And64((x << 56) | (x >> 8), (m << 56) | (m >> 8));
    assert Rotl64(1 << z, 56) == ((1 << z) << 56) | ((1 << z) >> 8);
  }

  lemma RotlBy61(x: bv64, m: bv64, z: bv6)
    ensures Rotl64(And64(x, m), 61) == And64(Rotl64(x, 61), Rotl64(m, 61))
    ensures Rotl64(Hot(z), 61) == Hot(Higher(z, 61))
  {
    assert Rotl64(x & m, 61) == And64((x << 61) | (x >> 3), (m << 61) | (m >> 3));
    assert Rotl64(1 << z, 61) == ((1 << z) << 61) | ((1 << z) >> 3);
  }

  lemma RotlBy62(x: bv64, m: bv64, z: bv6)
    ensures Rotl64(And64(x, m), 62) == And64(Rotl64(x, 62), Rotl64(m, 62))
    ensures Rotl64(Hot(z), 62) == Hot(Higher(z, 62))
  {
    assert Rotl64(x & m, 62) == And64((x << 62) | (x >> 2), (m << 62) | (m >> 2));
    assert Rotl64(1 << z, 62) == ((1 << z) << 62) | ((1 << z) >> 2);
  }

  lemma RotlZero(x: bv64, n: nat)
    requires n < 64 && IsOffset(n)
    ensures Rotl64(x, n) == 0 <==> x == 0
  {
    match n
    case 0 => assert (x << 0) | (x >> 64) == 0 <==> x == 0;
    case 1 => assert (x << 1) | (x >> 63) == 0 <==> x == 0;
    case 2 => assert (x << 2) | (x >> 62) == 0 <==> x == 0;
    case 3 => assert (x << 3) | (x >> 61) == 0 <==> x == 0;
    case 6 => assert (x << 6) | (x >> 58) == 0 <==> x == 0;
    case 8 => assert (x << 8) | (x >> 56) == 0 <==> x == 0;
    case 10 => assert (x << 10) | (x >> 54) == 0 <==> x == 0;
    case 14 => assert (x << 14) | (x >> 50) == 0 <==> x == 0;
    case 15 => assert (x << 15) | (x >> 49) == 0 <==> x == 0;
    case 18 => assert (x << 18) | (x >> 46) == 0 <==> x == 0;
    case 20 => assert (x << 20) | (x >> 44) == 0 <==> x == 0;
    case 21 => assert (x << 21) | (x >> 43) == 0 <==> x == 0;
    case 25 => assert (x << 25) | (x >> 39) == 0 <==> x == 0;
    case 27 => assert (x << 27) | (x >> 37) == 0 <==> x == 0;
    case 28 => assert (x << 28) | (x >> 36) == 0 <==> x == 0;
    case 36 => assert (x << 36) | (x >> 28) == 0 <==> x == 0;
    case 39 => assert (x << 39) | (x >> 25) == 0 <==> x == 0;
    case 41 => assert (x << 41) | (x >> 23) == 0 <==> x == 0;
    case 43 => assert (x << 43) | (x >> 21) == 0 <==> x == 0;
    case 44 => assert (x << 44) | (x >> 20) == 0 <==> x == 0;
    case 45 => assert (x << 45) | (x >> 19) == 0 <==> x == 0;
    case 55 => assert (x << 55) | (x >> 9) == 0 <==> x == 0;
    case 56 => assert (x << 56) | (x >> 8) == 0 <==> x == 0;
    case 61 => assert (x << 61) | (x >> 3) == 0 <==> x == 0;
    case 62 => assert (x << 62) | (x >> 2) == 0 <==> x == 0;
    case _ =>
  }

  lemma RotlMask(x: bv64, m: bv64, z: bv6, n: nat)
    requires n < 64 && IsOffset(n)
    ensures Rotl64(And64(x, m), n) == And64(Rotl64(x, n), Rotl64(m, n)) && Rotl64(Hot(z), n) == Hot(Higher(z, n))
  {
    hide Hot, Rotl64, And64, Higher;
    match n
    case 0 => RotlBy0(x, m, z);
    case 1 => RotlBy1(x, m, z);
    case 2 => RotlBy2(x, m, z);
    case 3 => RotlBy3(x, m, z);
    case 6 => RotlBy6(x, m, z);
    case 8 => RotlBy8(x, m, z);
    case 10 => RotlBy10(x, m, z);
    case 14 => RotlBy14(x, m, z);
    case 15 => RotlBy15(x, m, z);
    case 18 => RotlBy18(x, m, z);
    case 20 => RotlBy20(x, m, z);
    case 21 => RotlBy21(x, m, z);
    case 25 => RotlBy25(x, m, z);
    case 27 => RotlBy27(x, m, z);
    case 28 => RotlBy28(x, m, z);
    case 36 => RotlBy36(x, m, z);
    case 39 => RotlBy39(x, m, z);
    case 41 => RotlBy41(x, m, z);
    case 43 => RotlBy43(x, m, z);
    case 44 => RotlBy44(x, m, z);
    case 45 => RotlBy45(x, m, z);
    case 55 => RotlBy55(x, m, z);
    case 56 => RotlBy56(x, m, z);
    case 61 => RotlBy61(x, m, z);
    case 62 => RotlBy62(x, m, z);
    case _ =>
  }

  /** Rotation moves every bit up by the offset, around the end of the word. */
  lemma Rotl64Bit(x: bv64, n: nat, z: bv6)
    requires n < 64 && IsOffset(n)
    ensures Bit64(Rotl64(x, n), Higher(z, n)) == Bit64(x, z)
  {
    hide Hot, Rotl64, And64, Higher, IsOffset;
    RotlMask(x, Hot(z), z, n);
    RotlZero(And64(x, Hot(z)), n);
  }

  /** Words with the same bits are the same. */
  lemma SameBits(x: bv64, y: bv64)
    requires forall z: bv6 :: Bit64(x, z) == Bit64(y, z)
    ensures x == y
  {
    hide Bit64, Xor64;
    XorZero(x, y);
    if Xor64(x, y) != 0 {
      var z := LowestBit(Xor64(x, y));
      Xor64Bit(x, y, z);
      assert false;
    }
  }

  lemma XorZero(x: bv64, y: bv64)
    ensures Xor64(x, y) == 0 <==> x == y
  {
    hide *;
    XorIs(x, y);
    XorIsZero(x, y);
  }

  lemma XorIsZero(x: bv64, y: bv64)
    ensures x ^ y == 0 <==> x == y
  {
  }

  function LowestBit(d: bv64): (z: bv6)
    requires d != 0
    ensures Bit64(d, z)
  {
    var z5: bv6 := if d & 0xFFFF_FFFF == 0 then 32 else 0;
    var d5 := d >> z5;
    var z4: bv6 := if d5 & 0xFFFF == 0 then 16 else 0;
    var d4 := d5 >> z4;
    var z3: bv6 := if d4 & 0xFF == 0 then 8 else 0;
    var d3 := d4 >> z3;
    var z2: bv6 := if d3 & 0xF == 0 then 4 else 0;
    var d2 := d3 >> z2;
    var z1: bv6 := if d2 & 0x3 == 0 then 2 else 0;
    var d1 := d2 >> z1;
    z5 + z4 + z3 + z2 + z1 + if d1 & 1 == 0 then 1 else 0
  }

  // ---- the bits of a lane -----------------------------------------------------------

  predicate Bit(l: Lane, z: bv6) {
    Bit64(l.word, z)
  }

  lemma BitwiseLanes(x: Lane, y: Lane, z: bv6)
    ensures Bit(Xor(x, y), z) <==> Bit(x, z) != Bit(y, z)
    ensures Bit(And(x, y), z) <==> Bit(x, z) && Bit(y, z)
    ensures Bit(Or(x, y), z) <==> Bit(x, z) || Bit(y, z)
    ensures Bit(Not(x), z) <==> !Bit(x, z)
  {
    hide Bit64, Xor64, And64, Or64, Not64;
    Xor64Bit(x.word, y.word, z);
    And64Bit(x.word, y.word, z);
    Or64Bit(x.word, y.word, z);
    Not64Bit(x.word, z);
  }

  lemma RotlBit(x: Lane, n: nat, z: bv6)
    requires n < 64 && IsOffset(n)
    ensures Bit(Rotl(x, n), Higher(z, n)) == Bit(x, z)
  {
    hide Bit64, Rotl64, IsOffset, Higher;
    Rotl64Bit(x.word, n, z);
  }

  lemma OneHigher(z: bv6)
    ensures Higher(z - 1, 1) == z
  {
  }
}
