/** The unrolled, in-place permutation of KeccakCore.processBlock, statement by statement.
    After its first half the logical lane i of the state sits in array slot PiIndex(i);
    after the second half in slot PiIndex(PiIndex(i)), until the two cycles move it home. */
module KeccakPermutation {
  import opened Lanes
  import opened Fips202
  import opened Complement

  /** The temporaries tt0 .. tt3 of one theta word: lanes a..e are the column to the right
      (rotated), lanes f..j the column to the left, xored in the source's order. */
  function ThetaWord(a: Lane, b: Lane, c: Lane, d: Lane, e: Lane,
                     f: Lane, g: Lane, h: Lane, i: Lane, j: Lane): Lane
  {
    var tt0 := Rotl(Xor(Xor(a, b), Xor(e, Xor(c, d))), 1);
    var tt2 := Xor(Xor(f, g), Xor(h, i));
    Xor(Xor(tt0, j), tt2)
  }

  lemma ThetaWordIsEffect(a: Lane, b: Lane, c: Lane, d: Lane, e: Lane,
                          f: Lane, g: Lane, h: Lane, i: Lane, j: Lane)
    ensures ThetaWord(a, b, c, d, e, f, g, h, i, j) ==
            Xor(Xor(Xor(Xor(Xor(f, g), h), i), j), Rotl(Xor(Xor(Xor(Xor(a, b), c), d), e), 1))
  {
    hide Xor, Rotl;
    var tt2 := Xor(Xor(f, g), Xor(h, i));
    XorComm(e, Xor(c, d));
    XorAssoc(Xor(a, b), Xor(c, d), e);
    XorAssoc(Xor(a, b), c, d);
    var r := Rotl(Xor(Xor(Xor(Xor(a, b), c), d), e), 1);
    XorAssoc(r, j, tt2);
    XorComm(r, Xor(j, tt2));
    XorComm(j, tt2);
    XorAssoc(Xor(f, g), h, i);
  }

  /** Five theta updates with the same word. */
  method XorLanes(A: array<Lane>, a: nat, b: nat, c: nat, d: nat, e: nat, t: Lane)
    requires A.Length == 25 && a < 25 && b < 25 && c < 25 && d < 25 && e < 25
    requires a != b && a != c && a != d && a != e && b != c && b != d && b != e && c != d && c != e && d != e
    modifies A
    ensures A[a] == Xor(old(A[a]), t) && A[b] == Xor(old(A[b]), t) && A[c] == Xor(old(A[c]), t)
    ensures A[d] == Xor(old(A[d]), t) && A[e] == Xor(old(A[e]), t)
    ensures forall i :: 0 <= i < 25 && i != a && i != b && i != c && i != d && i != e ==> A[i] == old(A[i])
  {
    hide Xor;
    A[a] := Xor(A[a], t);
    A[b] := Xor(A[b], t);
    A[c] := Xor(A[c], t);
    A[d] := Xor(A[d], t);
    A[e] := Xor(A[e], t);
  }

  /** Four rotations in a row. */
  method RotateFour(A: array<Lane>, a: nat, na: nat, b: nat, nb: nat, c: nat, nc: nat, d: nat, nd: nat)
    requires A.Length == 25 && a < 25 && b < 25 && c < 25 && d < 25
    requires na < 64 && nb < 64 && nc < 64 && nd < 64
    requires a != b && a != c && a != d && b != c && b != d && c != d
    modifies A
    ensures A[a] == Rotl(old(A[a]), na) && A[b] == Rotl(old(A[b]), nb)
    ensures A[c] == Rotl(old(A[c]), nc) && A[d] == Rotl(old(A[d]), nd)
    ensures forall i :: 0 <= i < 25 && i != a && i != b && i != c && i != d ==> A[i] == old(A[i])
  {
    hide Rotl;
    A[a] := Rotl(A[a], na);
    A[b] := Rotl(A[b], nb);
    A[c] := Rotl(A[c], nc);
    A[d] := Rotl(A[d], nd);
  }

  /** Five rotations in a row. */
  method RotateFive(A: array<Lane>, a: nat, na: nat, b: nat, nb: nat, c: nat, nc: nat, d: nat, nd: nat, e: nat, ne: nat)
    requires A.Length == 25 && a < 25 && b < 25 && c < 25 && d < 25 && e < 25
    requires na < 64 && nb < 64 && nc < 64 && nd < 64 && ne < 64
    requires a != b && a != c && a != d && a != e && b != c && b != d && b != e && c != d && c != e && d != e
    modifies A
    ensures A[a] == Rotl(old(A[a]), na) && A[b] == Rotl(old(A[b]), nb) && A[c] == Rotl(old(A[c]), nc)
    ensures A[d] == Rotl(old(A[d]), nd) && A[e] == Rotl(old(A[e]), ne)
    ensures forall i :: 0 <= i < 25 && i != a && i != b && i != c && i != d && i != e ==> A[i] == old(A[i])
  {
    hide Rotl;
    RotateFour(A, a, na, b, nb, c, nc, d, nd);
    A[e] := Rotl(A[e], ne);
  }

  /** The five stores c0 .. c4 that end a chi row. */
  method PutRow(A: array<Lane>, a: nat, b: nat, c: nat, d: nat, e: nat, r: Row)
    requires A.Length == 25 && a < 25 && b < 25 && c < 25 && d < 25 && e < 25
    requires a != b && a != c && a != d && a != e && b != c && b != d && b != e && c != d && c != e && d != e
    modifies A
    ensures A[a] == r.b0 && A[b] == r.b1 && A[c] == r.b2 && A[d] == r.b3 && A[e] == r.b4
    ensures forall i :: 0 <= i < 25 && i != a && i != b && i != c && i != d && i != e ==> A[i] == old(A[i])
  {
    A[a] := r.b0;
    A[b] := r.b1;
    A[c] := r.b2;
    A[d] := r.b3;
    A[e] := r.b4;
  }

  // ---- lane tables: what has to be checked slot by slot -----------------------------

  lemma PiLanes(s: State)
    ensures forall i :: 0 <= i < 25 ==> Pi(s)[i] == s[PiIndex(i)]
  {
  }

  lemma PiSlots(s: State)
    ensures Pi(s)[0] == s[0] && Pi(s)[1] == s[6] && Pi(s)[2] == s[12] && Pi(s)[3] == s[18] && Pi(s)[4] == s[24]
    ensures Pi(s)[5] == s[3] && Pi(s)[6] == s[9] && Pi(s)[7] == s[10] && Pi(s)[8] == s[16] && Pi(s)[9] == s[22]
    ensures Pi(s)[10] == s[1] && Pi(s)[11] == s[7] && Pi(s)[12] == s[13] && Pi(s)[13] == s[19] && Pi(s)[14] == s[20]
    ensures Pi(s)[15] == s[4] && Pi(s)[16] == s[5] && Pi(s)[17] == s[11] && Pi(s)[18] == s[17] && Pi(s)[19] == s[23]
    ensures Pi(s)[20] == s[2] && Pi(s)[21] == s[8] && Pi(s)[22] == s[14] && Pi(s)[23] == s[15] && Pi(s)[24] == s[21]
  {
    hide Pi;
    PiLanes(s);
  }

  lemma ThetaLanes(s: State)
    ensures forall i :: 0 <= i < 25 ==> Theta(s)[i] == Xor(s[i], Effect(s, i % 5))
  {
    hide Xor, Effect;
  }

  lemma ThetaByLanes(s: State, r: State)
    requires r[0] == Xor(s[0], Effect(s, 0)) && r[5] == Xor(s[5], Effect(s, 0)) && r[10] == Xor(s[10], Effect(s, 0)) && r[15] == Xor(s[15], Effect(s, 0)) && r[20] == Xor(s[20], Effect(s, 0))
    requires r[1] == Xor(s[1], Effect(s, 1)) && r[6] == Xor(s[6], Effect(s, 1)) && r[11] == Xor(s[11], Effect(s, 1)) && r[16] == Xor(s[16], Effect(s, 1)) && r[21] == Xor(s[21], Effect(s, 1))
    requires r[2] == Xor(s[2], Effect(s, 2)) && r[7] == Xor(s[7], Effect(s, 2)) && r[12] == Xor(s[12], Effect(s, 2)) && r[17] == Xor(s[17], Effect(s, 2)) && r[22] == Xor(s[22], Effect(s, 2))
    requires r[3] == Xor(s[3], Effect(s, 3)) && r[8] == Xor(s[8], Effect(s, 3)) && r[13] == Xor(s[13], Effect(s, 3)) && r[18] == Xor(s[18], Effect(s, 3)) && r[23] == Xor(s[23], Effect(s, 3))
    requires r[4] == Xor(s[4], Effect(s, 4)) && r[9] == Xor(s[9], Effect(s, 4)) && r[14] == Xor(s[14], Effect(s, 4)) && r[19] == Xor(s[19], Effect(s, 4)) && r[24] == Xor(s[24], Effect(s, 4))
    ensures r == Theta(s)
  {
    hide Xor, Effect, Theta;
    ThetaLanes(s);
    EqualLanes(r, Theta(s));
  }

  lemma RhoLanes(s: State)
    ensures forall i :: 0 <= i < 25 ==> Rho(s)[i] == Rotl(s[i], RhoOffset(i))
    ensures Rho(s)[0] == s[0]
  {
    hide Rotl;
    RotlZero(s[0]);
  }

  lemma RotlZero(x: Lane)
    ensures Rotl(x, 0) == x
  {
    assert Rotl64(x.word, 0) == x.word;
  }

  lemma RhoByLanes(s: State, r: State)
    requires r[0] == s[0]
    requires r[1] == Rotl(s[1], 1) && r[2] == Rotl(s[2], 62) && r[3] == Rotl(s[3], 28) && r[4] == Rotl(s[4], 27)
    requires r[5] == Rotl(s[5], 36) && r[6] == Rotl(s[6], 44) && r[7] == Rotl(s[7], 6) && r[8] == Rotl(s[8], 55) && r[9] == Rotl(s[9], 20)
    requires r[10] == Rotl(s[10], 3) && r[11] == Rotl(s[11], 10) && r[12] == Rotl(s[12], 43) && r[13] == Rotl(s[13], 25) && r[14] == Rotl(s[14], 39)
    requires r[15] == Rotl(s[15], 41) && r[16] == Rotl(s[16], 45) && r[17] == Rotl(s[17], 15) && r[18] == Rotl(s[18], 21) && r[19] == Rotl(s[19], 8)
    requires r[20] == Rotl(s[20], 18) && r[21] == Rotl(s[21], 2) && r[22] == Rotl(s[22], 61) && r[23] == Rotl(s[23], 56) && r[24] == Rotl(s[24], 14)
    ensures r == Rho(s)
  {
    hide Rotl, Rho;
    RhoLanes(s);
    EqualLanes(r, Rho(s));
  }

  lemma ChiByRows(s: State, r: State)
    requires RowOf(r, 0) == FastRow0(RowOf(s, 0)) && RowOf(r, 1) == FastRow1(RowOf(s, 1))
    requires RowOf(r, 2) == FastRow2(RowOf(s, 2)) && RowOf(r, 3) == FastRow3(RowOf(s, 3))
    requires RowOf(r, 4) == FastRow4(RowOf(s, 4))
    ensures r == FastChi(s)
  {
    hide FastRow0, FastRow1, FastRow2, FastRow3, FastRow4, FromRows;
    RowsOfFromRows(FastRow0(RowOf(s, 0)), FastRow1(RowOf(s, 1)), FastRow2(RowOf(s, 2)),
                   FastRow3(RowOf(s, 3)), FastRow4(RowOf(s, 4)));
    EqualRows(r, FastChi(s));
  }

  /** t0 .. t4 of the first round. */
  method ThetaFirstWords(A: array<Lane>) returns (t0: Lane, t1: Lane, t2: Lane, t3: Lane, t4: Lane)
    requires A.Length == 25
    ensures var s := A[..];
            t0 == Effect(s, 0) && t1 == Effect(s, 1) && t2 == Effect(s, 2) && t3 == Effect(s, 3) && t4 == Effect(s, 4)
  {
    hide ThetaWord, Xor, Rotl, Pi;
    ghost var a: State := A[..];
    t0 := ThetaWord(A[1], A[6], A[11], A[16], A[21], A[4], A[9], A[14], A[19], A[24]);
    t1 := ThetaWord(A[2], A[7], A[12], A[17], A[22], A[0], A[5], A[10], A[15], A[20]);
    t2 := ThetaWord(A[3], A[8], A[13], A[18], A[23], A[1], A[6], A[11], A[16], A[21]);
    t3 := ThetaWord(A[4], A[9], A[14], A[19], A[24], A[2], A[7], A[12], A[17], A[22]);
    t4 := ThetaWord(A[0], A[5], A[10], A[15], A[20], A[3], A[8], A[13], A[18], A[23]);
    ThetaWordIsEffect(A[1], A[6], A[11], A[16], A[21], A[4], A[9], A[14], A[19], A[24]);
    ThetaWordIsEffect(A[2], A[7], A[12], A[17], A[22], A[0], A[5], A[10], A[15], A[20]);
    ThetaWordIsEffect(A[3], A[8], A[13], A[18], A[23], A[1], A[6], A[11], A[16], A[21]);
    ThetaWordIsEffect(A[4], A[9], A[14], A[19], A[24], A[2], A[7], A[12], A[17], A[22]);
    ThetaWordIsEffect(A[0], A[5], A[10], A[15], A[20], A[3], A[8], A[13], A[18], A[23]);
  }

  method ThetaFirst(A: array<Lane>)
    requires A.Length == 25
    modifies A
    ensures A[..] == Theta(old(A[..]))
  {
    hide Xor, Effect, Theta, Pi;
    ghost var a: State := A[..];
    ghost var s: State := a;
    var t0, t1, t2, t3, t4 := ThetaFirstWords(A);
    XorLanes(A, 0, 5, 10, 15, 20, t0);
    XorLanes(A, 1, 6, 11, 16, 21, t1);
    XorLanes(A, 2, 7, 12, 17, 22, t2);
    XorLanes(A, 3, 8, 13, 18, 23, t3);
    XorLanes(A, 4, 9, 14, 19, 24, t4);
    ThetaByLanes(s, A[..]);
  }

  method RhoFirst(A: array<Lane>)
    requires A.Length == 25
    modifies A
    ensures A[..] == Rho(old(A[..]))
  {
    hide Rotl, Rho, Pi;
    ghost var a: State := A[..];
    ghost var s: State := a;
    RotateFour(A, 5, 36, 10, 3, 15, 41, 20, 18);
    RotateFive(A, 1, 1, 6, 44, 11, 10, 16, 45, 21, 2);
    RotateFive(A, 2, 62, 7, 6, 12, 43, 17, 15, 22, 61);
    RotateFive(A, 3, 28, 8, 55, 13, 25, 18, 21, 23, 56);
    RotateFive(A, 4, 27, 9, 20, 14, 39, 19, 8, 24, 14);
    RhoByLanes(s, A[..]);
  }

  method ChiFirst(A: array<Lane>)
    requires A.Length == 25
    modifies A
    ensures Pi(A[..]) == FastChi(Pi(old(A[..])))
  {
    hide FastRow0, FastRow1, FastRow2, FastRow3, FastRow4, FastChi, Pi;
    ghost var a: State := A[..];
    ghost var s: State := Pi(a);
    PutRow(A, 0, 6, 12, 18, 24, FastRow0(Row(A[0], A[6], A[12], A[18], A[24])));
    PutRow(A, 3, 9, 10, 16, 22, FastRow1(Row(A[3], A[9], A[10], A[16], A[22])));
    PutRow(A, 1, 7, 13, 19, 20, FastRow2(Row(A[1], A[7], A[13], A[19], A[20])));
    PutRow(A, 4, 5, 11, 17, 23, FastRow3(Row(A[4], A[5], A[11], A[17], A[23])));
    PutRow(A, 2, 8, 14, 15, 21, FastRow4(Row(A[2], A[8], A[14], A[15], A[21])));
    PiSlots(a);
    PiSlots(A[..]);
    ChiByRows(s, Pi(A[..]));
  }

  // ---- second round of a pass: logical lane i in slot PiIndex(i) --------------------

  /** t0 .. t4 of the second round. */
  method ThetaSecondWords(A: array<Lane>) returns (t0: Lane, t1: Lane, t2: Lane, t3: Lane, t4: Lane)
    requires A.Length == 25
    ensures var s := Pi(A[..]);
            t0 == Effect(s, 0) && t1 == Effect(s, 1) && t2 == Effect(s, 2) && t3 == Effect(s, 3) && t4 == Effect(s, 4)
  {
    hide ThetaWord, Xor, Rotl, Pi;
    ghost var a: State := A[..];
    PiSlots(a);
    t0 := ThetaWord(A[6], A[9], A[7], A[5], A[8], A[24], A[22], A[20], A[23], A[21]);
    t1 := ThetaWord(A[12], A[10], A[13], A[11], A[14], A[0], A[3], A[1], A[4], A[2]);
    t2 := ThetaWord(A[18], A[16], A[19], A[17], A[15], A[6], A[9], A[7], A[5], A[8]);
    t3 := ThetaWord(A[24], A[22], A[20], A[23], A[21], A[12], A[10], A[13], A[11], A[14]);
    t4 := ThetaWord(A[0], A[3], A[1], A[4], A[2], A[18], A[16], A[19], A[17], A[15]);
    ThetaWordIsEffect(A[6], A[9], A[7], A[5], A[8], A[24], A[22], A[20], A[23], A[21]);
    ThetaWordIsEffect(A[12], A[10], A[13], A[11], A[14], A[0], A[3], A[1], A[4], A[2]);
    ThetaWordIsEffect(A[18], A[16], A[19], A[17], A[15], A[6], A[9], A[7], A[5], A[8]);
    ThetaWordIsEffect(A[24], A[22], A[20], A[23], A[21], A[12], A[10], A[13], A[11], A[14]);
    ThetaWordIsEffect(A[0], A[3], A[1], A[4], A[2], A[18], A[16], A[19], A[17], A[15]);
  }

  method ThetaSecond(A: array<Lane>)
    requires A.Length == 25
    modifies A
    ensures Pi(A[..]) == Theta(Pi(old(A[..])))
  {
    hide Xor, Effect, Theta, Pi;
    ghost var a: State := A[..];
    ghost var s: State := Pi(a);
    var t0, t1, t2, t3, t4 := ThetaSecondWords(A);
    XorLanes(A, 0, 3, 1, 4, 2, t0);
    XorLanes(A, 6, 9, 7, 5, 8, t1);
    XorLanes(A, 12, 10, 13, 11, 14, t2);
    XorLanes(A, 18, 16, 19, 17, 15, t3);
    XorLanes(A, 24, 22, 20, 23, 21, t4);
    PiSlots(a);
    PiSlots(A[..]);
    ThetaByLanes(s, Pi(A[..]));
  }

  method RhoSecond(A: array<Lane>)
    requires A.Length == 25
    modifies A
    ensures Pi(A[..]) == Rho(Pi(old(A[..])))
  {
    hide Rotl, Rho, Pi;
    ghost var a: State := A[..];
    ghost var s: State := Pi(a);
    RotateFour(A, 3, 36, 1, 3, 4, 41, 2, 18);
    RotateFive(A, 6, 1, 9, 44, 7, 10, 5, 45, 8, 2);
    RotateFive(A, 12, 62, 10, 6, 13, 43, 11, 15, 14, 61);
    RotateFive(A, 18, 28, 16, 55, 19, 25, 17, 21, 15, 56);
    RotateFive(A, 24, 27, 22, 20, 20, 39, 23, 8, 21, 14);
    PiSlots(a);
    PiSlots(A[..]);
    RhoByLanes(s, Pi(A[..]));
  }

  method ChiSecond(A: array<Lane>)
    requires A.Length == 25
    modifies A
    ensures Pi(Pi(A[..])) == FastChi(Pi(Pi(old(A[..]))))
  {
    hide FastRow0, FastRow1, FastRow2, FastRow3, FastRow4, FastChi, Pi;
    ghost var a: State := A[..];
    ghost var s: State := Pi(Pi(a));
    PutRow(A, 0, 9, 13, 17, 21, FastRow0(Row(A[0], A[9], A[13], A[17], A[21])));
    PutRow(A, 18, 22, 1, 5, 14, FastRow1(Row(A[18], A[22], A[1], A[5], A[14])));
    PutRow(A, 6, 10, 19, 23, 2, FastRow2(Row(A[6], A[10], A[19], A[23], A[2])));
    PutRow(A, 24, 3, 7, 11, 15, FastRow3(Row(A[24], A[3], A[7], A[11], A[15])));
    PutRow(A, 12, 16, 20, 4, 8, FastRow4(Row(A[12], A[16], A[20], A[4], A[8])));
    PiSlots(a);
    PiSlots(Pi(a));
    PiSlots(A[..]);
    PiSlots(Pi(A[..]));
    ChiByRows(s, Pi(Pi(A[..])));
  }

  /** The first twelve-lane cycle. */
  method FirstCycle<T>(A: array<T>)
    requires A.Length == 25
    modifies A
    ensures A[5] == old(A[18]) && A[18] == old(A[11]) && A[11] == old(A[10]) && A[10] == old(A[6])
    ensures A[6] == old(A[22]) && A[22] == old(A[20]) && A[20] == old(A[12]) && A[12] == old(A[19])
    ensures A[19] == old(A[15]) && A[15] == old(A[24]) && A[24] == old(A[8]) && A[8] == old(A[5])
    ensures A[0] == old(A[0]) && A[1] == old(A[1]) && A[2] == old(A[2]) && A[3] == old(A[3]) && A[4] == old(A[4]) && A[7] == old(A[7]) && A[9] == old(A[9])
    ensures A[13] == old(A[13]) && A[14] == old(A[14]) && A[16] == old(A[16]) && A[17] == old(A[17]) && A[21] == old(A[21]) && A[23] == old(A[23])
  {
    var t := A[5];
    A[5] := A[18];
    A[18] := A[11];
    A[11] := A[10];
    A[10] := A[6];
    A[6] := A[22];
    A[22] := A[20];
    A[20] := A[12];
    A[12] := A[19];
    A[19] := A[15];
    A[15] := A[24];
    A[24] := A[8];
    A[8] := t;
  }

  /** The second twelve-lane cycle. */
  method SecondCycle<T>(A: array<T>)
    requires A.Length == 25
    modifies A
    ensures A[1] == old(A[9]) && A[9] == old(A[14]) && A[14] == old(A[2]) && A[2] == old(A[13])
    ensures A[13] == old(A[23]) && A[23] == old(A[4]) && A[4] == old(A[21]) && A[21] == old(A[16])
    ensures A[16] == old(A[3]) && A[3] == old(A[17]) && A[17] == old(A[7]) && A[7] == old(A[1])
    ensures A[0] == old(A[0]) && A[5] == old(A[5]) && A[6] == old(A[6]) && A[8] == old(A[8]) && A[10] == old(A[10]) && A[11] == old(A[11]) && A[12] == old(A[12])
    ensures A[15] == old(A[15]) && A[18] == old(A[18]) && A[19] == old(A[19]) && A[20] == old(A[20]) && A[22] == old(A[22]) && A[24] == old(A[24])
  {
    var t := A[1];
    A[1] := A[9];
    A[9] := A[14];
    A[14] := A[2];
    A[2] := A[13];
    A[13] := A[23];
    A[23] := A[4];
    A[4] := A[21];
    A[21] := A[16];
    A[16] := A[3];
    A[3] := A[17];
    A[17] := A[7];
    A[7] := t;
  }

  /** The two cycles bring every lane home. */
  method RestoreLayout(A: array<Lane>)
    requires A.Length == 25
    modifies A
    ensures A[..] == Pi(Pi(old(A[..])))
  {
    hide Pi;
    ghost var s: State := A[..];
    FirstCycle(A);
    SecondCycle(A);
    PiSlots(s);
    PiSlots(Pi(s));
    EqualLanes(A[..], Pi(Pi(s)));
  }

  // ---- a pass, and the whole permutation --------------------------------------------

  method AddConstant(A: array<Lane>, rc: Lane)
    requires A.Length == 25
    modifies A
    ensures A[..] == Iota(old(A[..]), rc)
  {
    A[0] := Xor(A[0], rc);
  }

  /** Iota commutes with the change of slots, which keeps slot 0. */
  lemma IotaThroughPi(s: State, rc: Lane)
    ensures Pi(Iota(s, rc)) == Iota(Pi(s), rc)
  {
    hide Xor, PiIndex;
    forall i | 0 <= i < 25
      ensures Pi(Iota(s, rc))[i] == Iota(Pi(s), rc)[i]
    {
      assert PiIndex(i) == 0 <==> i == 0 by { SlotZero(i); }
    }
  }

  lemma SlotZero(i: int)
    requires 0 <= i < 25
    ensures PiIndex(i) == 0 <==> i == 0
  {
  }

  /** The body of the main loop: two rounds on the stored state. */
  method Pass(A: array<Lane>, j: int)
    requires A.Length == 25 && 0 <= j <= 22
    modifies A
    ensures A[..] == FastRound(FastRound(old(A[..]), RC(j)), RC(j + 1))
  {
    hide Theta, Rho, Pi, FastChi, Iota, RC;
    ghost var s0: State := A[..];
    ThetaFirst(A);
    RhoFirst(A);
    ChiFirst(A);
    ghost var s1: State := A[..];
    AddConstant(A, RC(j + 0));
    IotaThroughPi(s1, RC(j));
    assert Pi(A[..]) == FastRound(s0, RC(j));
    ThetaSecond(A);
    RhoSecond(A);
    ChiSecond(A);
    ghost var s2: State := A[..];
    AddConstant(A, RC(j + 1));
    IotaThroughPi(s2, RC(j + 1));
    IotaThroughPi(Pi(s2), RC(j + 1));
    RestoreLayout(A);
  }

  /** A pass is exactly two rounds of FIPS 202 on the represented state. */
  lemma PassIsTwoRounds(s: State, j: int)
    requires 0 <= j <= 22
    ensures FastRound(FastRound(Stored(s), RC(j)), RC(j + 1)) == Stored(Round(Round(s, RC(j)), RC(j + 1)))
  {
    hide FastRound, Round, Stored, RC;
    FastRoundIsRound(s, RC(j));
    FastRoundIsRound(Round(s, RC(j)), RC(j + 1));
  }

  /** The twelve passes compute Keccak-f[1600] on the state the array represents. */
  method Permute(A: array<Lane>, ghost s: State)
    requires A.Length == 25 && A[..] == Stored(s)
    modifies A
    ensures A[..] == Stored(KeccakF(s))
  {
    hide Stored, Round, FastRound, RC;
    var j := 0;
    while j < 24
      invariant 0 <= j <= 24 && j % 2 == 0
      invariant A[..] == Stored(Rounds(s, j))
    {
      PassIsTwoRounds(Rounds(s, j), j);
      Pass(A, j);
      j := j + 2;
    }
  }
}
