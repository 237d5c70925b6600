/** The program keeps lanes 1, 2, 8, 12, 17 and 20 complemented.  Theta, rho and pi are linear
    over xor, so they carry the complement mask along; the mixed and/or form of chi then
    turns the carried mask back into the stored one. */
module Complement {
  import opened Lanes
  import opened Fips202

  predicate IsComplemented(i: int) {
    i == 1 || i == 2 || i == 8 || i == 12 || i == 17 || i == 20
  }

  /** All-ones on the six lanes stored complemented. */
  function Mask(): State {
    seq(25, i requires 0 <= i < 25 => if IsComplemented(i) then ONES else ZERO)
  }

  /** The array contents that represent state s. */
  function Stored(s: State): State {
    XorState(s, Mask())
  }

  /** Every array content represents exactly one state, found by complementing again. */
  lemma StoredIsOneToOne(a: State, s: State)
    ensures a == Stored(s) <==> s == XorState(a, Mask())
  {
    hide Xor, Mask;
    forall i | 0 <= i < 25
      ensures Xor(Xor(a[i], Mask()[i]), Mask()[i]) == a[i] && Xor(Xor(s[i], Mask()[i]), Mask()[i]) == s[i]
    {
      XorTwice(a[i], Mask()[i]);
      XorTwice(s[i], Mask()[i]);
    }
    if s == XorState(a, Mask()) {
      assert forall i :: 0 <= i < 25 ==> Stored(s)[i] == a[i];
    }
    if a == Stored(s) {
      assert forall i :: 0 <= i < 25 ==> XorState(a, Mask())[i] == s[i];
    }
  }

  lemma XorTwice(x: Lane, y: Lane)
    ensures Xor(Xor(x, y), y) == x
  {
    XorAssoc(x, y, y);
    XorSelf(y);
    XorConstants(x);
  }

  lemma XorSelf(y: Lane)
    ensures Xor(y, y) == ZERO
  {
    assert Xor64(y.word, y.word) == 0;
  }

  // ---- theta, rho and pi are linear -------------------------------------------------

  lemma ParityXor(s: State, t: State, x: int)
    requires 0 <= x < 5
    ensures Parity(XorState(s, t), x) == Xor(Parity(s, x), Parity(t, x))
  {
    hide Xor;
    var s1, t1 := Xor(s[x], s[x + 5]), Xor(t[x], t[x + 5]);
    var s2, t2 := Xor(s1, s[x + 10]), Xor(t1, t[x + 10]);
    var s3, t3 := Xor(s2, s[x + 15]), Xor(t2, t[x + 15]);
    XorSwap(s[x], t[x], s[x + 5], t[x + 5]);
    XorSwap(s1, t1, s[x + 10], t[x + 10]);
    XorSwap(s2, t2, s[x + 15], t[x + 15]);
    XorSwap(s3, t3, s[x + 20], t[x + 20]);
  }

  lemma EffectXor(s: State, t: State, x: int)
    requires 0 <= x < 5
    ensures Effect(XorState(s, t), x) == Xor(Effect(s, x), Effect(t, x))
  {
    hide Xor, Rotl, Parity;
    var l, r := (x + 4) % 5, (x + 1) % 5;
    ParityXor(s, t, l);
    ParityXor(s, t, r);
    RotlXor(Parity(s, r), Parity(t, r), 1);
    XorSwap(Parity(s, l), Parity(t, l), Rotl(Parity(s, r), 1), Rotl(Parity(t, r), 1));
  }

  lemma ThetaXor(s: State, t: State)
    ensures Theta(XorState(s, t)) == XorState(Theta(s), Theta(t))
  {
    hide Xor, Effect;
    forall i | 0 <= i < 25
      ensures Theta(XorState(s, t))[i] == XorState(Theta(s), Theta(t))[i]
    {
      EffectXor(s, t, i % 5);
      XorSwap(s[i], t[i], Effect(s, i % 5), Effect(t, i % 5));
    }
  }

  lemma RhoXor(s: State, t: State)
    ensures Rho(XorState(s, t)) == XorState(Rho(s), Rho(t))
  {
    hide Xor, Rotl, RhoOffset;
    forall i | 0 <= i < 25
      ensures Rho(XorState(s, t))[i] == XorState(Rho(s), Rho(t))[i]
    {
      RotlXor(s[i], t[i], RhoOffset(i));
    }
  }

  lemma PiXor(s: State, t: State)
    ensures Pi(XorState(s, t)) == XorState(Pi(s), Pi(t))
  {
    hide Xor, PiIndex;
  }

  // ---- the mask in the middle of a round --------------------------------------------

  predicate IsMidComplemented(i: int) {
    i == 0 || i == 2 || i == 3 || i == 5 || i == 7 || i == 10 ||
    i == 12 || i == 16 || i == 18 || i == 19 || i == 20 || i == 23
  }

  /** Where complemented lanes sit after theta, rho and pi. */
  function MidMask(): State {
    seq(25, i requires 0 <= i < 25 => if IsMidComplemented(i) then ONES else ZERO)
  }

  lemma MaskEffect(x: int)
    requires 0 <= x < 5
    ensures Effect(Mask(), x) == if x == 0 || x == 3 then ONES else ZERO
  {
    hide Xor, Rotl, Not;
    XorConstants(ZERO);
    XorConstants(ONES);
    NotConstants();
    RotlConstants(1);
    match x
    case 0 =>
    case 1 =>
    case 2 =>
    case 3 =>
    case _ =>
  }

  lemma NotConstants()
    ensures Not(ONES) == ZERO && Not(ZERO) == ONES
  {
  }

  /** Complemented lanes after theta. */
  predicate IsThetaComplemented(i: int) {
    i == 0 || i == 1 || i == 2 || i == 3 || i == 5 || i == 10 ||
    i == 12 || i == 13 || i == 15 || i == 17 || i == 18 || i == 23
  }

  lemma MaskThroughTheta(i: int)
    requires 0 <= i < 25
    ensures Theta(Mask())[i] == if IsThetaComplemented(i) then ONES else ZERO
  {
    hide Xor, Effect, Not;
    MaskEffect(i % 5);
    XorConstants(ZERO);
    XorConstants(ONES);
    NotConstants();
  }

  lemma MaskThroughPi(i: int)
    requires 0 <= i < 25
    ensures IsThetaComplemented(PiIndex(i)) <==> IsMidComplemented(i)
  {
    assert i == i % 5 + 5 * (i / 5) && 0 <= i / 5 < 5;
  }

  lemma MaskMoves()
    ensures Pi(Rho(Theta(Mask()))) == MidMask()
  {
    hide Rotl, Theta, RhoOffset, Mask, IsThetaComplemented, IsMidComplemented, PiIndex;
    forall i | 0 <= i < 25
      ensures Pi(Rho(Theta(Mask())))[i] == MidMask()[i]
    {
      MaskThroughTheta(PiIndex(i));
      MaskThroughPi(i);
      RotlConstants(RhoOffset(PiIndex(i)));
    }
  }

  // ---- chi as the program computes it -----------------------------------------------

  datatype Row = Row(b0: Lane, b1: Lane, b2: Lane, b3: Lane, b4: Lane)

  function RowOf(s: State, y: int): Row
    requires 0 <= y < 5
  {
    Row(s[5 * y], s[5 * y + 1], s[5 * y + 2], s[5 * y + 3], s[5 * y + 4])
  }

  function FromRows(r0: Row, r1: Row, r2: Row, r3: Row, r4: Row): State {
    [r0.b0, r0.b1, r0.b2, r0.b3, r0.b4,
     r1.b0, r1.b1, r1.b2, r1.b3, r1.b4,
     r2.b0, r2.b1, r2.b2, r2.b3, r2.b4,
     r3.b0, r3.b1, r3.b2, r3.b3, r3.b4,
     r4.b0, r4.b1, r4.b2, r4.b3, r4.b4]
  }

  function FastRow0(r: Row): Row {
    var bnn := Not(r.b2);
    Row(Xor(r.b0, Or(r.b1, r.b2)),
        Xor(r.b1, Or(bnn, r.b3)),
        Xor(r.b2, And(r.b3, r.b4)),
        Xor(r.b3, Or(r.b4, r.b0)),
        Xor(r.b4, And(r.b0, r.b1)))
  }

  function FastRow1(r: Row): Row {
    var bnn := Not(r.b4);
    Row(Xor(r.b0, Or(r.b1, r.b2)),
        Xor(r.b1, And(r.b2, r.b3)),
        Xor(r.b2, Or(r.b3, bnn)),
        Xor(r.b3, Or(r.b4, r.b0)),
        Xor(r.b4, And(r.b0, r.b1)))
  }

  function FastRow2(r: Row): Row {
    var bnn := Not(r.b3);
    Row(Xor(r.b0, Or(r.b1, r.b2)),
        Xor(r.b1, And(r.b2, r.b3)),
        Xor(r.b2, And(bnn, r.b4)),
        Xor(bnn, Or(r.b4, r.b0)),
        Xor(r.b4, And(r.b0, r.b1)))
  }

  function FastRow3(r: Row): Row {
    var bnn := Not(r.b3);
    Row(Xor(r.b0, And(r.b1, r.b2)),
        Xor(r.b1, Or(r.b2, r.b3)),
        Xor(r.b2, Or(bnn, r.b4)),
        Xor(bnn, And(r.b4, r.b0)),
        Xor(r.b4, Or(r.b0, r.b1)))
  }

  function FastRow4(r: Row): Row {
    var bnn := Not(r.b1);
    Row(Xor(r.b0, And(bnn, r.b2)),
        Xor(bnn, Or(r.b2, r.b3)),
        Xor(r.b2, And(r.b3, r.b4)),
        Xor(r.b3, Or(r.b4, r.b0)),
        Xor(r.b4, And(r.b0, r.b1)))
  }

  function FastChi(s: State): State {
    FromRows(FastRow0(RowOf(s, 0)), FastRow1(RowOf(s, 1)), FastRow2(RowOf(s, 2)),
             FastRow3(RowOf(s, 3)), FastRow4(RowOf(s, 4)))
  }

  function ChiRow(r: Row): Row {
    Row(ChiLane(r.b0, r.b1, r.b2), ChiLane(r.b1, r.b2, r.b3), ChiLane(r.b2, r.b3, r.b4),
        ChiLane(r.b3, r.b4, r.b0), ChiLane(r.b4, r.b0, r.b1))
  }

  /** Each row of the program's chi, fed its complemented lanes, is the textbook row with the
      stored complements back in place. */
  lemma FastRowsMatch(r: Row)
    ensures var t := ChiRow(r);
            && FastRow0(Row(Not(r.b0), r.b1, Not(r.b2), Not(r.b3), r.b4)) == Row(t.b0, Not(t.b1), Not(t.b2), t.b3, t.b4)
            && FastRow1(Row(Not(r.b0), r.b1, Not(r.b2), r.b3, r.b4)) == Row(t.b0, t.b1, t.b2, Not(t.b3), t.b4)
            && FastRow2(Row(Not(r.b0), r.b1, Not(r.b2), r.b3, r.b4)) == Row(t.b0, t.b1, Not(t.b2), t.b3, t.b4)
            && FastRow3(Row(r.b0, Not(r.b1), r.b2, Not(r.b3), Not(r.b4))) == Row(t.b0, t.b1, Not(t.b2), t.b3, t.b4)
            && FastRow4(Row(Not(r.b0), r.b1, r.b2, Not(r.b3), r.b4)) == Row(Not(t.b0), t.b1, t.b2, t.b3, t.b4)
  {
    hide Xor, And, Or, Not;
    NotLaws();
  }

  // ---- row by row -------------------------------------------------------------------

  lemma EqualRows(s: State, t: State)
    requires RowOf(s, 0) == RowOf(t, 0) && RowOf(s, 1) == RowOf(t, 1) && RowOf(s, 2) == RowOf(t, 2)
    requires RowOf(s, 3) == RowOf(t, 3) && RowOf(s, 4) == RowOf(t, 4)
    ensures s == t
  {
    EqualLanes(s, t);
  }

  lemma RowsOfFromRows(r0: Row, r1: Row, r2: Row, r3: Row, r4: Row)
    ensures var s := FromRows(r0, r1, r2, r3, r4);
            RowOf(s, 0) == r0 && RowOf(s, 1) == r1 && RowOf(s, 2) == r2 && RowOf(s, 3) == r3 && RowOf(s, 4) == r4
  {
  }

  lemma RowOfChi(s: State, y: int)
    requires 0 <= y < 5
    ensures RowOf(Chi(s), y) == ChiRow(RowOf(s, y))
  {
    hide ChiLane, Right;
    Neighbours(0, y);
    Neighbours(1, y);
    Neighbours(2, y);
    Neighbours(3, y);
    Neighbours(4, y);
  }

  lemma Neighbours(x: int, y: int)
    requires 0 <= x < 5 && 0 <= y < 5
    ensures Right(5 * y + x, 1) == 5 * y + (if x < 4 then x + 1 else 0)
    ensures Right(5 * y + x, 2) == 5 * y + (if x < 3 then x + 2 else x - 3)
  {
    assert (5 * y + x) / 5 == y && (5 * y + x) % 5 == x;
  }

  lemma MaskedLane(s: State, i: int)
    requires 0 <= i < 25
    ensures Stored(s)[i] == if IsComplemented(i) then Not(s[i]) else s[i]
    ensures XorState(s, MidMask())[i] == if IsMidComplemented(i) then Not(s[i]) else s[i]
  {
    hide Xor, Not, IsComplemented, IsMidComplemented;
    XorConstants(s[i]);
  }

  lemma MidMaskedRows(s: State)
    ensures var t := XorState(s, MidMask());
            && RowOf(t, 0) == Row(Not(s[0]), s[1], Not(s[2]), Not(s[3]), s[4])
            && RowOf(t, 1) == Row(Not(s[5]), s[6], Not(s[7]), s[8], s[9])
            && RowOf(t, 2) == Row(Not(s[10]), s[11], Not(s[12]), s[13], s[14])
            && RowOf(t, 3) == Row(s[15], Not(s[16]), s[17], Not(s[18]), Not(s[19]))
            && RowOf(t, 4) == Row(Not(s[20]), s[21], s[22], Not(s[23]), s[24])
  {
    hide Not, Stored, XorState, MidMask;
    forall i | 0 <= i < 25
      ensures XorState(s, MidMask())[i] == if IsMidComplemented(i) then Not(s[i]) else s[i]
    {
      MaskedLane(s, i);
    }
  }

  lemma StoredRows(s: State)
    ensures var t := Stored(s);
            && RowOf(t, 0) == Row(s[0], Not(s[1]), Not(s[2]), s[3], s[4])
            && RowOf(t, 1) == Row(s[5], s[6], s[7], Not(s[8]), s[9])
            && RowOf(t, 2) == Row(s[10], s[11], Not(s[12]), s[13], s[14])
            && RowOf(t, 3) == Row(s[15], s[16], Not(s[17]), s[18], s[19])
            && RowOf(t, 4) == Row(Not(s[20]), s[21], s[22], s[23], s[24])
  {
    hide Not, Stored, XorState, MidMask;
    forall i | 0 <= i < 25
      ensures Stored(s)[i] == if IsComplemented(i) then Not(s[i]) else s[i]
    {
      MaskedLane(s, i);
    }
  }

  /** The program's chi on the complemented state is the textbook chi, stored. */
  lemma FastChiIsChi(s: State)
    ensures FastChi(XorState(s, MidMask())) == Stored(Chi(s))
  {
    hide ChiLane, Chi, FromRows, Stored, XorState, MidMask, Not;
    hide FastRow0, FastRow1, FastRow2, FastRow3, FastRow4;
    var t := XorState(s, MidMask());
    MidMaskedRows(s);
    StoredRows(Chi(s));
    RowsOfFromRows(FastRow0(RowOf(t, 0)), FastRow1(RowOf(t, 1)), FastRow2(RowOf(t, 2)),
                   FastRow3(RowOf(t, 3)), FastRow4(RowOf(t, 4)));
    forall y | 0 <= y < 5
      ensures RowOf(Chi(s), y) == ChiRow(RowOf(s, y))
    {
      RowOfChi(s, y);
    }
    FastRowsMatch(RowOf(s, 0));
    FastRowsMatch(RowOf(s, 1));
    FastRowsMatch(RowOf(s, 2));
    FastRowsMatch(RowOf(s, 3));
    FastRowsMatch(RowOf(s, 4));
    EqualRows(FastChi(t), Stored(Chi(s)));
  }

  // ---- a whole round ----------------------------------------------------------------

  function FastRound(s: State, rc: Lane): State {
    Iota(FastChi(Pi(Rho(Theta(s)))), rc)
  }

  lemma IotaStored(s: State, rc: Lane)
    ensures Iota(Stored(s), rc) == Stored(Iota(s, rc))
  {
    hide Xor;
    XorConstants(s[0]);
    XorConstants(Xor(s[0], rc));
  }

  /** One round of the program on a stored state is one FIPS 202 round, stored. */
  lemma FastRoundIsRound(s: State, rc: Lane)
    ensures FastRound(Stored(s), rc) == Stored(Round(s, rc))
  {
    hide Xor, Theta, Rho, Pi, Chi, FastChi, Mask, MidMask, Iota, XorState;
    ThetaXor(s, Mask());
    RhoXor(Theta(s), Theta(Mask()));
    PiXor(Rho(Theta(s)), Rho(Theta(Mask())));
    MaskMoves();
    FastChiIsChi(Pi(Rho(Theta(s))));
    IotaStored(Chi(Pi(Rho(Theta(s)))), rc);
  }
}
