/** The two tables of the permutation, derived the way FIPS 202 derives them: rho offsets by
    the walk of section 3.2.2, round constants by the shift register of section 3.2.5. */
module Fips202Tables {
  import opened Lanes
  import opened Fips202

  // ---- rho offsets ------------------------------------------------------------------

  /** Lane visited at step t: start at (1, 0), then (x, y) becomes (y, 2x + 3y). */
  function Walk(t: nat): (l: (int, int))
    ensures 0 <= l.0 < 5 && 0 <= l.1 < 5
  {
    if t == 0 then (1, 0) else
      var l := Walk(t - 1);
      (l.1, (2 * l.0 + 3 * l.1) % 5)
  }

  function WalkIndex(t: nat): (i: int)
    ensures 0 <= i < 25
  {
    Walk(t).0 + 5 * Walk(t).1
  }

  lemma WalkTable()
    ensures Walk(0) == (1, 0) && Walk(1) == (0, 2) && Walk(2) == (2, 1) && Walk(3) == (1, 2) && Walk(4) == (2, 3) && Walk(5) == (3, 3)
    ensures Walk(6) == (3, 0) && Walk(7) == (0, 1) && Walk(8) == (1, 3) && Walk(9) == (3, 1) && Walk(10) == (1, 4) && Walk(11) == (4, 4)
    ensures Walk(12) == (4, 0) && Walk(13) == (0, 3) && Walk(14) == (3, 4) && Walk(15) == (4, 3) && Walk(16) == (3, 2) && Walk(17) == (2, 2)
    ensures Walk(18) == (2, 0) && Walk(19) == (0, 4) && Walk(20) == (4, 2) && Walk(21) == (2, 4) && Walk(22) == (4, 1) && Walk(23) == (1, 1)
  {
    assert Walk(0) == (1, 0);
    assert Walk(1) == (0, 2);
    assert Walk(2) == (2, 1);
    assert Walk(3) == (1, 2);
    assert Walk(4) == (2, 3);
    assert Walk(5) == (3, 3);
    assert Walk(6) == (3, 0);
    assert Walk(7) == (0, 1);
    assert Walk(8) == (1, 3);
    assert Walk(9) == (3, 1);
    assert Walk(10) == (1, 4);
    assert Walk(11) == (4, 4);
    assert Walk(12) == (4, 0);
    assert Walk(13) == (0, 3);
    assert Walk(14) == (3, 4);
    assert Walk(15) == (4, 3);
    assert Walk(16) == (3, 2);
    assert Walk(17) == (2, 2);
    assert Walk(18) == (2, 0);
    assert Walk(19) == (0, 4);
    assert Walk(20) == (4, 2);
    assert Walk(21) == (2, 4);
    assert Walk(22) == (4, 1);
    assert Walk(23) == (1, 1);
  }

  /** Lane (0, 0) stays; step t of the walk is rotated by (t + 1)(t + 2) / 2. */
  lemma RhoOffsetsFollowTheWalk(t: nat)
    requires t < 24
    ensures RhoOffset(0) == 0
    ensures RhoOffset(WalkIndex(t)) == ((t + 1) * (t + 2) / 2) % 64
  {
    hide Walk;
    WalkTable();
    match t
    case 0 => case 1 => case 2 => case 3 => case 4 => case 5 =>
    case 6 => case 7 => case 8 => case 9 => case 10 => case 11 =>
    case 12 => case 13 => case 14 => case 15 => case 16 => case 17 =>
    case 18 => case 19 => case 20 => case 21 => case 22 => case _ =>
  }

  /** The walk visits each of the other 24 lanes. */
  lemma WalkVisitsAll(i: nat) returns (t: nat)
    requires 1 <= i < 25
    ensures t < 24 && WalkIndex(t) == i
  {
    hide Walk;
    WalkTable();
    match i
    case 1 => t := 0; case 2 => t := 18; case 3 => t := 6; case 4 => t := 12; case 5 => t := 7; case 6 => t := 23;
    case 7 => t := 2; case 8 => t := 9; case 9 => t := 22; case 10 => t := 1; case 11 => t := 3; case 12 => t := 17;
    case 13 => t := 16; case 14 => t := 20; case 15 => t := 13; case 16 => t := 8; case 17 => t := 4; case 18 => t := 5;
    case 19 => t := 15; case 20 => t := 19; case 21 => t := 10; case 22 => t := 21; case 23 => t := 14; case _ => t := 11;
  }

  // ---- round constants --------------------------------------------------------------

  /** Algorithm 5: one step of the register, bit k of the byte being R[k]. */
  function LfsrStep(r: bv8): bv8 {
    if r & 0x80 != 0 then (r << 1) ^ 0x71 else r << 1
  }

  function Lfsr(t: nat): bv8 {
    if t == 0 then 1 else LfsrStep(Lfsr(t - 1))
  }

  /** R[0]. */
  predicate First(r: bv8) {
    r & 1 != 0
  }

  /** rc(t). */
  predicate RcBit(t: nat) {
    First(Lfsr(t))
  }

  /** A word with the given bits at positions 0, 1, 3, 7, 15, 31 and 63. */
  function Word(b0: bool, b1: bool, b2: bool, b3: bool, b4: bool, b5: bool, b6: bool): bv64 {
    (if b0 then 0x1 else 0) | (if b1 then 0x2 else 0) | (if b2 then 0x8 else 0) | (if b3 then 0x80 else 0) |
    (if b4 then 0x8000 else 0) | (if b5 then 0x80000000 else 0) | (if b6 then 0x8000000000000000 else 0)
  }

  /** Algorithm 6: bit 2^j - 1 of the constant of round ir is rc(j + 7 ir). */
  function RcWord(ir: nat): bv64 {
    Word(RcBit(7 * ir), RcBit(7 * ir + 1), RcBit(7 * ir + 2), RcBit(7 * ir + 3),
         RcBit(7 * ir + 4), RcBit(7 * ir + 5), RcBit(7 * ir + 6))
  }

  // The register is followed round by round: its value at the start of each round, the seven
  // bits that round reads, and the word they spell.

  function Steps(r: bv8, n: nat): bv8 {
    if n == 0 then r else LfsrStep(Steps(r, n - 1))
  }

  function RoundRegister(ir: nat): bv8
    requires ir < 24
  {
    match ir
    case 0 => 0x01 case 1 => 0x80 case 2 => 0xD8 case 3 => 0x1A case 4 => 0xDF case 5 => 0x09
    case 6 => 0x35 case 7 => 0x4F case 8 => 0xCA case 9 => 0x70 case 10 => 0x41 case 11 => 0xEC
    case 12 => 0xD5 case 13 => 0xCD case 14 => 0x63 case 15 => 0xAB case 16 => 0xAA case 17 => 0x2A
    case 18 => 0xF2 case 19 => 0xE8 case 20 => 0x37 case 21 => 0x3E case 22 => 0x0B case _ => 0x44
  }

  lemma RegistersFollow()
    ensures Steps(0x01, 7) == 0x80 && Steps(0x80, 7) == 0xD8 && Steps(0xD8, 7) == 0x1A
    ensures Steps(0x1A, 7) == 0xDF && Steps(0xDF, 7) == 0x09 && Steps(0x09, 7) == 0x35
    ensures Steps(0x35, 7) == 0x4F && Steps(0x4F, 7) == 0xCA && Steps(0xCA, 7) == 0x70
    ensures Steps(0x70, 7) == 0x41 && Steps(0x41, 7) == 0xEC && Steps(0xEC, 7) == 0xD5
    ensures Steps(0xD5, 7) == 0xCD && Steps(0xCD, 7) == 0x63 && Steps(0x63, 7) == 0xAB
    ensures Steps(0xAB, 7) == 0xAA && Steps(0xAA, 7) == 0x2A && Steps(0x2A, 7) == 0xF2
    ensures Steps(0xF2, 7) == 0xE8 && Steps(0xE8, 7) == 0x37 && Steps(0x37, 7) == 0x3E
    ensures Steps(0x3E, 7) == 0x0B && Steps(0x0B, 7) == 0x44
  {
  }

  function WordFrom(r: bv8): bv64 {
    Word(First(r), First(Steps(r, 1)), First(Steps(r, 2)), First(Steps(r, 3)),
         First(Steps(r, 4)), First(Steps(r, 5)), First(Steps(r, 6)))
  }

  lemma BitsRead()
    ensures WordFrom(0x01) == Word(true, false, false, false, false, false, false)
    ensures WordFrom(0x80) == Word(false, true, false, true, true, false, false)
    ensures WordFrom(0xD8) == Word(false, true, true, true, true, false, true)
    ensures WordFrom(0x1A) == Word(false, false, false, false, true, true, true)
    ensures WordFrom(0xDF) == Word(true, true, true, true, true, false, false)
    ensures WordFrom(0x09) == Word(true, false, false, false, false, true, false)
    ensures WordFrom(0x35) == Word(true, false, false, true, true, true, true)
    ensures WordFrom(0x4F) == Word(true, false, true, false, true, false, true)
    ensures WordFrom(0xCA) == Word(false, true, true, true, false, false, false)
    ensures WordFrom(0x70) == Word(false, false, true, true, false, false, false)
    ensures WordFrom(0x41) == Word(true, false, true, false, true, true, false)
    ensures WordFrom(0xEC) == Word(false, true, true, false, false, true, false)
    ensures WordFrom(0xD5) == Word(true, true, true, true, true, true, false)
    ensures WordFrom(0xCD) == Word(true, true, true, true, false, false, true)
    ensures WordFrom(0x63) == Word(true, false, true, true, true, false, true)
    ensures WordFrom(0xAB) == Word(true, true, false, false, true, false, true)
    ensures WordFrom(0xAA) == Word(false, true, false, false, true, false, true)
    ensures WordFrom(0x2A) == Word(false, false, false, true, false, false, true)
    ensures WordFrom(0xF2) == Word(false, true, true, false, true, false, false)
    ensures WordFrom(0xE8) == Word(false, true, true, false, false, true, true)
    ensures WordFrom(0x37) == Word(true, false, false, true, true, true, true)
    ensures WordFrom(0x3E) == Word(false, false, false, true, true, false, true)
    ensures WordFrom(0x0B) == Word(true, false, false, false, false, true, false)
    ensures WordFrom(0x44) == Word(false, false, true, false, true, true, true)
  {
    hide Word;
  }

  lemma WordTable()
    ensures Lane(Word(true, false, false, false, false, false, false)) == RC(0)
    ensures Lane(Word(false, true, false, true, true, false, false)) == RC(1)
    ensures Lane(Word(false, true, true, true, true, false, true)) == RC(2)
    ensures Lane(Word(false, false, false, false, true, true, true)) == RC(3)
    ensures Lane(Word(true, true, true, true, true, false, false)) == RC(4)
    ensures Lane(Word(true, false, false, false, false, true, false)) == RC(5)
    ensures Lane(Word(true, false, false, true, true, true, true)) == RC(6)
    ensures Lane(Word(true, false, true, false, true, false, true)) == RC(7)
    ensures Lane(Word(false, true, true, true, false, false, false)) == RC(8)
    ensures Lane(Word(false, false, true, true, false, false, false)) == RC(9)
    ensures Lane(Word(true, false, true, false, true, true, false)) == RC(10)
    ensures Lane(Word(false, true, true, false, false, true, false)) == RC(11)
    ensures Lane(Word(true, true, true, true, true, true, false)) == RC(12)
    ensures Lane(Word(true, true, true, true, false, false, true)) == RC(13)
    ensures Lane(Word(true, false, true, true, true, false, true)) == RC(14)
    ensures Lane(Word(true, true, false, false, true, false, true)) == RC(15)
    ensures Lane(Word(false, true, false, false, true, false, true)) == RC(16)
    ensures Lane(Word(false, false, false, true, false, false, true)) == RC(17)
    ensures Lane(Word(false, true, true, false, true, false, false)) == RC(18)
    ensures Lane(Word(false, true, true, false, false, true, true)) == RC(19)
    ensures Lane(Word(true, false, false, true, true, true, true)) == RC(20)
    ensures Lane(Word(false, false, false, true, true, false, true)) == RC(21)
    ensures Lane(Word(true, false, false, false, false, true, false)) == RC(22)
    ensures Lane(Word(false, false, true, false, true, true, true)) == RC(23)
  {
  }

  lemma RegisterWord(ir: nat)
    requires ir < 24
    ensures Lane(WordFrom(RoundRegister(ir))) == RC(ir)
  {
    hide WordFrom, Word, RC;
    BitsRead();
    WordTable();
    match ir
    case 0 => case 1 => case 2 => case 3 => case 4 => case 5 => case 6 => case 7 =>
    case 8 => case 9 => case 10 => case 11 => case 12 => case 13 => case 14 => case 15 =>
    case 16 => case 17 => case 18 => case 19 => case 20 => case 21 => case 22 => case _ =>
  }

  lemma NextRegister(ir: nat)
    requires ir < 23
    ensures Steps(RoundRegister(ir), 7) == RoundRegister(ir + 1)
  {
    hide Steps;
    RegistersFollow();
  }

  lemma {:induction false} StepsFollow(t: nat, n: nat)
    ensures Lfsr(t + n) == Steps(Lfsr(t), n)
  {
    hide LfsrStep;
    if n > 0 {
      StepsFollow(t, n - 1);
    }
  }

  lemma WordIsWordFrom(ir: nat)
    ensures RcWord(ir) == WordFrom(Lfsr(7 * ir))
  {
    hide LfsrStep, Steps, Lfsr, Word, First;
    StepsFollow(7 * ir, 1);
    StepsFollow(7 * ir, 2);
    StepsFollow(7 * ir, 3);
    StepsFollow(7 * ir, 4);
    StepsFollow(7 * ir, 5);
    StepsFollow(7 * ir, 6);
  }

  lemma FirstRegister()
    ensures Lfsr(0) == RoundRegister(0)
  {
  }

  lemma {:induction false} RegisterAtRound(ir: nat)
    requires ir < 24
    ensures Lfsr(7 * ir) == RoundRegister(ir)
  {
    hide Lfsr, Steps, RoundRegister;
    if ir == 0 {
      FirstRegister();
    } else {
      RegisterAtRound(ir - 1);
      StepsFollow(7 * (ir - 1), 7);
      NextRegister(ir - 1);
    }
  }

  /** The program's table of round constants is the one FIPS 202 generates. */
  lemma RoundConstantsAreGenerated(ir: nat)
    requires ir < 24
    ensures Lane(RcWord(ir)) == RC(ir)
  {
    hide RcWord, WordFrom, RC, Lfsr, RoundRegister;
    WordIsWordFrom(ir);
    RegisterAtRound(ir);
    RegisterWord(ir);
  }
}
