/** Keccak-f[1600] as FIPS 202 defines it (sections 3.2 to 3.4), lane by lane. */
module Fips202 {
  import opened Lanes

  // ---- step mappings, section 3.2 ---------------------------------------------------

  /** Section 3.2.1: the parity C[x] of column sheet x. */
  function Parity(s: State, x: int): Lane
    requires 0 <= x < 5
  {
    Xor(Xor(Xor(Xor(s[x], s[x + 5]), s[x + 10]), s[x + 15]), s[x + 20])
  }

  /** Section 3.2.1: D[x] = C[x-1] xor rot(C[x+1], 1). */
  function Effect(s: State, x: int): Lane
    requires 0 <= x < 5
  {
    Xor(Parity(s, (x + 4) % 5), Rotl(Parity(s, (x + 1) % 5), 1))
  }

  function Theta(s: State): State {
    seq(25, i requires 0 <= i < 25 => Xor(s[i], Effect(s, i % 5)))
  }

  /** Table 2 of section 3.2.2, modulo the lane length. */
  function RhoOffset(i: int): (n: nat)
    requires 0 <= i < 25
    ensures n < 64 && IsOffset(n)
  {
    match i
    case 0 => 0   case 1 => 1   case 2 => 62  case 3 => 28  case 4 => 27
    case 5 => 36  case 6 => 44  case 7 => 6   case 8 => 55  case 9 => 20
    case 10 => 3  case 11 => 10 case 12 => 43 case 13 => 25 case 14 => 39
    case 15 => 41 case 16 => 45 case 17 => 15 case 18 => 21 case 19 => 8
    case 20 => 18 case 21 => 2  case 22 => 61 case 23 => 56 case _ => 14
  }

  function Rho(s: State): State {
    seq(25, i requires 0 <= i < 25 => Rotl(s[i], RhoOffset(i)))
  }

  /** Section 3.2.3: lane (x, y) comes from lane (x + 3y, x). */
  function PiIndex(i: int): (j: int)
    requires 0 <= i < 25
    ensures 0 <= j < 25
  {
    (i % 5 + 3 * (i / 5)) % 5 + 5 * (i % 5)
  }

  function Pi(s: State): State {
    seq(25, i requires 0 <= i < 25 => s[PiIndex(i)])
  }

  /** Section 3.2.4 on one lane and its two right neighbours in the row. */
  function ChiLane(a: Lane, b: Lane, c: Lane): Lane {
    Xor(a, And(Not(b), c))
  }

  /** Index of the lane k places to the right in the same row. */
  function Right(i: int, k: nat): (j: int)
    requires 0 <= i < 25
    ensures 0 <= j < 25
  {
    (i % 5 + k) % 5 + 5 * (i / 5)
  }

  function Chi(s: State): State {
    seq(25, i requires 0 <= i < 25 => ChiLane(s[i], s[Right(i, 1)], s[Right(i, 2)]))
  }

  function Iota(s: State, rc: Lane): State {
    s[0 := Xor(s[0], rc)]
  }

  // ---- rounds, section 3.3 ----------------------------------------------------------

  /** The 24 round constants. */
  function RC(r: int): Lane
    requires 0 <= r < 24
  {
    Lane(RoundConstant(r))
  }

  function RoundConstant(r: int): bv64
    requires 0 <= r < 24
  {
    if r < 4 then (if r == 0 then 0x0000000000000001 else if r == 1 then 0x0000000000008082
     else if r == 2 then 0x800000000000808A else 0x8000000080008000) else
    if r < 8 then (if r == 4 then 0x000000000000808B else if r == 5 then 0x0000000080000001
     else if r == 6 then 0x8000000080008081 else 0x8000000000008009) else
    if r < 12 then (if r == 8 then 0x000000000000008A else if r == 9 then 0x0000000000000088
     else if r == 10 then 0x0000000080008009 else 0x000000008000000A) else
    if r < 16 then (if r == 12 then 0x000000008000808B else if r == 13 then 0x800000000000008B
     else if r == 14 then 0x8000000000008089 else 0x8000000000008003) else
    if r < 20 then (if r == 16 then 0x8000000000008002 else if r == 17 then 0x8000000000000080
     else if r == 18 then 0x000000000000800A else 0x800000008000000A) else
    (if r == 20 then 0x8000000080008081 else if r == 21 then 0x8000000000008080
     else if r == 22 then 0x0000000080000001 else 0x8000000080008008)
  }

  function Round(s: State, rc: Lane): State {
    Iota(Chi(Pi(Rho(Theta(s)))), rc)
  }

  /** The first n rounds. */
  function Rounds(s: State, n: int): State
    requires 0 <= n <= 24
    decreases n
  {
    if n == 0 then s else Round(Rounds(s, n - 1), RC(n - 1))
  }

  /** Keccak-f[1600]: 24 rounds. */
  function KeccakF(s: State): State {
    Rounds(s, 24)
  }
}
