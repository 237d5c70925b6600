/** Why routing by a counter modulo the number of routees treats them alike. */
module RoundRobin {
  import opened Arith

  /** The slots of consecutive routes over n routees, the first at counter `start`. */
  ghost predicate InTurn(slots: seq<nat>, start: nat, n: nat)
    requires n > 0
  {
    forall k :: 0 <= k < |slots| ==> slots[k] == (start + k) % n
  }

  /** Each of n slots is used as often as any other, up to one use: |slots| / n times, rounded
      down or up.  In particular n consecutive routes use each slot exactly once. */
  ghost predicate IsFair(slots: seq<nat>, n: nat)
    requires n > 0
  {
    forall slot: nat :: slot < n ==> |slots| / n <= multiset(slots)[slot] <= (|slots| + n - 1) / n
  }

  /** How many counters below x fall on a slot of n. */
  function Uses(x: nat, slot: nat, n: nat): int
    requires slot < n
  {
    (x + n - 1 - slot) / n
  }

  /** One more counter is one more use of its own slot only. */
  lemma UsesStep(x: nat, slot: nat, n: nat)
    requires slot < n
    ensures Uses(x + 1, slot, n) == Uses(x, slot, n) + if x % n == slot then 1 else 0
  {
    var q, m := x / n, x % n;
    assert x == q * n + m;
    if m < slot {
      DivModUnique(x + n - 1 - slot, q, m + n - 1 - slot, n);
      DivModUnique(x + n - slot, q, m + n - slot, n);
    } else if m == slot {
      DivModUnique(x + n - 1 - slot, q, n - 1, n);
      DivModUnique(x + n - slot, q + 1, 0, n);
    } else {
      DivModUnique(x + n - 1 - slot, q + 1, m - 1 - slot, n);
      DivModUnique(x + n - slot, q + 1, m - slot, n);
    }
  }

  lemma {:induction false} CountInTurn(slots: seq<nat>, start: nat, slot: nat, n: nat)
    requires slot < n && InTurn(slots, start, n)
    ensures multiset(slots)[slot] == Uses(start + |slots|, slot, n) - Uses(start, slot, n)
  {
    hide Uses;
    if slots != [] {
      var init, last := slots[..|slots| - 1], slots[|slots| - 1];
      CountInTurn(init, start, slot, n);
      UsesStep(start + |init|, slot, n);
      assert slots == init + [last];
    }
  }

  /** Within m steps of y the quotient by n grows by m / n, rounded down or up. */
  lemma QuotientGrowth(y: nat, m: nat, n: nat)
    requires n > 0
    ensures m / n <= (y + m) / n - y / n <= (m + n - 1) / n
  {
    var q, r, p, t := y / n, y % n, m / n, m % n;
    assert y == q * n + r && m == p * n + t;
    assert y + m == (q + p) * n + (r + t);
    if r + t < n {
      DivModUnique(y + m, q + p, r + t, n);
    } else {
      DivModUnique(y + m, q + p + 1, r + t - n, n);
    }
    if t == 0 {
      DivModUnique(m + n - 1, p, n - 1, n);
    } else {
      DivModUnique(m + n - 1, p + 1, t - 1, n);
    }
  }

  lemma UsesGrow(x: nat, m: nat, slot: nat, n: nat)
    requires slot < n
    ensures m / n <= Uses(x + m, slot, n) - Uses(x, slot, n) <= (m + n - 1) / n
  {
    QuotientGrowth(x + n - 1 - slot, m, n);
  }

  /** Round robin is fair over every stretch of routes. */
  lemma TurnsAreFair(slots: seq<nat>, start: nat, n: nat)
    requires n > 0 && InTurn(slots, start, n)
    ensures IsFair(slots, n)
    ensures |slots| == n ==> forall slot: nat :: slot < n ==> multiset(slots)[slot] == 1
  {
    hide InTurn, Uses;
    forall slot: nat | slot < n
      ensures |slots| / n <= multiset(slots)[slot] <= (|slots| + n - 1) / n
    {
      CountInTurn(slots, start, slot, n);
      UsesGrow(start, |slots|, slot, n);
    }
    if |slots| == n {
      DivModUnique(n, 1, 0, n);
      DivModUnique(n + n - 1, 1, n - 1, n);
    }
  }
}
