// Minimum and division, shared by the rings, the PRP lists and the reconnect loop.
module Arith {
  function Min(a: nat, b: nat): nat {
    if a < b then a else b
  }

  // DIV_ROUND_UP
  function CeilDiv(a: nat, b: nat): nat
    requires b > 0
  {
    (a + b - 1) / b
  }

  lemma MulMonotone(a: nat, b: nat, d: nat)
    requires a <= b
    ensures d * a <= d * b
  {
  }

  lemma CeilDivOne(a: nat, d: nat)
    requires 0 < a <= d
    ensures CeilDiv(a, d) == 1
  {
  }

  lemma DivUnique(a: nat, d: nat, q: nat, r: nat)
    requires d > 0 && r < d && a == d * q + r
    ensures a / d == q && a % d == r
  {
    if a / d > q {
      MulMonotone(q + 1, a / d, d);
    } else if a / d < q {
      MulMonotone(a / d + 1, q, d);
    }
  }

  // Advancing a ring index by one.
  lemma ModStep(a: nat, n: nat)
    requires n > 0
    ensures (a + 1) % n == (if a % n == n - 1 then 0 else a % n + 1)
    ensures (a + 1) / n == (if a % n == n - 1 then a / n + 1 else a / n)
  {
    if a % n == n - 1 {
      DivUnique(a + 1, n, a / n + 1, 0);
    } else {
      DivUnique(a + 1, n, a / n, a % n + 1);
    }
  }

  // Two counts less than a round apart lie in different slots.
  lemma ModApart(a: nat, b: nat, n: nat)
    requires a < b < a + n
    ensures a % n != b % n
  {
    if b / n <= a / n {
      MulMonotone(b / n, a / n, n);
    } else {
      MulMonotone(a / n + 1, b / n, n);
    }
  }

  // A round apart they share the slot, in consecutive rounds.
  lemma ModRound(a: nat, n: nat)
    requires n > 0
    ensures (a + n) % n == a % n && (a + n) / n == a / n + 1
  {
    DivUnique(a + n, n, a / n + 1, a % n);
  }

  // The slot of a ring of n that the j-th entry falls on.
  function Slot(j: nat, n: nat): (k: nat)
    requires n > 0
    ensures k < n
  {
    j % n
  }

  lemma NextSlot(j: nat, n: nat)
    requires n > 0
    ensures Slot(j + 1, n) == if Slot(j, n) + 1 == n then 0 else Slot(j, n) + 1
  {
    ModStep(j, n);
  }

  lemma SlotsApart(a: nat, b: nat, n: nat)
    requires a <= b < a + n
    ensures Slot(a, n) == Slot(b, n) <==> a == b
  {
    if a < b {
      ModApart(a, b, n);
    }
  }
}
