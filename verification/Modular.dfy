/** Remainders by a variable divisor. */
module Modular {

  lemma DivMod(n: int, m: nat)
    requires m > 0
    ensures n == (n / m) * m + n % m && 0 <= n % m < m
  {
  }

  lemma Spread(a: int, b: int, m: int)
    ensures (a - b) * m == a * m - b * m
  {
  }

  lemma NoSmallMultiple(x: int, m: nat, d: int)
    requires x * m == d && 0 - m < d < m
    ensures x == 0
  {
    if x >= 1 {
      Spread(x, 1, m);
      NonNegative(x - 1, m);
    } else if x <= -1 {
      Spread(-1, x, m);
      NonNegative(-1 - x, m);
    }
  }

  lemma NonNegative(x: nat, m: nat)
    ensures x * m >= 0
  {
  }

  lemma ModIs(n: int, m: nat, q: int, r: nat)
    requires n == q * m + r && r < m
    ensures n % m == r
  {
    var q', r' := n / m, n % m;
    DivMod(n, m);
    Spread(q', q, m);
    NoSmallMultiple(q' - q, m, r - r');
  }

  /** Remainders can be subtracted. */
  lemma DifferenceMod(a: nat, b: nat, m: nat)
    requires m > 0
    ensures (a % m + m - b % m) % m == (a - b) % m
  {
    var qa, qb, qd := a / m, b / m, (a - b) / m;
    var r := (a - b) % m;
    DivMod(a, m);
    DivMod(b, m);
    DivMod(a - b, m);
    Spread(qd, qa - qb - 1, m);
    Spread(qa - qb, 1, m);
    Spread(qa, qb, m);
    ModIs(a % m + m - b % m, m, qd - (qa - qb - 1), r);
  }

  lemma NextMod(n: nat, m: nat)
    requires m > 1
    ensures (n % m + 1) % m == (n + 1) % m
  {
    var q, r := n / m, n % m;
    DivMod(n, m);
    if r + 1 < m {
      ModIs(n + 1, m, q, r + 1);
      ModIs(r + 1, m, 0, r + 1);
    } else {
      Spread(q, -1, m);
      ModIs(n + 1, m, q + 1, 0);
      ModIs(r + 1, m, 1, 0);
    }
  }
}
