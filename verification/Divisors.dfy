/** The divisors of 32767 = 7 * 31 * 151. */
module Divisors {

  const ORDER: nat := 32767

  lemma Distribute(x: int, y: int, d: int)
    ensures (x + y) * d == x * d + y * d
  {
  }

  lemma Regroup(a: int, b: int, m: int, n: int)
    ensures a * (m - n) + b * n == a * m + (b - a) * n
  {
  }

  lemma {:induction false} Bezout(m: nat, n: nat) returns (d: nat, x: nat, y: nat, a: int, b: int)
    requires m > 0 && n > 0
    ensures m == x * d && n == y * d && d == a * m + b * n
    decreases m + n
  {
    if m == n {
      d, x, y, a, b := m, 1, 1, 1, 0;
    } else if m > n {
      d, x, y, a, b := Bezout(m - n, n);
      Distribute(x, y, d);
      Regroup(a, b, m, n);
      x, b := x + y, b - a;
    } else {
      d, x, y, a, b := Bezout(m, n - m);
      Distribute(x, y, d);
      Regroup(b, a, n, m);
      y, a := x + y, a - b;
    }
  }

  lemma SevenIsPrime(x: nat, y: nat)
    requires x * y == 7
    ensures x == 1 || y == 1
  {
    FactorsAtMost(x, y, 2);
    assert x != 2 && y != 2;
  }

  lemma ThirtyOneIsPrime(x: nat, y: nat)
    requires x * y == 31
    ensures x == 1 || y == 1
  {
    FactorsAtMost(x, y, 5);
    assert x != 2 && x != 3 && x != 4 && x != 5 && y != 2 && y != 3 && y != 4 && y != 5;
  }

  lemma OneFiftyOneIsPrime(x: nat, y: nat)
    requires x * y == 151
    ensures x == 1 || y == 1
  {
    FactorsAtMost(x, y, 12);
    assert x != 2 && x != 3 && x != 4 && x != 5 && x != 6 && x != 7 && x != 8 && x != 9 && x != 10 && x != 11 && x != 12;
    assert y != 2 && y != 3 && y != 4 && y != 5 && y != 6 && y != 7 && y != 8 && y != 9 && y != 10 && y != 11 && y != 12;
  }

  lemma ProductGrows(a: nat, x: nat, b: nat, y: nat)
    requires a <= x && b <= y
    ensures a * b <= x * y
  {
    assert x * y - a * b == (x - a) * y + a * (y - b);
  }

  /** One of two factors is at most the square root. */
  lemma FactorsAtMost(x: nat, y: nat, m: nat)
    requires 0 < x * y < (m + 1) * (m + 1)
    ensures 0 < x && 0 < y && (x <= m || y <= m)
  {
    if x > m && y > m {
      ProductGrows(m + 1, x, m + 1, y);
    }
  }

  /** Euclid's lemma for the two primes needed: what divides a product divides a factor. */
  lemma PrimeDivides(p: nat, g: nat, k: nat, q: nat) returns (c: nat)
    requires (p == 7 || p == 31) && g * k == p * q && k > 0
    ensures k == c * p || g == c * p
  {
    var d, x, y, a, b := Bezout(p, k);
    if p == 7 {
      SevenIsPrime(x, d);
    } else {
      ThirtyOneIsPrime(x, d);
    }
    if d == 1 {
      calc {
        g;
        g * (a * p + b * k);
        (g * a) * p + b * (g * k);
        (g * a) * p + b * (p * q);
        (g * a + b * q) * p;
      }
      NatFactor(g, g * a + b * q, p);
      c := g * a + b * q;
    } else {
      c := y;
    }
  }

  lemma NatFactor(g: nat, c: int, p: nat)
    requires g == c * p && p > 0
    ensures c >= 0
  {
  }

  /** A proper divisor of the order divides one of the three. */
  lemma ProperDivisor(g: nat, k: nat) returns (c: nat)
    requires g * k == ORDER && k > 1
    ensures c * g == 4681 || c * g == 1057 || c * g == 217
  {
    c := PrimeDivides(7, g, k, 4681);
    if k == c * 7 {
      CancelFactor(c * g, 4681, 7, g * k);
    } else {
      var g1 := c;
      CancelFactor(g1 * k, 4681, 7, g * k);
      c := PrimeDivides(31, g1, k, 151);
      if k == c * 31 {
        CancelFactor(c * g, 1057, 31, g * k);
      } else {
        CancelFactor(c * k, 151, 31, g1 * k);
        OneFiftyOneIsPrime(c, k);
      }
    }
  }

  lemma CancelFactor(a: nat, b: nat, p: nat, n: nat)
    requires p > 0 && a * p == n == b * p
    ensures a == b
  {
  }

  lemma LessOften(l: nat, k: nat, g: nat)
    requires l * g < k * g
    ensures l < k
  {
  }
}
