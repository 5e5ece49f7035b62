/** The order of x modulo the CRC polynomial is 32767: the power itself is 1, and none of its three largest
    proper divisors is the exponent of another. */
module CrcOrder {
  import opened Bits
  import opened Crc16
  import opened Divisors
  import opened MachineWords
  import opened Polynomials

  // ---- Powers of x ----

  /** `power(n, v)` says that x^n is the word `v`. */
  type Powers = (nat, bv16) -> bool

  function PowersOfX(): Powers
  {
    (n: nat, v: bv16) => ShiftTimes(One(), n) == WordOf(v)
  }

  predicate Doubles(power: Powers, n: nat, v: bv16)
  {
    power(n, v) ==> power(2 * n, SquareBv(v)) && power(2 * n + 1, ShiftBv(SquareBv(v)))
  }

  /** What is true of the powers of x, and all that the following needs of them. */
  ghost predicate PowerLaws(power: Powers)
  {
    && power(0, 1)
    && (forall n, v {:trigger Doubles(power, n, v)} :: Doubles(power, n, v))
    && (forall n, v {:trigger Unique(power, n, v)} :: Unique(power, n, v))
    && (forall a, b {:trigger Periodic(power, a, b)} :: Periodic(power, a, b))
  }

  /** x^n is not both 1 and something else. */
  predicate Unique(power: Powers, n: nat, v: bv16)
  {
    power(n, v) && power(n, 1) ==> v == 1
  }

  /** If x^a is 1, then x^(a + b) is 1 exactly if x^b is. */
  predicate Periodic(power: Powers, a: nat, b: nat)
  {
    power(a, 1) ==> (power(a + b, 1) <==> power(b, 1))
  }

  lemma PowerDoubles(n: nat, w: Word, s: Word, t: Word)
    requires ShiftTimes(One(), n) == w && s == Square(w) && t == Shift(s)
    ensures ShiftTimes(One(), n + n) == s && ShiftTimes(One(), n + n + 1) == t
  {
    SquareOfPower(w, n);
    NextShift(s, n + n);
  }

  lemma PowersDouble(n: nat, v: bv16, s: bv16, t: bv16)
    requires WordOf(s) == Square(WordOf(v)) && WordOf(t) == Shift(WordOf(s))
    ensures PowersOfX()(n, v) ==> PowersOfX()(2 * n, s) && PowersOfX()(2 * n + 1, t)
  {
    if PowersOfX()(n, v) {
      PowerDoubles(n, WordOf(v), WordOf(s), WordOf(t));
    }
  }

  lemma PowerPeriodic(a: nat, b: nat)
    requires ShiftTimes(One(), a) == One()
    ensures ShiftTimes(One(), a + b) == ShiftTimes(One(), b)
  {
    ShiftTimesAdd(One(), a, b);
  }

  lemma PowersAreUnique(n: nat, v: bv16)
    ensures Unique(PowersOfX(), n, v)
  {
    if PowersOfX()(n, v) && PowersOfX()(n, 1) {
      WordOfIsInjective(v, 1);
    }
  }

  lemma PowersArePeriodic(a: nat, b: nat)
    ensures Periodic(PowersOfX(), a, b)
  {
    WordOfNumbers();
    if PowersOfX()(a, 1) {
      PowerPeriodic(a, b);
    }
  }

  lemma ZerothPower()
    ensures PowersOfX()(0, 1)
  {
    WordOfNumbers();
  }

  lemma PowersObeyLaws()
    ensures PowerLaws(PowersOfX())
  {
    ZerothPower();
    forall n: nat, v: bv16
      ensures Doubles(PowersOfX(), n, v)
    {
      WordOfSquare(v);
      WordOfShift(SquareBv(v));
      PowersDouble(n, v, SquareBv(v), ShiftBv(SquareBv(v)));
    }
    forall n: nat, v: bv16
      ensures Unique(PowersOfX(), n, v)
    {
      PowersAreUnique(n, v);
    }
    forall a: nat, b: nat
      ensures Periodic(PowersOfX(), a, b)
    {
      PowersArePeriodic(a, b);
    }
  }

  lemma NextPower(power: Powers, n: nat, v: bv16, n': nat, v': bv16)
    requires PowerLaws(power) && power(n, v)
    requires (n' == 2 * n && v' == SquareBv(v)) || (n' == 2 * n + 1 && v' == ShiftBv(SquareBv(v)))
    ensures power(n', v')
  {
    assert Doubles(power, n, v);
  }

  /** x^32767 is 1. */
  lemma OrderIsPeriod(power: Powers)
    requires PowerLaws(power)
    ensures power(ORDER, 1)
  {
    NextPower(power, 0, 1, 1, 0x2);
    NextPower(power, 1, 0x2, 3, 0x8);
    NextPower(power, 3, 0x8, 7, 0x80);
    NextPower(power, 7, 0x80, 15, 0x8000);
    NextPower(power, 15, 0x8000, 31, 0x1b98);
    NextPower(power, 31, 0x1b98, 63, 0xd420);
    NextPower(power, 63, 0xd420, 127, 0x577e);
    NextPower(power, 127, 0x577e, 255, 0xcf04);
    NextPower(power, 255, 0xcf04, 511, 0x9fe);
    NextPower(power, 511, 0x9fe, 1023, 0x1b62);
    NextPower(power, 1023, 0x1b62, 2047, 0x7ea8);
    NextPower(power, 2047, 0x7ea8, 4095, 0x554f);
    NextPower(power, 4095, 0x554f, 8191, 0x440e);
    NextPower(power, 8191, 0x440e, 16383, 0x222c);
    NextPower(power, 16383, 0x222c, 32767, 0x1);
  }

  /** x^4681 is not 1. */
  lemma Not4681(power: Powers)
    requires PowerLaws(power)
    ensures !power(4681, 1)
  {
    NextPower(power, 0, 1, 1, 0x2);
    NextPower(power, 1, 0x2, 2, 0x4);
    NextPower(power, 2, 0x4, 4, 0x10);
    NextPower(power, 4, 0x10, 9, 0x200);
    NextPower(power, 9, 0x200, 18, 0x4084);
    NextPower(power, 18, 0x4084, 36, 0x4363);
    NextPower(power, 36, 0x4363, 73, 0x8fa6);
    NextPower(power, 73, 0x8fa6, 146, 0x4388);
    NextPower(power, 146, 0x4388, 292, 0x1396);
    NextPower(power, 292, 0x1396, 585, 0x4500);
    NextPower(power, 585, 0x4500, 1170, 0x163);
    NextPower(power, 1170, 0x163, 2340, 0x424);
    NextPower(power, 2340, 0x424, 4681, 0x2c42);
    assert Unique(power, 4681, 0x2c42);
  }

  /** x^1057 is not 1. */
  lemma Not1057(power: Powers)
    requires PowerLaws(power)
    ensures !power(1057, 1)
  {
    NextPower(power, 0, 1, 1, 0x2);
    NextPower(power, 1, 0x2, 2, 0x4);
    NextPower(power, 2, 0x4, 4, 0x10);
    NextPower(power, 4, 0x10, 8, 0x100);
    NextPower(power, 8, 0x100, 16, 0x1021);
    NextPower(power, 16, 0x1021, 33, 0x6e60);
    NextPower(power, 33, 0x6e60, 66, 0xc1c6);
    NextPower(power, 66, 0xc1c6, 132, 0x4e8a);
    NextPower(power, 132, 0x4e8a, 264, 0x5946);
    NextPower(power, 264, 0x5946, 528, 0x78b3);
    NextPower(power, 528, 0x78b3, 1057, 0xf2af);
    assert Unique(power, 1057, 0xf2af);
  }

  /** x^217 is not 1. */
  lemma Not217(power: Powers)
    requires PowerLaws(power)
    ensures !power(217, 1)
  {
    NextPower(power, 0, 1, 1, 0x2);
    NextPower(power, 1, 0x2, 3, 0x8);
    NextPower(power, 3, 0x8, 6, 0x40);
    NextPower(power, 6, 0x40, 13, 0x2000);
    NextPower(power, 13, 0x2000, 27, 0x89a9);
    NextPower(power, 27, 0x89a9, 54, 0x1168);
    NextPower(power, 54, 0x1168, 108, 0x3750);
    NextPower(power, 108, 0x3750, 217, 0x48e3);
    assert Unique(power, 217, 0x48e3);
  }

  // ---- The order ----

  lemma {:induction false} MultipleIsPeriod(power: Powers, a: nat, k: nat)
    requires PowerLaws(power) && power(a, 1)
    ensures power(k * a, 1)
  {
    if k > 0 {
      MultipleIsPeriod(power, a, k - 1);
      assert Periodic(power, a, (k - 1) * a);
      assert a + (k - 1) * a == k * a;
    }
  }

  /** Two periods have a common divisor that is one. */
  lemma {:induction false} CommonPeriod(power: Powers, a: nat, b: nat) returns (g: nat, k: nat, l: nat)
    requires PowerLaws(power) && a > 0 && b > 0 && power(a, 1) && power(b, 1)
    ensures power(g, 1) && g > 0 && a == k * g && b == l * g
    decreases a + b
  {
    if a == b {
      g, k, l := a, 1, 1;
    } else if a > b {
      assert Periodic(power, b, a - b);
      g, k, l := CommonPeriod(power, a - b, b);
      assert (k + l) * g == k * g + l * g;
      k := k + l;
    } else {
      assert Periodic(power, a, b - a);
      g, k, l := CommonPeriod(power, a, b - a);
      assert (k + l) * g == k * g + l * g;
      l := k + l;
    }
  }

  lemma NoShorterPeriod(power: Powers, r: nat)
    requires PowerLaws(power) && 0 < r < ORDER
    ensures !power(r, 1)
  {
    if power(r, 1) {
      OrderIsPeriod(power);
      var g, k, l := CommonPeriod(power, ORDER, r);
      LessOften(l, k, g);
      var c := ProperDivisor(g, k);
      MultipleIsPeriod(power, g, c);
      Not4681(power);
      Not1057(power);
      Not217(power);
      assert false;
    }
  }

  /** x^d is 1 exactly if d is a multiple of 32767. */
  lemma OrderOfX(d: nat)
    ensures ShiftTimes(One(), d) == One() <==> d % ORDER == 0
  {
    PowersObeyLaws();
    WordOfNumbers();
    OrderExactly(PowersOfX(), d);
  }

  lemma OrderExactly(power: Powers, d: nat)
    requires PowerLaws(power)
    ensures power(d, 1) <==> d % ORDER == 0
  {
    var q, r := d / ORDER, d % ORDER;
    OrderIsPeriod(power);
    MultipleIsPeriod(power, ORDER, q);
    assert Periodic(power, q * ORDER, r);
    if r > 0 {
      NoShorterPeriod(power, r);
    }
  }
}
