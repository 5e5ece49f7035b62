/** The CRC register as a polynomial over two elements, modulo the CRC polynomial: shifting multiplies by x. */
module Polynomials {
  import opened Bits
  import opened Crc16

  // ---- Exclusive or ----

  lemma XorCancels(a: Word, b: Word, c: Word)
    ensures Xor(Xor(a, b), Xor(b, c)) == Xor(a, c)
  {
  }

  lemma XorNothing(a: Word)
    ensures Xor(a, ZERO) == a && Xor(ZERO, a) == a
  {
  }

  lemma XorSwap(a: Word, b: Word, c: Word, d: Word)
    ensures Xor(Xor(a, b), Xor(c, d)) == Xor(Xor(a, c), Xor(b, d))
  {
  }

  function Keep(b: bool, w: Word): Word
  {
    if b then w else ZERO
  }

  lemma KeepXor(b: bool, v: Word, w: Word)
    ensures Keep(b, Xor(v, w)) == Xor(Keep(b, v), Keep(b, w))
  {
    XorNothing(ZERO);
  }

  // ---- Words as polynomials ----

  /** The polynomial 1. */
  function One(): Word
  {
    Zeros(16)[15 := true]
  }

  /** The polynomial with coefficients `bits`, highest first, times `v`. */
  function Times(bits: seq<bool>, v: Word): Word
  {
    if bits == [] then ZERO
    else Xor(Shift(Times(bits[..|bits| - 1], v)), Keep(bits[|bits| - 1], v))
  }

  lemma ShiftTimesAdd(w: Word, a: nat, b: nat)
    ensures ShiftTimes(w, a + b) == ShiftTimes(ShiftTimes(w, a), b)
    decreases a
  {
    if a > 0 {
      ShiftTimesAdd(Shift(w), a - 1, b);
    }
  }

  lemma {:induction false} TimesXor(bits: seq<bool>, v: Word, w: Word)
    ensures Times(bits, Xor(v, w)) == Xor(Times(bits, v), Times(bits, w))
  {
    if bits == [] {
      XorNothing(ZERO);
    } else {
      var front, b := bits[..|bits| - 1], bits[|bits| - 1];
      TimesXor(front, v, w);
      ShiftLinear(Times(front, v), Times(front, w));
      KeepXor(b, v, w);
      XorSwap(Shift(Times(front, v)), Shift(Times(front, w)), Keep(b, v), Keep(b, w));
    }
  }

  lemma ShiftKeep(b: bool, v: Word)
    ensures Shift(Keep(b, v)) == Keep(b, Shift(v))
  {
    ShiftZero(ZERO);
  }

  lemma {:induction false} TimesShift(bits: seq<bool>, v: Word)
    ensures Times(bits, Shift(v)) == Shift(Times(bits, v))
  {
    if bits == [] {
      ShiftZero(ZERO);
    } else {
      var front, b := bits[..|bits| - 1], bits[|bits| - 1];
      TimesShift(front, v);
      ShiftKeep(b, v);
      ShiftLinear(Shift(Times(front, v)), Keep(b, v));
    }
  }

  lemma {:induction false} TimesShifts(bits: seq<bool>, v: Word, m: nat)
    ensures Times(bits, ShiftTimes(v, m)) == ShiftTimes(Times(bits, v), m)
    decreases m
  {
    if m > 0 {
      TimesShifts(bits, Shift(v), m - 1);
      TimesShift(bits, v);
    }
  }

  lemma {:induction false} TimesKeep(bits: seq<bool>, b: bool, v: Word)
    ensures Times(bits, Keep(b, v)) == Keep(b, Times(bits, v))
  {
    if !b {
      XorNothing(ZERO);
      TimesXor(bits, ZERO, ZERO);
      XorZero(Times(bits, ZERO), Times(bits, ZERO));
    }
  }

  lemma PushBit(bits: seq<bool>, b: bool)
    requires |bits| < 16
    ensures Xor(Shift(Zeros(16 - |bits|) + bits), Keep(b, One())) == Zeros(15 - |bits|) + (bits + [b])
  {
    var w: Word := Zeros(16 - |bits|) + bits;
    assert Shift(w) == w[1..] + [false];
  }

  /** Up to sixteen coefficients stand for themselves. */
  lemma {:induction false} TimesOne(bits: seq<bool>)
    requires |bits| <= 16
    ensures Times(bits, One()) == Zeros(16 - |bits|) + bits
  {
    if bits != [] {
      var front, b := bits[..|bits| - 1], bits[|bits| - 1];
      TimesOne(front);
      PushBit(front, b);
      assert bits == front + [b];
    }
  }

  // ---- Squaring ----

  /** Squaring a polynomial over two elements doubles its exponents. */
  function Square(bits: seq<bool>): Word
  {
    if bits == [] then ZERO
    else Xor(Shift(Shift(Square(bits[..|bits| - 1]))), Keep(bits[|bits| - 1], One()))
  }

  lemma TimesTwiceStep(front: seq<bool>, b: bool, v: Word, h: Word, u: Word)
    requires h == Times(front, v) && u == Xor(Shift(h), Keep(b, v))
    ensures Xor(Shift(Times(front, u)), Keep(b, u)) == Xor(Shift(Shift(Times(front, h))), Keep(b, v))
  {
    var hh := Times(front, h);
    TimesXor(front, Shift(h), Keep(b, v));
    TimesShift(front, h);
    TimesKeep(front, b, v);
    ShiftLinear(Shift(hh), Keep(b, h));
    ShiftKeep(b, h);
    if b {
      XorCancels(Shift(Shift(hh)), Shift(h), v);
    } else {
      XorNothing(Shift(Shift(hh)));
    }
  }

  lemma {:induction false} TimesTwice(bits: seq<bool>)
    ensures Times(bits, Times(bits, One())) == Square(bits)
  {
    if bits != [] {
      var front, b := bits[..|bits| - 1], bits[|bits| - 1];
      TimesTwice(front);
      TimesTwiceStep(front, b, One(), Times(front, One()), Times(bits, One()));
    }
  }

  /** The square of x^m is x^(2m). */
  lemma SquareOfPower(w: Word, m: nat)
    requires w == ShiftTimes(One(), m)
    ensures Square(w) == ShiftTimes(One(), m + m)
  {
    TimesTwice(w);
    TimesOne(w);
    assert Zeros(0) + w == w;
    TimesShifts(w, One(), m);
    ShiftTimesAdd(One(), m, m);
  }

  lemma NextShift(w: Word, m: nat)
    requires w == ShiftTimes(One(), m)
    ensures Shift(w) == ShiftTimes(One(), m + 1)
  {
    ShiftTimesAdd(One(), m, 1);
    assert ShiftTimes(Shift(w), 0) == Shift(w);
  }
}
