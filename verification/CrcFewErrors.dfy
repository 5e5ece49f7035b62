/** One, two and three flipped bits. Two of them go unnoticed exactly when their distance is a multiple of 32767,
    which no frame is long enough for. */
module CrcFewErrors {
  import opened Bits
  import opened Crc16
  import opened CrcOrder
  import opened Divisors
  import opened Polynomials

  lemma {:induction false} ZeroBitsShift(w: Word, n: nat)
    ensures BitFold(w, Zeros(n)) == ShiftTimes(w, n)
    decreases n
  {
    if n > 0 {
      assert w[0 := w[0] != Zeros(n)[0]] == w;
      assert Zeros(n)[1..] == Zeros(n - 1);
      ZeroBitsShift(Shift(w), n - 1);
    }
  }

  /** The polynomial x^k. */
  function Unit(k: nat): Word
    requires k < 16
  {
    Zeros(16)[15 - k := true]
  }

  lemma {:induction false} UnitPower(k: nat)
    requires k < 16
    ensures ShiftTimes(One(), k) == Unit(k)
  {
    if k > 0 {
      UnitPower(k - 1);
      NextShift(Unit(k - 1), k - 1);
      assert Shift(Unit(k - 1)) == Unit(k);
    }
  }

  /** A message bit enters as x^16. */
  lemma BitEnters(w: Word, m: nat)
    requires m == 16
    ensures BitStep(w, true) == Xor(Shift(w), ShiftTimes(One(), m))
  {
    assert w[0 := w[0] != true] == Xor(w, Unit(15));
    ShiftLinear(w, Unit(15));
    UnitPower(15);
    NextShift(Unit(15), 15);
  }

  lemma BitFoldOne(w: Word, b: bool)
    ensures BitFold(w, [b]) == BitStep(w, b)
  {
    assert [b][1..] == [];
  }

  lemma TwoBitsFold(d: nat, m: nat)
    requires d >= 1 && m == 16
    ensures BitFold(ZERO, [true] + Zeros(d - 1) + [true]) == Xor(ShiftTimes(One(), d + m), ShiftTimes(One(), m))
  {
    var first, last := ShiftTimes(One(), m), ShiftTimes(One(), m + (d - 1));
    BitFoldConcat(ZERO, [true] + Zeros(d - 1), [true]);
    BitFoldConcat(ZERO, [true], Zeros(d - 1));
    BitFoldOne(ZERO, true);
    BitEnters(ZERO, m);
    ShiftZero(ZERO);
    XorNothing(first);
    ZeroBitsShift(first, d - 1);
    ShiftTimesAdd(One(), m, d - 1);
    BitFoldOne(last, true);
    BitEnters(last, m);
    NextShift(last, m + (d - 1));
  }

  lemma PowersMeet(d: nat, m: nat)
    ensures Xor(ShiftTimes(One(), d + m), ShiftTimes(One(), m)) == ZERO <==> ShiftTimes(One(), d) == One()
  {
    ShiftTimesAdd(One(), d, m);
    ShiftTimesLinear(ShiftTimes(One(), d), One(), m);
    ShiftTimesZero(Xor(ShiftTimes(One(), d), One()), m);
    XorZero(ShiftTimes(One(), d), One());
  }

  /** Exactly the bits at `i` and `j` are set. */
  predicate OnlyTwo(e: seq<bool>, i: nat, j: nat)
  {
    i < j < |e| && forall k :: 0 <= k < |e| ==> (e[k] <==> k == i || k == j)
  }

  lemma OnlyTwoShape(e: seq<bool>, i: nat, j: nat)
    requires OnlyTwo(e, i, j)
    ensures e == Zeros(i) + (([true] + Zeros(j - i - 1) + [true]) + Zeros(|e| - j - 1))
  {
  }

  lemma TwoBitsUnnoticed(e: seq<bool>, i: nat, j: nat, m: nat)
    requires OnlyTwo(e, i, j) && m == 16
    ensures BitFold(ZERO, e) == ZERO <==> (j - i) % ORDER == 0
  {
    var d := j - i;
    var pair := [true] + Zeros(d - 1) + [true];
    OnlyTwoShape(e, i, j);
    BitFoldConcat(ZERO, Zeros(i), pair + Zeros(|e| - j - 1));
    ZeroBitsShift(ZERO, i);
    ShiftTimesZero(ZERO, i);
    BitFoldConcat(ZERO, pair, Zeros(|e| - j - 1));
    ZeroBitsShift(BitFold(ZERO, pair), |e| - j - 1);
    ShiftTimesZero(BitFold(ZERO, pair), |e| - j - 1);
    TwoBitsFold(d, m);
    PowersMeet(d, m);
    OrderOfX(d);
  }

  /** The CRC sees the error pattern alone. */
  lemma CrcsDifferBy(x: seq<byte>, y: seq<byte>)
    requires |x| == |y|
    ensures Crc(x) == Crc(y) <==> BitFold(ZERO, Xor(StreamBits(x), StreamBits(y))) == ZERO
  {
    FoldIsBitSerial(INIT, x);
    FoldIsBitSerial(INIT, y);
    BitFoldLinear(INIT, INIT, StreamBits(x), StreamBits(y));
    assert Xor(INIT, INIT) == ZERO;
    XorZero(Crc(x), Crc(y));
  }

  /** Two flipped bits go unnoticed if and only if their distance is a multiple of 32767. */
  lemma DetectsDoubleErrors(x: seq<byte>, y: seq<byte>, i: nat, j: nat)
    requires |x| == |y| && OnlyTwo(Xor(StreamBits(x), StreamBits(y)), i, j)
    ensures Crc(x) == Crc(y) <==> (j - i) % ORDER == 0
  {
    CrcsDifferBy(x, y);
    TwoBitsUnnoticed(Xor(StreamBits(x), StreamBits(y)), i, j, 16);
  }

  lemma {:induction false} NoneSet(bits: seq<bool>, k: nat)
    requires Weight(bits) == 0 && k < |bits|
    ensures !bits[k]
  {
    if k > 0 {
      NoneSet(bits[1..], k - 1);
    }
  }

  lemma {:induction false} OneSet(bits: seq<bool>) returns (i: nat)
    requires Weight(bits) == 1
    ensures i < |bits| && forall k :: 0 <= k < |bits| ==> (bits[k] <==> k == i)
  {
    if bits[0] {
      i := 0;
      forall k | 0 < k < |bits|
        ensures !bits[k]
      {
        NoneSet(bits[1..], k - 1);
      }
    } else {
      i := OneSet(bits[1..]);
      assert forall k :: 0 < k < |bits| ==> bits[k] == bits[1..][k - 1];
      i := i + 1;
    }
  }

  lemma {:induction false} TwoSet(bits: seq<bool>) returns (i: nat, j: nat)
    requires Weight(bits) == 2
    ensures OnlyTwo(bits, i, j)
  {
    assert forall k :: 0 < k < |bits| ==> bits[k] == bits[1..][k - 1];
    if bits[0] {
      i := 0;
      j := OneSet(bits[1..]);
      j := j + 1;
    } else {
      i, j := TwoSet(bits[1..]);
      i, j := i + 1, j + 1;
    }
  }

  lemma TooClose(n: nat, i: nat, j: nat)
    requires n <= ORDER && i < j < n
    ensures (j - i) % ORDER != 0
  {
  }

  /** Every pattern of one, two or three set bits leaves a trace in the register. */
  lemma FewBitsNoticed(e: seq<bool>, flipped: nat)
    requires |e| <= ORDER && flipped == Weight(e) && 1 <= flipped <= 3
    ensures BitFold(ZERO, e) != ZERO
  {
    if flipped == 2 {
      var i, j := TwoSet(e);
      TooClose(|e|, i, j);
      TwoBitsUnnoticed(e, i, j, 16);
    } else {
      OddIsWeight(e);
      BitFoldParity(ZERO, e);
      ZerosAreEven(16);
    }
  }

  /** Every error of one, two or three flipped bits changes the CRC of a message of up to 4095 bytes. */
  lemma DetectsThreeErrors(x: seq<byte>, y: seq<byte>)
    requires |x| == |y| <= 4095 && 1 <= Weight(Xor(StreamBits(x), StreamBits(y))) <= 3
    ensures Crc(x) != Crc(y)
  {
    var e := Xor(StreamBits(x), StreamBits(y));
    CrcsDifferBy(x, y);
    FewBitsNoticed(e, Weight(e));
  }
}
