/** The polynomials of `Polynomials` as 16-bit machine words, where shifts and squares of given numbers can be
    computed. */
module MachineWords {
  import opened Bits
  import opened Crc16
  import opened Polynomials

  function ShiftBv(n: bv16): bv16
  {
    if n & 0x8000 != 0 then (n << 1) ^ 0x1021 else n << 1
  }

  function SquareMore(p: bv16, b: bool): bv16
  {
    Flip(ShiftBv(ShiftBv(p)), b)
  }

  function Flip(n: bv16, b: bool): bv16
  {
    n ^ (if b then 1 else 0)
  }

  function SquareFour(p: bv16, b: bool, c: bool, d: bool, e: bool): bv16
  {
    SquareMore(SquareMore(SquareMore(SquareMore(p, b), c), d), e)
  }

  function SquareBv(n: bv16): bv16
  {
    var p := SquareFour(0, n & 0x8000 != 0, n & 0x4000 != 0, n & 0x2000 != 0, n & 0x1000 != 0);
    var q := SquareFour(p, n & 0x800 != 0, n & 0x400 != 0, n & 0x200 != 0, n & 0x100 != 0);
    var r := SquareFour(q, n & 0x80 != 0, n & 0x40 != 0, n & 0x20 != 0, n & 0x10 != 0);
    SquareFour(r, n & 0x8 != 0, n & 0x4 != 0, n & 0x2 != 0, n & 0x1 != 0)
  }

  /** The place of the bit that stands at `i` in a word. */
  function Mask(i: nat): bv16
    requires i < 16
  {
    [0x8000, 0x4000, 0x2000, 0x1000, 0x800, 0x400, 0x200, 0x100, 0x80, 0x40, 0x20, 0x10, 0x8, 0x4, 0x2, 0x1][i]
  }

  predicate Bit(n: bv16, i: nat)
    requires i < 16
  {
    n & Mask(i) != 0
  }

  function WordOf(n: bv16): Word
  {
    seq(16, i requires 0 <= i < 16 => Bit(n, i))
  }

  lemma MaskIsOneBit(i: nat)
    requires i < 16
    ensures Mask(i) & (Mask(i) - 1) == 0
    ensures i < 15 ==> Mask(i) == Mask(i + 1) << 1 && Mask(i + 1) & 0x8000 == 0
    ensures i == 15 ==> Mask(i) == 1
  {
  }

  lemma OneBitXor(m: bv16, n: bv16, mask: bv16)
    requires mask & (mask - 1) == 0
    ensures ((m ^ n) & mask != 0) == ((m & mask != 0) != (n & mask != 0))
  {
  }

  lemma OneBitDouble(n: bv16, mask: bv16)
    requires mask & 0x8000 == 0
    ensures ((n << 1) & (mask << 1) != 0) == (n & mask != 0)
  {
  }

  lemma WordOfXor(m: bv16, n: bv16)
    ensures WordOf(m ^ n) == Xor(WordOf(m), WordOf(n))
  {
    forall i | 0 <= i < 16
      ensures Bit(m ^ n, i) == (Bit(m, i) != Bit(n, i))
    {
      MaskIsOneBit(i);
      OneBitXor(m, n, Mask(i));
    }
  }

  lemma DoubleAt(n: bv16, d: bv16, upper: bv16, lower: bv16)
    requires d == n << 1 && lower & 0x8000 == 0 && upper == lower << 1
    ensures (d & upper != 0) == (n & lower != 0)
  {
    OneBitDouble(n, lower);
  }

  lemma UpperBitOfDouble(n: bv16, d: bv16, i: nat)
    requires d == n << 1 && i < 15
    ensures Bit(d, i) == Bit(n, i + 1)
  {
    MaskIsOneBit(i);
    DoubleAt(n, d, Mask(i), Mask(i + 1));
  }

  lemma LastBitOfDouble(n: bv16, d: bv16)
    requires d == n << 1
    ensures !Bit(d, 15)
  {
  }

  lemma WordOfDouble(n: bv16, d: bv16)
    requires d == n << 1
    ensures WordOf(d) == WordOf(n)[1..] + [false]
  {
    forall i | 0 <= i < 16
      ensures WordOf(d)[i] == (WordOf(n)[1..] + [false])[i]
    {
      if i < 15 {
        UpperBitOfDouble(n, d, i);
      } else {
        LastBitOfDouble(n, d);
      }
    }
  }

  lemma WordOfNumbers()
    ensures WordOf(0) == ZERO && WordOf(1) == One() && WordOf(0x1021) == POLY
  {
    forall i | 0 <= i < 16
      ensures !Bit(0, i) && Bit(1, i) == (i == 15) && Bit(0x1021, i) == (i == 3 || i == 10 || i == 15)
    {
      NumberBits(i);
    }
  }

  lemma NumberBits(i: nat)
    requires i < 16
    ensures !Bit(0, i) && Bit(1, i) == (i == 15) && Bit(0x1021, i) == (i == 3 || i == 10 || i == 15)
  {
  }

  lemma WordOfIsInjective(m: bv16, n: bv16)
    requires WordOf(m) == WordOf(n)
    ensures m == n
  {
    forall i | 0 <= i < 16
      ensures Bit(m, i) == Bit(n, i)
    {
      assert WordOf(m)[i] == WordOf(n)[i];
    }
    assert Bit(m, 0) == Bit(n, 0) && Bit(m, 1) == Bit(n, 1) && Bit(m, 2) == Bit(n, 2) && Bit(m, 3) == Bit(n, 3);
    assert Bit(m, 4) == Bit(n, 4) && Bit(m, 5) == Bit(n, 5) && Bit(m, 6) == Bit(n, 6) && Bit(m, 7) == Bit(n, 7);
    assert Bit(m, 8) == Bit(n, 8) && Bit(m, 9) == Bit(n, 9) && Bit(m, 10) == Bit(n, 10) && Bit(m, 11) == Bit(n, 11);
    assert Bit(m, 12) == Bit(n, 12) && Bit(m, 13) == Bit(n, 13) && Bit(m, 14) == Bit(n, 14) && Bit(m, 15) == Bit(n, 15);
  }

  lemma WordOfFlip(n: bv16, b: bool)
    ensures WordOf(Flip(n, b)) == Xor(WordOf(n), Keep(b, One()))
  {
    WordOfNumbers();
    WordOfXor(n, if b then 1 else 0);
  }

  lemma ShiftBvIs(n: bv16, d: bv16, c: bv16)
    requires d == n << 1 && c == d ^ 0x1021
    ensures ShiftBv(n) == if Bit(n, 0) then c else d
  {
  }

  lemma ShiftOf(n: bv16, d: bv16, c: bv16)
    requires WordOf(d) == WordOf(n)[1..] + [false] && WordOf(c) == Xor(WordOf(d), POLY)
    ensures Shift(WordOf(n)) == WordOf(if Bit(n, 0) then c else d)
  {
  }

  lemma WordOfXorPoly(d: bv16, c: bv16)
    requires c == d ^ 0x1021
    ensures WordOf(c) == Xor(WordOf(d), POLY)
  {
    WordOfXor(d, 0x1021);
    WordOfNumbers();
  }

  lemma WordOfShift(n: bv16)
    ensures WordOf(ShiftBv(n)) == Shift(WordOf(n))
  {
    var d := n << 1;
    var c := d ^ 0x1021;
    ShiftBvIs(n, d, c);
    WordOfDouble(n, d);
    WordOfXorPoly(d, c);
    ShiftOf(n, d, c);
  }

  // Proofs about words take the operations on numbers as function values, so that no bit arithmetic enters them.

  type Stepper = (bv16, bool) -> bv16

  function Shifter(): bv16 -> bv16
  {
    (n: bv16) => ShiftBv(n)
  }

  function Flipper(): Stepper
  {
    (n: bv16, b: bool) => Flip(n, b)
  }

  function SquarerOf(shift: bv16 -> bv16, flip: Stepper): Stepper
  {
    (p: bv16, b: bool) => flip(shift(shift(p)), b)
  }

  function Squarer(): Stepper
  {
    SquarerOf(Shifter(), Flipper())
  }

  predicate IsSquareMore(f: Stepper, p: bv16, b: bool)
  {
    f(p, b) == SquareMore(p, b)
  }

  lemma SquarerIs(p: bv16, b: bool)
    ensures IsSquareMore(Squarer(), p, b)
  {
  }

  function Four(f: Stepper, p: bv16, b: bool, c: bool, d: bool, e: bool): bv16
  {
    f(f(f(f(p, b), c), d), e)
  }

  function SquareWith(f: Stepper, n: bv16): bv16
  {
    var p := Four(f, 0, n & 0x8000 != 0, n & 0x4000 != 0, n & 0x2000 != 0, n & 0x1000 != 0);
    var q := Four(f, p, n & 0x800 != 0, n & 0x400 != 0, n & 0x200 != 0, n & 0x100 != 0);
    var r := Four(f, q, n & 0x80 != 0, n & 0x40 != 0, n & 0x20 != 0, n & 0x10 != 0);
    Four(f, r, n & 0x8 != 0, n & 0x4 != 0, n & 0x2 != 0, n & 0x1 != 0)
  }

  lemma FourIs(f: Stepper, p: bv16, b: bool, c: bool, d: bool, e: bool)
    requires forall p, b {:trigger IsSquareMore(f, p, b)} {:trigger f(p, b)} :: IsSquareMore(f, p, b)
    ensures Four(f, p, b, c, d, e) == SquareFour(p, b, c, d, e)
  {
  }

  lemma SquareWithIs(f: Stepper, n: bv16)
    requires forall p, b {:trigger IsSquareMore(f, p, b)} {:trigger f(p, b)} :: IsSquareMore(f, p, b)
    ensures SquareWith(f, n) == SquareBv(n)
  {
    var p := SquareFour(0, n & 0x8000 != 0, n & 0x4000 != 0, n & 0x2000 != 0, n & 0x1000 != 0);
    var q := SquareFour(p, n & 0x800 != 0, n & 0x400 != 0, n & 0x200 != 0, n & 0x100 != 0);
    var r := SquareFour(q, n & 0x80 != 0, n & 0x40 != 0, n & 0x20 != 0, n & 0x10 != 0);
    FourIs(f, 0, n & 0x8000 != 0, n & 0x4000 != 0, n & 0x2000 != 0, n & 0x1000 != 0);
    FourIs(f, p, n & 0x800 != 0, n & 0x400 != 0, n & 0x200 != 0, n & 0x100 != 0);
    FourIs(f, q, n & 0x80 != 0, n & 0x40 != 0, n & 0x20 != 0, n & 0x10 != 0);
    FourIs(f, r, n & 0x8 != 0, n & 0x4 != 0, n & 0x2 != 0, n & 0x1 != 0);
  }

  lemma SquareWithSquarer(n: bv16)
    ensures SquareWith(Squarer(), n) == SquareBv(n)
  {
    forall p, b
      ensures IsSquareMore(Squarer(), p, b)
    {
      SquarerIs(p, b);
    }
    SquareWithIs(Squarer(), n);
  }

  function Sixteen(f: Stepper, w: Word): bv16
  {
    var p := Four(f, 0, w[0], w[1], w[2], w[3]);
    var q := Four(f, p, w[4], w[5], w[6], w[7]);
    var r := Four(f, q, w[8], w[9], w[10], w[11]);
    Four(f, r, w[12], w[13], w[14], w[15])
  }

  function FoldBits(g: (Word, bool) -> Word, z: Word, bits: seq<bool>): Word
  {
    if bits == [] then z else g(FoldBits(g, z, bits[..|bits| - 1]), bits[|bits| - 1])
  }

  /** One step on numbers is one step on the words they stand for. */
  predicate StepsAlike(word: bv16 -> Word, f: Stepper, g: (Word, bool) -> Word, p: bv16, b: bool)
  {
    word(f(p, b)) == g(word(p), b)
  }

  ghost predicate AlwaysAlike(word: bv16 -> Word, f: Stepper, g: (Word, bool) -> Word)
  {
    forall p, b {:trigger StepsAlike(word, f, g, p, b)} :: StepsAlike(word, f, g, p, b)
  }

  lemma OneStep(word: bv16 -> Word, f: Stepper, g: (Word, bool) -> Word, z: Word, p: bv16, w: Word, k: nat)
    requires AlwaysAlike(word, f, g) && k < 16 && word(p) == FoldBits(g, z, w[..k])
    ensures word(f(p, w[k])) == FoldBits(g, z, w[..k + 1])
  {
    assert StepsAlike(word, f, g, p, w[k]);
    assert w[..k + 1][..k] == w[..k];
  }

  lemma FourSteps(word: bv16 -> Word, f: Stepper, g: (Word, bool) -> Word, z: Word, p: bv16, w: Word, k: nat)
    requires AlwaysAlike(word, f, g) && k <= 12 && word(p) == FoldBits(g, z, w[..k])
    ensures word(Four(f, p, w[k], w[k + 1], w[k + 2], w[k + 3])) == FoldBits(g, z, w[..k + 4])
  {
    var p1 := f(p, w[k]);
    var p2 := f(p1, w[k + 1]);
    var p3 := f(p2, w[k + 2]);
    OneStep(word, f, g, z, p, w, k);
    OneStep(word, f, g, z, p1, w, k + 1);
    OneStep(word, f, g, z, p2, w, k + 2);
    OneStep(word, f, g, z, p3, w, k + 3);
  }

  lemma SixteenSteps(word: bv16 -> Word, f: Stepper, g: (Word, bool) -> Word, w: Word)
    requires AlwaysAlike(word, f, g)
    ensures word(Sixteen(f, w)) == FoldBits(g, word(0), w)
  {
    assert w[..0] == [] && w[..16] == w;
    var p := Four(f, 0, w[0], w[1], w[2], w[3]);
    var q := Four(f, p, w[4], w[5], w[6], w[7]);
    var r := Four(f, q, w[8], w[9], w[10], w[11]);
    FourSteps(word, f, g, word(0), 0, w, 0);
    FourSteps(word, f, g, word(0), p, w, 4);
    FourSteps(word, f, g, word(0), q, w, 8);
    FourSteps(word, f, g, word(0), r, w, 12);
  }

  function Words(): bv16 -> Word
  {
    n => WordOf(n)
  }

  function WordSquarer(): (Word, bool) -> Word
  {
    (w: Word, b: bool) => Xor(Shift(Shift(w)), Keep(b, One()))
  }

  lemma {:induction false} SquareIsFold(bits: seq<bool>)
    ensures FoldBits(WordSquarer(), ZERO, bits) == Square(bits)
  {
    if bits != [] {
      SquareIsFold(bits[..|bits| - 1]);
    }
  }

  lemma Masks()
    ensures Mask(0) == 0x8000 && Mask(1) == 0x4000 && Mask(2) == 0x2000 && Mask(3) == 0x1000
    ensures Mask(4) == 0x800 && Mask(5) == 0x400 && Mask(6) == 0x200 && Mask(7) == 0x100
    ensures Mask(8) == 0x80 && Mask(9) == 0x40 && Mask(10) == 0x20 && Mask(11) == 0x10
    ensures Mask(12) == 0x8 && Mask(13) == 0x4 && Mask(14) == 0x2 && Mask(15) == 0x1
  {
  }

  lemma BitAt(n: bv16, w: Word, i: nat, mask: bv16)
    requires w == WordOf(n) && i < 16 && mask == Mask(i)
    ensures w[i] == (n & mask != 0)
  {
  }

  /** The sixteen bits of a word, spelled out. */
  predicate BitsAre(n: bv16, w: Word)
  {
    && w[0] == (n & 0x8000 != 0) && w[1] == (n & 0x4000 != 0) && w[2] == (n & 0x2000 != 0) && w[3] == (n & 0x1000 != 0)
    && w[4] == (n & 0x800 != 0) && w[5] == (n & 0x400 != 0) && w[6] == (n & 0x200 != 0) && w[7] == (n & 0x100 != 0)
    && w[8] == (n & 0x80 != 0) && w[9] == (n & 0x40 != 0) && w[10] == (n & 0x20 != 0) && w[11] == (n & 0x10 != 0)
    && w[12] == (n & 0x8 != 0) && w[13] == (n & 0x4 != 0) && w[14] == (n & 0x2 != 0) && w[15] == (n & 0x1 != 0)
  }

  lemma WordHasBits(n: bv16, w: Word)
    requires w == WordOf(n)
    ensures BitsAre(n, w)
  {
    Masks();
    BitAt(n, w, 0, 0x8000);
    BitAt(n, w, 1, 0x4000);
    BitAt(n, w, 2, 0x2000);
    BitAt(n, w, 3, 0x1000);
    BitAt(n, w, 4, 0x800);
    BitAt(n, w, 5, 0x400);
    BitAt(n, w, 6, 0x200);
    BitAt(n, w, 7, 0x100);
    BitAt(n, w, 8, 0x80);
    BitAt(n, w, 9, 0x40);
    BitAt(n, w, 10, 0x20);
    BitAt(n, w, 11, 0x10);
    BitAt(n, w, 12, 0x8);
    BitAt(n, w, 13, 0x4);
    BitAt(n, w, 14, 0x2);
    BitAt(n, w, 15, 0x1);
  }

  lemma SquareWithSixteen(f: Stepper, n: bv16, w: Word)
    requires BitsAre(n, w)
    ensures SquareWith(f, n) == Sixteen(f, w)
  {
  }

  predicate ShiftsAlike(word: bv16 -> Word, shift: bv16 -> bv16, n: bv16)
  {
    word(shift(n)) == Shift(word(n))
  }

  predicate FlipsAlike(word: bv16 -> Word, flip: Stepper, n: bv16, b: bool)
  {
    word(flip(n, b)) == Xor(word(n), Keep(b, One()))
  }

  lemma SquarersStepAlike(word: bv16 -> Word, shift: bv16 -> bv16, flip: Stepper, p: bv16, b: bool)
    requires ShiftsAlike(word, shift, p) && ShiftsAlike(word, shift, shift(p)) && FlipsAlike(word, flip, shift(shift(p)), b)
    ensures StepsAlike(word, SquarerOf(shift, flip), WordSquarer(), p, b)
  {
  }

  lemma ShifterShifts(n: bv16)
    ensures ShiftsAlike(Words(), Shifter(), n)
  {
    WordOfShift(n);
  }

  lemma FlipperFlips(n: bv16, b: bool)
    ensures FlipsAlike(Words(), Flipper(), n, b)
  {
    WordOfFlip(n, b);
  }

  lemma SquarersAlike()
    ensures AlwaysAlike(Words(), Squarer(), WordSquarer())
  {
    forall p, b
      ensures StepsAlike(Words(), Squarer(), WordSquarer(), p, b)
    {
      ShifterShifts(p);
      ShifterShifts(Shifter()(p));
      FlipperFlips(Shifter()(Shifter()(p)), b);
      SquarersStepAlike(Words(), Shifter(), Flipper(), p, b);
    }
  }

  lemma SixteenSquares(w: Word)
    ensures WordOf(Sixteen(Squarer(), w)) == Square(w)
  {
    SquarersAlike();
    SixteenSteps(Words(), Squarer(), WordSquarer(), w);
    WordOfNumbers();
    SquareIsFold(w);
  }

  lemma WordOfSquare(n: bv16)
    ensures WordOf(SquareBv(n)) == Square(WordOf(n))
  {
    SquareWithSquarer(n);
    WordHasBits(n, WordOf(n));
    SquareWithSixteen(Squarer(), n, WordOf(n));
    SixteenSquares(WordOf(n));
  }
}
