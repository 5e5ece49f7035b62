/** What the checksum is: the remainder of a polynomial long division. The division below is the schoolbook one,
    on bit strings, and shares nothing with the register. */
module CrcDivision {
  import opened Bits
  import opened Crc16

  /** x^16 + x^12 + x^5 + 1 with its leading term. */
  const GENERATOR: nat := 0x11021

  /** Long division by `g`: while the dividend is at least as long as the divisor, subtract the divisor from its
      front if the leading bit is set, and drop that bit. */
  function Remainder(dividend: seq<bool>, g: seq<bool>): (r: seq<bool>)
    requires g != []
    ensures |r| == if |dividend| < |g| then |dividend| else |g| - 1
    decreases |dividend|
  {
    if |dividend| < |g| then dividend
    else if dividend[0] then Remainder(Xor(dividend[..|g|], g)[1..] + dividend[|g|..], g)
    else Remainder(dividend[1..], g)
  }

  /** The first sixteen bits inverted. */
  function Inverted(bits: seq<bool>): (r: seq<bool>)
    ensures |r| == |bits|
  {
    seq(|bits|, i requires 0 <= i < |bits| => if i < 16 then !bits[i] else bits[i])
  }

  /** A message with sixteen zeros behind it and a register added to its front. */
  function Loaded(w: Word, bits: seq<bool>): (r: seq<bool>)
    ensures |r| == |bits| + 16
  {
    Xor(bits + Zeros(16), w + Zeros(|bits|))
  }

  lemma Pow2Of16(k: nat)
    requires k == 16
    ensures Pow2(k) == 0x1_0000
  {
    Pow2Of8();
    Pow2Adds(8, 8);
  }

  lemma {:induction false} Pow2Adds(a: nat, b: nat)
    ensures Pow2(a + b) == Pow2(a) * Pow2(b)
  {
    if b > 0 {
      Pow2Adds(a, b - 1);
    }
  }

  lemma GeneratorFrom(g: seq<bool>, p: seq<bool>, n: nat, k: nat)
    requires k == 16 && n == 0x1021 && p == BitsOf(n, k) && g == BitsOf(0x1_0000 + n, k + 1)
    ensures g == [true] + p
  {
    Pow2Of16(k);
    BitsAbove(n, k);
  }

  lemma GeneratorIs(g: seq<bool>)
    requires g == BitsOf(GENERATOR, 17)
    ensures g == [true] + POLY
  {
    var p: seq<bool> := POLY;
    PolyIs(p);
    GeneratorFrom(g, p, 0x1021, 16);
  }

  /** One more bit in front. */
  lemma {:induction false} BitsAbove(n: nat, k: nat)
    requires n < Pow2(k)
    ensures BitsOf(Pow2(k) + n, k + 1) == [true] + BitsOf(n, k)
  {
    if k > 0 {
      BitsAbove(n / 2, k - 1);
      assert (Pow2(k) + n) / 2 == Pow2(k - 1) + n / 2 && (Pow2(k) + n) % 2 == n % 2;
    }
  }

  /** One step of the division is one step of the register. */
  lemma DivisionStep(w: Word, bits: seq<bool>, g: seq<bool>)
    requires bits != [] && g == [true] + POLY
    ensures Remainder(Loaded(w, bits), g) == Remainder(Loaded(BitStep(w, bits[0]), bits[1..]), g)
  {
    var x, next := Loaded(w, bits), Loaded(BitStep(w, bits[0]), bits[1..]);
    assert x[0] == (w[0] != bits[0]);
    if x[0] {
      SubtractedFront(w, bits, g);
    } else {
      PlainFront(w, bits);
    }
  }

  lemma PlainFront(w: Word, bits: seq<bool>)
    requires bits != [] && w[0] == bits[0]
    ensures Loaded(w, bits)[1..] == Loaded(BitStep(w, bits[0]), bits[1..])
  {
    var w' := w[0 := w[0] != bits[0]];
    assert Shift(w') == w'[1..] + [false];
    var rest := bits[1..];
    assert Loaded(w, bits)[1..] == Xor(rest + Zeros(16), (w[1..] + [false]) + Zeros(|rest|));
  }

  lemma SubtractedFront(w: Word, bits: seq<bool>, g: seq<bool>)
    requires bits != [] && w[0] != bits[0] && g == [true] + POLY
    ensures var x := Loaded(w, bits); Xor(x[..17], g)[1..] + x[17..] == Loaded(BitStep(w, bits[0]), bits[1..])
  {
    var x, rest := Loaded(w, bits), bits[1..];
    var s: Word := w[1..] + [false];
    var p: Word := POLY;
    assert x[1..] == Xor(rest + Zeros(16), s + Zeros(|rest|));
    assert BitStep(w, bits[0]) == Xor(s, p) by {
      assert w[0 := w[0] != bits[0]][1..] == w[1..];
    }
    forall i | 0 <= i < |x| - 1
      ensures (Xor(x[..17], g)[1..] + x[17..])[i] == Loaded(Xor(s, p), rest)[i]
    {
      assert x[i + 1] == x[1..][i];
      if i < 16 {
        assert Xor(x[..17], g)[1..][i] == (x[i + 1] != p[i]);
      }
    }
  }

  /** The bit-serial register computes a remainder. */
  lemma {:induction false} RegisterDivides(w: Word, bits: seq<bool>, g: seq<bool>)
    requires g == [true] + POLY
    ensures BitFold(w, bits) == Remainder(Loaded(w, bits), g)
    decreases |bits|
  {
    if bits == [] {
      assert Loaded(w, bits) == w;
    } else {
      DivisionStep(w, bits, g);
      RegisterDivides(BitStep(w, bits[0]), bits[1..], g);
    }
  }

  lemma LoadedWithOnes(w: Word, bits: seq<bool>)
    requires w == Ones(16)
    ensures Loaded(w, bits) == Inverted(bits + Zeros(16))
  {
  }

  /** For every message: append sixteen zero bits, invert the first sixteen bits, divide by 0x11021; the
      remainder is the CRC. */
  lemma CrcIsRemainder(data: seq<byte>)
    ensures Crc(data) == Remainder(Inverted(StreamBits(data) + Zeros(16)), BitsOf(GENERATOR, 17))
  {
    GeneratorIs(BitsOf(GENERATOR, 17));
    FoldIsBitSerial(INIT, data);
    RegisterDivides(INIT, StreamBits(data), BitsOf(GENERATOR, 17));
    LoadedWithOnes(INIT, StreamBits(data));
  }

  /** Nothing to check leaves the initial register. */
  lemma CrcOfNothing()
    ensures Crc([]) == BitsOf(0xFFFF, 16)
  {
    InitIs(Crc([]));
  }
}
