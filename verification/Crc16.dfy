/** CRC-16/CCITT-FALSE (proto/crc16.hpp): the byte-wise loops of the code, the bit-serial
    shift register they implement, and what the checksum detects. */
module Crc16 {
  import opened Bits

  /** x^16 + x^12 + x^5 + 1, the leading term implicit. */
  const POLY: Word := Zeros(16)[15 - 12 := true][15 - 5 := true][15 - 0 := true]

  const INIT: Word := Ones(16)

  const ZERO: Word := Zeros(16)

  /** The parameters are the numbers the code gives them. */
  lemma PolyIs(p: seq<bool>)
    requires p == POLY
    ensures p == BitsOf(0x1021, 16)
  {
    assert BitsOf(0x0, 1) == p[..1];
    assert BitsOf(0x0, 2) == p[..2];
    assert BitsOf(0x0, 3) == p[..3];
    assert BitsOf(0x1, 4) == p[..4];
    assert BitsOf(0x2, 5) == p[..5];
    assert BitsOf(0x4, 6) == p[..6];
    assert BitsOf(0x8, 7) == p[..7];
    assert BitsOf(0x10, 8) == p[..8];
    assert BitsOf(0x20, 9) == p[..9];
    assert BitsOf(0x40, 10) == p[..10];
    assert BitsOf(0x81, 11) == p[..11];
    assert BitsOf(0x102, 12) == p[..12];
    assert BitsOf(0x204, 13) == p[..13];
    assert BitsOf(0x408, 14) == p[..14];
    assert BitsOf(0x810, 15) == p[..15];
    assert BitsOf(0x1021, 16) == p[..16];
  }

  lemma InitIs(p: seq<bool>)
    requires p == INIT
    ensures p == BitsOf(0xFFFF, 16)
  {
    assert BitsOf(0x1, 1) == p[..1];
    assert BitsOf(0x3, 2) == p[..2];
    assert BitsOf(0x7, 3) == p[..3];
    assert BitsOf(0xf, 4) == p[..4];
    assert BitsOf(0x1f, 5) == p[..5];
    assert BitsOf(0x3f, 6) == p[..6];
    assert BitsOf(0x7f, 7) == p[..7];
    assert BitsOf(0xff, 8) == p[..8];
    assert BitsOf(0x1ff, 9) == p[..9];
    assert BitsOf(0x3ff, 10) == p[..10];
    assert BitsOf(0x7ff, 11) == p[..11];
    assert BitsOf(0xfff, 12) == p[..12];
    assert BitsOf(0x1fff, 13) == p[..13];
    assert BitsOf(0x3fff, 14) == p[..14];
    assert BitsOf(0x7fff, 15) == p[..15];
    assert BitsOf(0xffff, 16) == p[..16];
  }

  /** One register shift: drop the top bit, subtract the polynomial if it was set. */
  function Shift(w: Word): (r: Word)
  {
    if w[0] then Xor(w[1..] + [false], POLY) else w[1..] + [false]
  }

  function ShiftTimes(w: Word, n: nat): (r: Word)
    decreases n
  {
    if n == 0 then w else ShiftTimes(Shift(w), n - 1)
  }

  /** What the loop of `crc16_update` computes. */
  function Update(w: Word, b: byte): (r: Word)
  {
    ShiftTimes(Xor(w, ByteBits(b) + Zeros(8)), 8)
  }

  /** What the loop of `crc16` computes when seeded with `w`. */
  function Fold(w: Word, data: seq<byte>): (r: Word)
  {
    if data == [] then w else Update(Fold(w, data[..|data| - 1]), data[|data| - 1])
  }

  function Crc(data: seq<byte>): (r: Word)
  {
    Fold(INIT, data)
  }

  /** The two CRC bytes as the frame carries them, high byte first. */
  function WordBytes(w: Word): (r: seq<byte>)
    ensures |r| == 2
  {
    [ByteOf(w[..8]), ByteOf(w[8..])]
  }

  lemma WordBytesBits(w: Word)
    ensures StreamBits(WordBytes(w)) == w
  {
    var r := WordBytes(w);
    ByteBitsOfByte(w[..8]);
    ByteBitsOfByte(w[8..]);
    assert r[..1] == [r[0]] && r[..1][..0] == [];
    assert w == w[..8] + w[8..];
  }

  // ---- The loops ----

  method Crc16Update(crc: Word, b: byte) returns (r: Word)
    ensures r == Update(crc, b)
  {
    r := Xor(crc, ByteBits(b) + Zeros(8));
    for i := 0 to 8
      invariant ShiftTimes(r, 8 - i) == Update(crc, b)
    {
      if r[0] {
        r := Xor(r[1..] + [false], POLY);
      } else {
        r := r[1..] + [false];
      }
    }
  }

  method Crc16(data: array<byte>, len: nat) returns (crc: Word)
    requires len <= data.Length
    ensures crc == Crc(data[..len])
  {
    crc := INIT;
    for i := 0 to len
      invariant crc == Crc(data[..i])
    {
      assert data[..i + 1][..i] == data[..i];
      crc := Crc16Update(crc, data[i]);
    }
  }

  // ---- The bit-serial register, as an independent reference ----

  /** Feed one message bit into the top of the register. */
  function BitStep(w: Word, b: bool): (r: Word)
  {
    Shift(w[0 := w[0] != b])
  }

  function BitFold(w: Word, bits: seq<bool>): (r: Word)
    decreases |bits|
  {
    if bits == [] then w else BitFold(BitStep(w, bits[0]), bits[1..])
  }

  lemma ShiftLinear(a: Word, b: Word)
    ensures Shift(Xor(a, b)) == Xor(Shift(a), Shift(b))
  {
  }

  lemma ShiftZero(w: Word)
    ensures Shift(w) == ZERO <==> w == ZERO
  {
    if Shift(w) == ZERO {
      assert Shift(w)[15] == w[0];
      assert forall i :: 0 < i < 16 ==> w[i] == Shift(w)[i - 1];
    }
  }

  lemma {:induction false} ShiftTimesZero(w: Word, n: nat)
    ensures ShiftTimes(w, n) == ZERO <==> w == ZERO
    decreases n
  {
    if n > 0 {
      ShiftZero(w);
      ShiftTimesZero(Shift(w), n - 1);
    }
  }

  function Padded(bits: seq<bool>): (w: Word)
    requires |bits| <= 16
  {
    bits + Zeros(16 - |bits|)
  }

  lemma ShiftOfPadded(w: Word)
    requires !w[0]
    ensures Shift(w) == w[1..] + [false]
  {
  }

  /** Shifting after adding bits is adding the remaining bits after one serial step. */
  lemma ShiftIn(w: Word, bits: seq<bool>)
    requires 0 < |bits| <= 16
    ensures Shift(Xor(w, Padded(bits))) == Xor(BitStep(w, bits[0]), Padded(bits[1..]))
  {
    var w' := w[0 := w[0] != bits[0]];
    var rest: Word := Padded(bits)[0 := false];
    assert Xor(w, Padded(bits)) == Xor(w', rest);
    ShiftLinear(w', rest);
    ShiftOfPadded(rest);
    assert rest[1..] + [false] == Padded(bits[1..]);
  }

  /** Up to sixteen message bits may be added to the register at once and shifted through. */
  lemma {:induction false} FoldAtOnce(w: Word, bits: seq<bool>)
    requires |bits| <= 16
    ensures ShiftTimes(Xor(w, Padded(bits)), |bits|) == BitFold(w, bits)
    decreases |bits|
  {
    if bits == [] {
      assert Xor(w, Padded(bits)) == w;
    } else {
      ShiftIn(w, bits);
      FoldAtOnce(BitStep(w, bits[0]), bits[1..]);
    }
  }

  lemma {:induction false} BitFoldConcat(w: Word, a: seq<bool>, b: seq<bool>)
    ensures BitFold(w, a + b) == BitFold(BitFold(w, a), b)
    decreases |a|
  {
    if a == [] {
      assert a + b == b;
    } else {
      assert (a + b)[1..] == a[1..] + b;
      BitFoldConcat(BitStep(w, a[0]), a[1..], b);
    }
  }

  /** The byte-wise code computes the bit-serial register. */
  lemma {:induction false} FoldIsBitSerial(w: Word, data: seq<byte>)
    ensures Fold(w, data) == BitFold(w, StreamBits(data))
  {
    if data != [] {
      var n := |data| - 1;
      FoldIsBitSerial(w, data[..n]);
      FoldAtOnce(Fold(w, data[..n]), ByteBits(data[n]));
      BitFoldConcat(w, StreamBits(data[..n]), ByteBits(data[n]));
    }
  }

  // ---- Residue ----

  lemma XorZero(a: Word, b: Word)
    ensures Xor(a, b) == ZERO <==> a == b
  {
    if Xor(a, b) == ZERO {
      assert forall i :: 0 <= i < 16 ==> !Xor(a, b)[i];
    }
  }

  /** A blob has residue zero exactly when it ends with the CRC of what precedes, high byte first. */
  lemma ResidueZero(body: seq<byte>, tail: seq<byte>)
    requires |tail| == 2
    ensures Crc(body + tail) == ZERO <==> tail == WordBytes(Crc(body))
  {
    var c := Crc(body);
    var bits := StreamBits(tail);
    FoldIsBitSerial(INIT, body + tail);
    FoldIsBitSerial(INIT, body);
    StreamBitsConcat(body, tail);
    BitFoldConcat(INIT, StreamBits(body), bits);
    FoldAtOnce(c, bits);
    assert Padded(bits) == bits;
    ShiftTimesZero(Xor(c, bits), 16);
    XorZero(c, bits);
    WordBytesBits(c);
    if bits == c {
      StreamBitsInjective(tail, WordBytes(c));
    }
  }

  // ---- Error detection ----

  lemma {:induction false} BitFoldLinear(v: Word, w: Word, a: seq<bool>, b: seq<bool>)
    requires |a| == |b|
    ensures BitFold(Xor(v, w), Xor(a, b)) == Xor(BitFold(v, a), BitFold(w, b))
    decreases |a|
  {
    if a != [] {
      var v', w' := v[0 := v[0] != a[0]], w[0 := w[0] != b[0]];
      var x := Xor(v, w);
      assert x[0 := x[0] != Xor(a, b)[0]] == Xor(v', w');
      ShiftLinear(v', w');
      assert Xor(a, b)[1..] == Xor(a[1..], b[1..]);
      BitFoldLinear(BitStep(v, a[0]), BitStep(w, b[0]), a[1..], b[1..]);
    }
  }

  /** Registers that differ still differ after any common suffix. */
  lemma CommonSuffixKeepsDifference(v: Word, w: Word, s: seq<bool>)
    requires v != w
    ensures BitFold(v, s) != BitFold(w, s)
  {
    BitFoldLinear(v, w, s, s);
    assert Xor(s, s) == Zeros(|s|);
    XorZero(v, w);
    ZeroBitsKeepNonzero(Xor(v, w), |s|);
    XorZero(BitFold(v, s), BitFold(w, s));
  }

  lemma {:induction false} ZeroBitsKeepNonzero(w: Word, n: nat)
    requires w != ZERO
    ensures BitFold(w, Zeros(n)) != ZERO
    decreases n
  {
    if n > 0 {
      assert w[0 := w[0] != Zeros(n)[0]] == w;
      ShiftZero(w);
      assert Zeros(n)[1..] == Zeros(n - 1);
      ZeroBitsKeepNonzero(Shift(w), n - 1);
    }
  }

  /** From one register, two different bit strings of at most sixteen bits lead apart. */
  lemma ShortStringsLeadApart(w: Word, a: seq<bool>, b: seq<bool>)
    requires |a| == |b| <= 16 && a != b
    ensures BitFold(w, a) != BitFold(w, b)
  {
    var n := |a|;
    var pa, pb := Padded(a), Padded(b);
    var xa, xb := Xor(w, pa), Xor(w, pb);
    FoldAtOnce(w, a);
    FoldAtOnce(w, b);
    assert Xor(xa, xb) == Xor(pa, pb);
    var k :| 0 <= k < n && a[k] != b[k];
    assert Xor(pa, pb)[k];
    ShiftTimesLinear(xa, xb, n);
    ShiftTimesZero(Xor(xa, xb), n);
    XorZero(ShiftTimes(xa, n), ShiftTimes(xb, n));
  }

  lemma {:induction false} ShiftTimesLinear(a: Word, b: Word, n: nat)
    ensures ShiftTimes(Xor(a, b), n) == Xor(ShiftTimes(a, n), ShiftTimes(b, n))
    decreases n
  {
    if n > 0 {
      ShiftLinear(a, b);
      ShiftTimesLinear(Shift(a), Shift(b), n - 1);
    }
  }

  /** All positions where the bit strings differ lie in a window of sixteen bits starting at `k`. */
  predicate BurstAt(a: seq<bool>, b: seq<bool>, k: nat)
  {
    && |a| == |b|
    && (forall i :: 0 <= i < |a| && a[i] != b[i] ==> k <= i < k + 16)
  }

  lemma {:induction false} BurstLeadsApart(w: Word, a: seq<bool>, b: seq<bool>, k: nat)
    requires a != b && BurstAt(a, b, k)
    ensures BitFold(w, a) != BitFold(w, b)
  {
    var n := |a|;
    var lo := if k < n then k else n;
    var hi := if k + 16 < n then k + 16 else n;
    var p, s, u, v := a[..lo], a[hi..], a[lo..hi], b[lo..hi];
    assert a == p + (u + s);
    assert b == p + (v + s) by {
      assert p == b[..lo] && s == b[hi..];
    }
    BitFoldConcat(w, p, u + s);
    BitFoldConcat(w, p, v + s);
    var w' := BitFold(w, p);
    BitFoldConcat(w', u, s);
    BitFoldConcat(w', v, s);
    ShortStringsLeadApart(w', u, v);
    CommonSuffixKeepsDifference(BitFold(w', u), BitFold(w', v), s);
  }

  /** Every error burst confined to sixteen consecutive bits changes the CRC, at any message length. */
  lemma DetectsBursts(x: seq<byte>, y: seq<byte>, k: nat)
    requires |x| == |y| && x != y
    requires BurstAt(StreamBits(x), StreamBits(y), k)
    ensures Crc(x) != Crc(y)
  {
    if StreamBits(x) == StreamBits(y) {
      StreamBitsInjective(x, y);
    }
    FoldIsBitSerial(INIT, x);
    FoldIsBitSerial(INIT, y);
    BurstLeadsApart(INIT, StreamBits(x), StreamBits(y), k);
  }

  /** Changing one byte is such a burst. */
  lemma ByteChangeIsBurst(x: seq<byte>, j: nat, b: byte)
    requires j < |x|
    ensures BurstAt(StreamBits(x), StreamBits(x[j := b]), 8 * j)
  {
    var front, rest := x[..j], x[j + 1..];
    ByteInStream(front, x[j], rest);
    ByteInStream(front, b, rest);
    assert x == front + [x[j]] + rest && x[j := b] == front + [b] + rest;
    MiddleIsBurst(StreamBits(front), ByteBits(x[j]), ByteBits(b), StreamBits(rest));
  }

  lemma MiddleIsBurst(p: seq<bool>, u: seq<bool>, v: seq<bool>, s: seq<bool>)
    requires |u| == |v| <= 16
    ensures BurstAt(p + u + s, p + v + s, |p|)
  {
  }

  lemma ByteInStream(front: seq<byte>, b: byte, rest: seq<byte>)
    ensures StreamBits(front + [b] + rest) == StreamBits(front) + ByteBits(b) + StreamBits(rest)
  {
    StreamBitsConcat(front + [b], rest);
    StreamBitsConcat(front, [b]);
    assert [b][..0] == [];
  }

  /** The number of set bits. */
  function Weight(bits: seq<bool>): nat
  {
    if bits == [] then 0 else (if bits[0] then 1 else 0) + Weight(bits[1..])
  }

  /** Whether that number is odd. */
  predicate Odd(bits: seq<bool>)
  {
    bits != [] && (bits[0] != Odd(bits[1..]))
  }

  lemma {:induction false} OddIsWeight(bits: seq<bool>)
    ensures Odd(bits) <==> Weight(bits) % 2 == 1
  {
    if bits != [] {
      OddIsWeight(bits[1..]);
    }
  }

  lemma {:induction false} OddAppendZero(s: seq<bool>)
    ensures Odd(s + [false]) == Odd(s)
  {
    if s != [] {
      assert (s + [false])[1..] == s[1..] + [false];
      OddAppendZero(s[1..]);
    }
  }

  lemma {:induction false} OddXor(a: seq<bool>, b: seq<bool>)
    requires |a| == |b|
    ensures Odd(Xor(a, b)) == (Odd(a) != Odd(b))
  {
    if a != [] {
      assert Xor(a, b)[1..] == Xor(a[1..], b[1..]);
      OddXor(a[1..], b[1..]);
    }
  }

  lemma {:induction false} OddOfSet(s: seq<bool>, i: nat)
    requires i < |s| && !s[i]
    ensures Odd(s[i := true]) == !Odd(s)
  {
    if i == 0 {
      assert s[0 := true][1..] == s[1..];
    } else {
      assert s[i := true][1..] == s[1..][i - 1 := true];
      OddOfSet(s[1..], i - 1);
    }
  }

  lemma {:induction false} ZerosAreEven(n: nat)
    ensures !Odd(Zeros(n))
  {
    if n > 0 {
      assert Zeros(n)[1..] == Zeros(n - 1);
      ZerosAreEven(n - 1);
    }
  }

  /** Below its leading term the polynomial has an odd number of terms. */
  lemma PolyIsOdd(p: Word)
    requires p == POLY
    ensures Odd(p)
  {
    var z := Zeros(16);
    ZerosAreEven(16);
    OddOfSet(z, 3);
    OddOfSet(z[3 := true], 10);
    OddOfSet(z[3 := true][10 := true], 15);
  }

  /** With the leading term that is an even number, so a shift keeps the register's parity. */
  lemma ShiftKeepsParity(w: Word, r: Word)
    requires r == Shift(w)
    ensures Odd(r) == Odd(w)
  {
    var p: Word := POLY;
    PolyIsOdd(p);
    OddAppendZero(w[1..]);
    OddXor(w[1..] + [false], p);
  }

  lemma {:induction false} BitFoldParity(w: Word, bits: seq<bool>)
    ensures Odd(BitFold(w, bits)) == (Odd(w) != Odd(bits))
    decreases |bits|
  {
    if bits != [] {
      var w' := w[0 := w[0] != bits[0]];
      assert w'[1..] == w[1..];
      ShiftKeepsParity(w', Shift(w'));
      BitFoldParity(BitStep(w, bits[0]), bits[1..]);
    }
  }

  lemma OddErrorsLeadApart(w: Word, a: seq<bool>, b: seq<bool>)
    requires |a| == |b| && Odd(Xor(a, b))
    ensures BitFold(w, a) != BitFold(w, b)
  {
    BitFoldParity(w, a);
    BitFoldParity(w, b);
    OddXor(a, b);
  }

  /** Every error pattern with an odd number of flipped bits changes the CRC, at any message length. */
  lemma DetectsOddErrors(x: seq<byte>, y: seq<byte>)
    requires |x| == |y| && Weight(Xor(StreamBits(x), StreamBits(y))) % 2 == 1
    ensures Crc(x) != Crc(y)
  {
    FoldIsBitSerial(INIT, x);
    FoldIsBitSerial(INIT, y);
    OddIsWeight(Xor(StreamBits(x), StreamBits(y)));
    OddErrorsLeadApart(INIT, StreamBits(x), StreamBits(y));
  }
}
