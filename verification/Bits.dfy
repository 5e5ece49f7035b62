/** Bytes and words as the wire protocol sees them: a byte is a number below 256, and
    a bit string lists its bits most significant first. */
module Bits {
  import opened Sequences

  newtype byte = x: int | 0 <= x < 256

  /** A `uint16_t`, as its sixteen bits, most significant first. */
  type Word = w: seq<bool> | |w| == 16 witness seq(16, _ => false)

  function Zeros(n: nat): (z: seq<bool>)
    ensures |z| == n && forall i :: 0 <= i < n ==> !z[i]
  {
    seq(n, _ => false)
  }

  function Ones(n: nat): (z: seq<bool>)
    ensures |z| == n && forall i :: 0 <= i < n ==> z[i]
  {
    seq(n, _ => true)
  }

  /** Bitwise exclusive or of two bit strings of one length. */
  function Xor(a: seq<bool>, b: seq<bool>): (r: seq<bool>)
    requires |a| == |b|
    ensures |r| == |a| && forall i :: 0 <= i < |a| ==> r[i] == (a[i] != b[i])
  {
    seq(|a|, i requires 0 <= i < |a| => a[i] != b[i])
  }

  /** The number a bit string denotes. */
  function Value(bits: seq<bool>): (n: nat)
    ensures n < Pow2(|bits|)
  {
    if bits == [] then 0
    else 2 * Value(bits[..|bits| - 1]) + if bits[|bits| - 1] then 1 else 0
  }

  /** The `k` low bits of `n`. */
  function BitsOf(n: nat, k: nat): (r: seq<bool>)
    ensures |r| == k
  {
    if k == 0 then [] else BitsOf(n / 2, k - 1) + [n % 2 == 1]
  }

  function Pow2(k: nat): (p: nat)
    ensures p > 0
  {
    if k == 0 then 1 else 2 * Pow2(k - 1)
  }

  lemma {:induction false} ValueOfBitsOf(n: nat, k: nat)
    requires n < Pow2(k)
    ensures Value(BitsOf(n, k)) == n
  {
    if k > 0 {
      ValueOfBitsOf(n / 2, k - 1);
      assert BitsOf(n, k)[..k - 1] == BitsOf(n / 2, k - 1);
    }
  }

  lemma {:induction false} BitsOfValue(bits: seq<bool>)
    ensures BitsOf(Value(bits), |bits|) == bits
  {
    if bits != [] {
      var front, last := bits[..|bits| - 1], bits[|bits| - 1];
      BitsOfValue(front);
      BitsOfDouble(Value(front), last, |front|);
      assert bits == front + [last];
    }
  }

  lemma BitsOfDouble(v: nat, b: bool, k: nat)
    ensures BitsOf(2 * v + if b then 1 else 0, k + 1) == BitsOf(v, k) + [b]
  {
  }

  const BYTE_BITS: nat := 8

  function ByteBits(b: byte): (r: seq<bool>)
    ensures |r| == 8
  {
    BitsOf(b as nat, BYTE_BITS)
  }

  function ByteOf(bits: seq<bool>): (b: byte)
    requires |bits| == 8
  {
    assert Pow2(4) == 16;
    Value(bits) as byte
  }

  lemma ByteBitsOfByte(bits: seq<bool>)
    requires |bits| == 8
    ensures ByteBits(ByteOf(bits)) == bits
  {
    BitsOfValue(bits);
  }

  lemma Pow2Of8()
    ensures Pow2(8) == 256
  {
    assert Pow2(4) == 16;
  }

  /** A byte is determined by its bits. */
  lemma ByteBitsInjective(a: byte, b: byte)
    requires ByteBits(a) == ByteBits(b)
    ensures a == b
  {
    Pow2Of8();
    ValueOfBitsOf(a as nat, 8);
    ValueOfBitsOf(b as nat, 8);
  }

  /** The bits of a byte string in transmission order. */
  function StreamBits(bs: seq<byte>): (r: seq<bool>)
    ensures |r| == 8 * |bs|
  {
    if bs == [] then [] else StreamBits(bs[..|bs| - 1]) + ByteBits(bs[|bs| - 1])
  }

  lemma StreamBitsLast(front: seq<byte>, b: byte)
    ensures StreamBits(front + [b]) == StreamBits(front) + ByteBits(b)
  {
    assert (front + [b])[..|front|] == front;
  }

  lemma {:induction false} StreamBitsConcat(a: seq<byte>, b: seq<byte>)
    ensures StreamBits(a + b) == StreamBits(a) + StreamBits(b)
  {
    if b == [] {
      assert a + b == a;
    } else {
      var front, last := b[..|b| - 1], b[|b| - 1];
      StreamBitsConcat(a, front);
      assert b == front + [last];
      assert a + b == (a + front) + [last];
      StreamBitsLast(a + front, last);
      StreamBitsLast(front, last);
      Assoc(StreamBits(a), StreamBits(front), ByteBits(last));
    }
  }

  lemma {:induction false} StreamBitsInjective(a: seq<byte>, b: seq<byte>)
    requires |a| == |b| && StreamBits(a) == StreamBits(b)
    ensures a == b
  {
    if a != [] {
      var n := |a| - 1;
      SameParts(StreamBits(a[..n]), ByteBits(a[n]), StreamBits(b[..n]), ByteBits(b[n]));
      StreamBitsInjective(a[..n], b[..n]);
      ByteBitsInjective(a[n], b[n]);
      SplitLast(a);
      SplitLast(b);
    }
  }

  lemma SameParts(p: seq<bool>, u: seq<bool>, q: seq<bool>, v: seq<bool>)
    requires p + u == q + v && |p| == |q|
    ensures p == q && u == v
  {
    assert (p + u)[..|p|] == p && (q + v)[..|q|] == q;
    assert (p + u)[|p|..] == u && (q + v)[|q|..] == v;
  }
}
