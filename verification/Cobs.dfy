/** Consistent Overhead Byte Stuffing (proto/cobs.hpp): the two loops, the functions they
    compute, and the laws between them. */
module Cobs {
  import opened Bits
  import opened Sequences

  /** Bytes in a full block, and the code byte that announces one. */
  const FULL_BLOCK: nat := 254
  const FULL_CODE: byte := 0xFF

  datatype CobsStatus = Ok | OutputOverflow | InvalidInput

  predicate NoZero(s: seq<byte>)
  {
    forall i :: 0 <= i < |s| ==> s[i] != 0
  }

  // ---- Encoding ----

  /** The encoding of `rest` while `block` holds the non-zero bytes read since the last code byte. */
  function EncodeFrom(block: seq<byte>, rest: seq<byte>): (e: seq<byte>)
    requires |block| < FULL_BLOCK
    decreases |rest|
  {
    var code := (|block| + 1) as byte;
    if rest == [] then [code] + block
    else if rest[0] == 0 then [code] + block + EncodeFrom([], rest[1..])
    else if |block| + 1 == FULL_BLOCK then [FULL_CODE] + (block + [rest[0]]) + EncodeFrom([], rest[1..])
    else EncodeFrom(block + [rest[0]], rest[1..])
  }

  function Encode(x: seq<byte>): (e: seq<byte>)
  {
    EncodeFrom([], x)
  }

  /** Full blocks in `x` when `run` non-zero bytes come just before it: every maximal run of
      non-zero bytes contributes one per 254 bytes. */
  function FullBlocksFrom(x: seq<byte>, run: nat): nat
    decreases |x|
  {
    if x == [] then run / FULL_BLOCK
    else if x[0] == 0 then run / FULL_BLOCK + FullBlocksFrom(x[1..], 0)
    else FullBlocksFrom(x[1..], run + 1)
  }

  function FullBlocks(x: seq<byte>): nat
  {
    FullBlocksFrom(x, 0)
  }

  function EncodedMaxSize(rawSize: nat): nat
  {
    rawSize + rawSize / 254 + 1
  }

  lemma {:induction false} FullBlocksShift(x: seq<byte>, run: nat)
    ensures FullBlocksFrom(x, run + FULL_BLOCK) == 1 + FullBlocksFrom(x, run)
    decreases |x|
  {
    if x != [] && x[0] != 0 {
      FullBlocksShift(x[1..], run + 1);
    }
  }

  lemma {:induction false} EncodeFromSize(block: seq<byte>, rest: seq<byte>)
    requires |block| < FULL_BLOCK
    ensures |EncodeFrom(block, rest)| == 1 + |block| + |rest| + FullBlocksFrom(rest, |block|)
    decreases |rest|
  {
    if rest != [] {
      if rest[0] == 0 {
        EncodeFromSize([], rest[1..]);
      } else if |block| + 1 == FULL_BLOCK {
        EncodeFromSize([], rest[1..]);
        FullBlocksShift(rest[1..], 0);
      } else {
        EncodeFromSize(block + [rest[0]], rest[1..]);
      }
    }
  }

  lemma {:induction false} FullBlocksBound(x: seq<byte>, run: nat)
    ensures FullBlocksFrom(x, run) <= (|x| + run) / FULL_BLOCK
    decreases |x|
  {
    if x != [] {
      if x[0] == 0 {
        FullBlocksBound(x[1..], 0);
        DivSuperadditive(run, |x| - 1, |x| + run);
      } else {
        FullBlocksBound(x[1..], run + 1);
      }
    }
  }

  lemma DivSuperadditive(a: nat, b: nat, c: nat)
    requires a + b <= c
    ensures a / FULL_BLOCK + b / FULL_BLOCK <= c / FULL_BLOCK
  {
  }

  /** The exact size of an encoding, and the bound callers size their buffers with. */
  lemma EncodedSize(x: seq<byte>)
    ensures |Encode(x)| == 1 + |x| + FullBlocks(x) <= EncodedMaxSize(|x|)
  {
    EncodeFromSize([], x);
    FullBlocksBound(x, 0);
  }

  lemma {:induction false} FullBlocksOfRun(x: seq<byte>, run: nat)
    requires NoZero(x)
    ensures FullBlocksFrom(x, run) == (|x| + run) / FULL_BLOCK
    decreases |x|
  {
    if x != [] {
      FullBlocksOfRun(x[1..], run + 1);
    }
  }

  /** The bound is reached at every length, so no smaller buffer would do. */
  lemma MaxSizeIsReached(n: nat)
    ensures exists x :: |x| == n && |Encode(x)| == EncodedMaxSize(n)
  {
    var x := seq(n, _ => 1 as byte);
    FullBlocksOfRun(x, 0);
    EncodedSize(x);
    assert |x| == n && |Encode(x)| == EncodedMaxSize(n);
  }

  lemma {:induction false} EncodeFromNoZero(block: seq<byte>, rest: seq<byte>)
    requires |block| < FULL_BLOCK && NoZero(block)
    ensures NoZero(EncodeFrom(block, rest))
    decreases |rest|
  {
    if rest != [] {
      if rest[0] == 0 || |block| + 1 == FULL_BLOCK {
        EncodeFromNoZero([], rest[1..]);
      } else {
        EncodeFromNoZero(block + [rest[0]], rest[1..]);
      }
    }
  }

  /** No encoding contains the delimiter. */
  lemma EncodingHasNoZero(x: seq<byte>)
    ensures NoZero(Encode(x))
  {
    EncodeFromNoZero([], x);
  }

  // ---- Decoding ----

  /** What decoding produces: the bytes written before the first fault, and whether there was none. */
  datatype Decoded = Decoded(out: seq<byte>, ok: bool)

  /** The zero a block stands for: every block but a full one or the last has one. */
  function Gap(zero: bool, rest: seq<byte>): seq<byte>
  {
    if zero && rest != [] then [0] else []
  }

  function After(prefix: seq<byte>, d: Decoded): Decoded
  {
    Decoded(prefix + d.out, d.ok)
  }

  function Decode(y: seq<byte>): (d: Decoded)
    decreases |y|, 0
  {
    if y == [] then Decoded([], true)
    else if y[0] == 0 then Decoded([], false)
    else DecodeBlock(y[1..], y[0] as nat - 1, y[0] != FULL_CODE)
  }

  /** Decoding with `k` bytes of the current block still to copy; `zero` says whether the block stands for a zero. */
  function DecodeBlock(y: seq<byte>, k: nat, zero: bool): (d: Decoded)
    decreases |y|, 1
  {
    if k == 0 then After(Gap(zero, y), Decode(y))
    else if y == [] || y[0] == 0 then Decoded([], false)
    else After([y[0]], DecodeBlock(y[1..], k - 1, zero))
  }

  lemma {:induction false} DecodeBlockRun(run: seq<byte>, rest: seq<byte>, zero: bool)
    requires NoZero(run)
    ensures DecodeBlock(run + rest, |run|, zero) == After(run, DecodeBlock(rest, 0, zero))
  {
    if run == [] {
      assert run + rest == rest;
    } else {
      assert (run + rest)[1..] == run[1..] + rest;
      DecodeBlockRun(run[1..], rest, zero);
      assert [run[0]] + run[1..] == run;
    }
  }

  lemma AfterAfter(a: seq<byte>, b: seq<byte>, d: Decoded)
    ensures After(a, After(b, d)) == After(a + b, d)
  {
    assert a + (b + d.out) == a + b + d.out;
  }

  /** One well-formed block in front of anything. */
  lemma DecodeOneBlock(y: seq<byte>, run: seq<byte>, tail: seq<byte>)
    requires NoZero(run) && |run| <= FULL_BLOCK
    requires y != [] && y[0] as nat == |run| + 1 && y[1..] == run + tail
    ensures Decode(y) == After(run + Gap(|run| < FULL_BLOCK, tail), Decode(tail))
  {
    DecodeBlockRun(run, tail, |run| < FULL_BLOCK);
    AfterAfter(run, Gap(|run| < FULL_BLOCK, tail), Decode(tail));
  }

  lemma DecodeBlockThen(y: seq<byte>, run: seq<byte>, e: seq<byte>, body: seq<byte>, d: Decoded)
    requires NoZero(run) && |run| <= FULL_BLOCK
    requires y != [] && y[0] as nat == |run| + 1 && y[1..] == run + e
    requires Decode(e) == After(body, d)
    ensures Decode(y) == After(run + Gap(|run| < FULL_BLOCK, e) + body, d)
  {
    DecodeOneBlock(y, run, e);
    AfterAfter(run + Gap(|run| < FULL_BLOCK, e), body, d);
  }

  /** Decoding an encoding followed by more bytes: the data, a zero for the last block, and the rest.
      The encoder never leaves a full block last, so that zero is always there. */
  lemma {:induction false} DecodeEncodeFrom(block: seq<byte>, rest: seq<byte>, more: seq<byte>)
    requires |block| < FULL_BLOCK && NoZero(block)
    ensures Decode(EncodeFrom(block, rest) + more) == After(block + rest + Gap(true, more), Decode(more))
    decreases |rest|, 0
  {
    var y := EncodeFrom(block, rest) + more;
    if rest == [] {
      assert y[1..] == block + more;
      DecodeOneBlock(y, block, more);
      assert block + rest == block;
    } else {
      var b, rest' := rest[0], rest[1..];
      assert rest == [b] + rest';
      assert block + [b] + rest' == block + rest;
      if b != 0 && |block| + 1 < FULL_BLOCK {
        DecodeEncodeFrom(block + [b], rest', more);
      } else {
        var run := if b == 0 then block else block + [b];
        var e := EncodeFrom([], rest') + more;
        assert y[0] as nat == |run| + 1 && y[1..] == run + e;
        EncodeFromSize([], rest');
        assert run + Gap(|run| < FULL_BLOCK, e) == block + [b];
        DecodeEncodeFrom([], rest', more);
        assert [] + rest' == rest';
        DecodeBlockThen(y, run, e, rest' + Gap(true, more), Decode(more));
        assert block + [b] + (rest' + Gap(true, more)) == block + rest + Gap(true, more);
      }
    }
  }

  /** `cobs_decode` undoes `cobs_encode`, at every length. */
  lemma DecodeUndoesEncode(x: seq<byte>)
    ensures Decode(Encode(x)) == Decoded(x, true)
  {
    DecodeEncodeFrom([], x, []);
    assert Encode(x) + [] == Encode(x);
  }

  // ---- Encoding a decoding ----

  lemma {:induction false} EncodeRun(block: seq<byte>, run: seq<byte>, rest: seq<byte>)
    requires NoZero(run) && |block| + |run| < FULL_BLOCK
    ensures EncodeFrom(block, run + rest) == EncodeFrom(block + run, rest)
    decreases |run|
  {
    if run == [] {
      assert run + rest == rest && block + run == block;
    } else {
      assert (run + rest)[1..] == run[1..] + rest;
      EncodeRun(block + [run[0]], run[1..], rest);
      assert block + [run[0]] + run[1..] == block + run;
    }
  }

  lemma EncodeFullRun(run: seq<byte>, rest: seq<byte>)
    requires NoZero(run) && |run| == FULL_BLOCK
    ensures EncodeFrom([], run + rest) == [FULL_CODE] + run + EncodeFrom([], rest)
  {
    var n := FULL_BLOCK - 1;
    assert run + rest == run[..n] + (run[n..] + rest);
    EncodeRun([], run[..n], run[n..] + rest);
    assert [] + run[..n] == run[..n];
    assert run[..n] + [run[n]] == run;
    assert (run[n..] + rest)[1..] == rest;
  }

  lemma EncodeShortRun(run: seq<byte>, rest: seq<byte>)
    requires NoZero(run) && |run| < FULL_BLOCK
    ensures EncodeFrom([], run + [0] + rest) == [(|run| + 1) as byte] + run + EncodeFrom([], rest)
  {
    assert run + [0] + rest == run + ([0] + rest);
    EncodeRun([], run, [0] + rest);
    assert [] + run == run && ([0] + rest)[1..] == rest;
  }

  lemma EncodeLastRun(run: seq<byte>)
    requires NoZero(run) && |run| < FULL_BLOCK
    ensures EncodeFrom([], run) == [(|run| + 1) as byte] + run
  {
    EncodeRun([], run, []);
    assert run + [] == run && [] + run == run;
  }

  /** The encoding, run by run: the data up to the next zero behind its length plus one, the zero left out; a run of
      254 behind 0xFF, nothing left out; the last run likewise. These equations determine every encoding. */
  lemma EncodeByRuns(run: seq<byte>, rest: seq<byte>)
    requires NoZero(run)
    ensures |run| < 254 ==> Encode(run) == [(|run| + 1) as byte] + run
    ensures |run| < 254 ==> Encode(run + [0] + rest) == [(|run| + 1) as byte] + run + Encode(rest)
    ensures |run| == 254 ==> Encode(run + rest) == [0xFF] + run + Encode(rest)
  {
    if |run| < 254 {
      EncodeLastRun(run);
      EncodeShortRun(run, rest);
    } else if |run| == 254 {
      EncodeFullRun(run, rest);
    }
  }

  /** Whether the last block of an accepted input is a full one. */
  predicate EndsInFullBlock(y: seq<byte>)
    decreases |y|
  {
    y != [] && y[0] != 0 &&
    if |y| <= y[0] as nat then |y| == y[0] as nat && y[0] == FULL_CODE else EndsInFullBlock(y[y[0] as nat..])
  }

  lemma {:induction false} AcceptedRunLength(y: seq<byte>, k: nat, zero: bool)
    requires DecodeBlock(y, k, zero).ok
    ensures k <= |y| && NoZero(y[..k])
  {
    if k > 0 {
      AcceptedRunLength(y[1..], k - 1, zero);
      assert y[..k] == [y[0]] + y[1..][..k - 1];
    }
  }

  lemma AcceptedRun(y: seq<byte>)
    requires y != [] && Decode(y).ok
    ensures 1 <= y[0] as nat <= |y| && NoZero(y[1..y[0] as nat])
  {
    var code := y[0] as nat;
    AcceptedRunLength(y[1..], code - 1, y[0] != FULL_CODE);
    assert y[1..][..code - 1] == y[1..code];
  }

  lemma DecodeView(y: seq<byte>)
    requires y != [] && Decode(y).ok
    ensures var code := y[0] as nat;
            && 1 <= code <= |y| && NoZero(y[1..code]) && Decode(y[code..]).ok
            && Decode(y).out == y[1..code] + Gap(y[0] != FULL_CODE, y[code..]) + Decode(y[code..]).out
  {
    AcceptedRun(y);
    var code := y[0] as nat;
    CutBlock(y, code);
    BlockView(y, y[1..code], y[code..]);
  }

  lemma CutBlock(y: seq<byte>, code: nat)
    requires 1 <= code <= |y|
    ensures y[1..] == y[1..code] + y[code..]
  {
  }

  lemma BlockView(y: seq<byte>, run: seq<byte>, rest: seq<byte>)
    requires NoZero(run) && |run| <= FULL_BLOCK
    requires y != [] && y[0] as nat == |run| + 1 && y[1..] == run + rest
    ensures Decode(y).ok == Decode(rest).ok
    ensures Decode(y).out == run + Gap(y[0] != FULL_CODE, rest) + Decode(rest).out
  {
    DecodeOneBlock(y, run, rest);
  }

  /** Encoding the decoding of an accepted input gives the input back, except that the encoder
      closes a final full block (and the empty input) with one more code byte. */
  lemma {:induction false} EncodeUndoesDecode(y: seq<byte>)
    requires Decode(y).ok
    ensures Encode(Decode(y).out) == y + (if y == [] || EndsInFullBlock(y) then [1] else [])
    decreases |y|
  {
    if y != [] {
      DecodeView(y);
      var code := y[0] as nat;
      var run, rest := y[1..code], y[code..];
      assert y == [y[0]] + run + rest;
      var d := Decode(rest).out;
      EncodeUndoesDecode(rest);
      if y[0] == FULL_CODE {
        assert Decode(y).out == run + d;
        EncodeFullRun(run, d);
      } else if rest == [] {
        assert Decode(y).out == run;
        EncodeLastRun(run);
      } else {
        EncodeShortRun(run, d);
      }
    }
  }

  // ---- Changing a data byte ----

  /** The byte at `i` is data, not one of the code bytes that open the blocks. */
  predicate IsData(y: seq<byte>, i: nat)
    decreases |y|
  {
    i < |y| && y[0] != 0 && i > 0 &&
    (i < y[0] as nat || (y[0] as nat <= |y| && IsData(y[y[0] as nat..], i - y[0] as nat)))
  }

  /** Such a byte in the first block. */
  lemma ChangedInRun(y: seq<byte>, run: seq<byte>, rest: seq<byte>, i: nat, b: byte)
    requires NoZero(run) && |run| <= FULL_BLOCK && 0 < i <= |run| && b != 0
    requires y != [] && y[0] as nat == |run| + 1 && y[1..] == run + rest
    ensures Decode(y[i := b]).ok == Decode(rest).ok
    ensures Decode(y[i := b]).out == run[i - 1 := b] + Gap(y[0] != FULL_CODE, rest) + Decode(rest).out
  {
    assert y[i := b][1..] == run[i - 1 := b] + rest;
    BlockView(y[i := b], run[i - 1 := b], rest);
  }

  /** Such a byte behind the first block. */
  lemma ChangedInRest(y: seq<byte>, run: seq<byte>, rest: seq<byte>, i: nat, b: byte)
    requires NoZero(run) && |run| <= FULL_BLOCK && i < |rest|
    requires y != [] && y[0] as nat == |run| + 1 && y[1..] == run + rest
    ensures var y' := y[|run| + 1 + i := b];
            && Decode(y').ok == Decode(rest[i := b]).ok
            && Decode(y').out == run + Gap(y[0] != FULL_CODE, rest) + Decode(rest[i := b]).out
  {
    var y' := y[|run| + 1 + i := b];
    assert y'[1..] == run + rest[i := b];
    BlockView(y', run, rest[i := b]);
  }

  lemma ReplaceIn(a: seq<byte>, c: seq<byte>, j: nat, b: byte)
    requires j < |c|
    ensures (a + c)[|a| + j := b] == a + c[j := b] && (a + c)[|a| + j] == c[j]
  {
  }

  lemma ReplaceFront(a: seq<byte>, c: seq<byte>, j: nat, b: byte)
    requires j < |a|
    ensures (a + c)[j := b] == a[j := b] + c && (a + c)[j] == a[j]
  {
  }

  /** Changing one data byte to another non-zero one changes exactly the byte it decodes to. */
  lemma {:induction false} ChangedData(y: seq<byte>, i: nat, b: byte) returns (j: nat)
    requires Decode(y).ok && IsData(y, i) && b != 0
    ensures var x := Decode(y).out;
            j < |x| && x[j] == y[i] && Decode(y[i := b]) == Decoded(x[j := b], true)
    decreases |y|
  {
    DecodeView(y);
    var code := y[0] as nat;
    CutBlock(y, code);
    var run, rest := y[1..code], y[code..];
    var gap, d := Gap(y[0] != FULL_CODE, rest), Decode(rest).out;
    if i < code {
      ChangedInRun(y, run, rest, i, b);
      j := i - 1;
      ReplaceFront(run, gap, j, b);
      ReplaceFront(run + gap, d, j, b);
    } else {
      var k := ChangedData(rest, i - code, b);
      ChangedBehind(y, run, rest, i - code, b, k);
      j := |run + gap| + k;
    }
  }

  lemma ChangedBehind(y: seq<byte>, run: seq<byte>, rest: seq<byte>, i: nat, b: byte, k: nat)
    requires NoZero(run) && |run| <= FULL_BLOCK && i < |rest|
    requires y != [] && y[0] as nat == |run| + 1 && y[1..] == run + rest
    requires var d := Decode(rest).out; k < |d| && d[k] == rest[i] && Decode(rest[i := b]) == Decoded(d[k := b], true)
    ensures var x, j := run + Gap(y[0] != FULL_CODE, rest) + Decode(rest).out, |run + Gap(y[0] != FULL_CODE, rest)| + k;
            j < |x| && x[j] == rest[i] && Decode(y[|run| + 1 + i := b]) == Decoded(x[j := b], true)
  {
    ChangedInRest(y, run, rest, i, b);
    ReplaceIn(run + Gap(y[0] != FULL_CODE, rest), Decode(rest).out, k, b);
  }

  // ---- Inputs too short for a full block ----

  lemma {:induction false} DecodedLength(y: seq<byte>)
    requires Decode(y).ok && 0 < |y| <= FULL_BLOCK
    ensures |Decode(y).out| == |y| - 1
    decreases |y|
  {
    DecodeView(y);
    var rest := y[y[0] as nat..];
    if rest != [] {
      DecodedLength(rest);
    }
  }

  /** What the first bytes decode to does not depend on the bytes behind them. */
  lemma {:induction false} DecodedPrefix(y: seq<byte>, z: seq<byte>, n: nat, k: nat)
    requires Decode(y).ok && Decode(z).ok && 0 < n <= |y| <= FULL_BLOCK && n <= |z| <= FULL_BLOCK && y[..n] == z[..n]
    requires k + 1 < n
    ensures k < |Decode(y).out| && k < |Decode(z).out| && Decode(y).out[k] == Decode(z).out[k]
    decreases |y|
  {
    DecodeView(y);
    DecodeView(z);
    assert y[0] == y[..n][0] == z[0];
    var code := y[0] as nat;
    DecodedLength(y);
    DecodedLength(z);
    if k + 1 < code {
      DecodedInRun(y, k);
      DecodedInRun(z, k);
      assert y[k + 1] == y[..n][k + 1] == z[k + 1];
    } else if k + 1 == code {
      DecodedGap(y, k);
      DecodedGap(z, k);
    } else {
      SamePart(y, z, n, code);
      DecodedPrefix(y[code..], z[code..], n - code, k - code);
      DecodedBehind(y, k);
      DecodedBehind(z, k);
    }
  }

  // The three places the k-th decoded byte can come from.

  lemma DecodedInRun(y: seq<byte>, k: nat)
    requires Decode(y).ok && y != [] && k + 1 < y[0] as nat && y[0] as nat <= |y| && k < |Decode(y).out|
    ensures Decode(y).out[k] == y[k + 1]
  {
    DecodeView(y);
    assert y[1..y[0] as nat][k] == y[k + 1];
  }

  lemma DecodedGap(y: seq<byte>, k: nat)
    requires Decode(y).ok && y != [] && k + 1 == y[0] as nat < |y| && y[0] != FULL_CODE && k < |Decode(y).out|
    ensures Decode(y).out[k] == 0
  {
    DecodeView(y);
  }

  lemma DecodedBehind(y: seq<byte>, k: nat)
    requires Decode(y).ok && y != [] && 0 < y[0] as nat <= k && y[0] as nat < |y| && y[0] != FULL_CODE && k < |Decode(y).out|
    ensures var rest := Decode(y[y[0] as nat..]).out; k - y[0] as nat < |rest| && Decode(y).out[k] == rest[k - y[0] as nat]
  {
    DecodeView(y);
  }

  lemma SamePart(y: seq<byte>, z: seq<byte>, n: nat, code: nat)
    requires code <= n <= |y| && n <= |z| && y[..n] == z[..n]
    ensures y[code..][..n - code] == z[code..][..n - code]
  {
    assert y[code..][..n - code] == y[..n][code..] && z[code..][..n - code] == z[..n][code..];
  }

  // ---- The loops ----

  // The three cases of one turn of the encoder's loop: `done` is what precedes the open block, `e` what it and
  // the rest encode to.

  lemma EncodeZero(done: seq<byte>, block: seq<byte>, rest: seq<byte>, e: seq<byte>, e': seq<byte>)
    requires |block| < FULL_BLOCK && rest != [] && rest[0] == 0
    requires e == EncodeFrom(block, rest) && e' == EncodeFrom([], rest[1..])
    ensures done + e == done + ([(|block| + 1) as byte] + block) + e'
  {
    Assoc(done, [(|block| + 1) as byte] + block, e');
  }

  lemma EncodeData(block: seq<byte>, rest: seq<byte>)
    requires |block| + 1 < FULL_BLOCK && rest != [] && rest[0] != 0
    ensures EncodeFrom(block, rest) == EncodeFrom(block + [rest[0]], rest[1..])
  {
  }

  lemma EncodeFull(done: seq<byte>, block: seq<byte>, rest: seq<byte>, e: seq<byte>, e': seq<byte>)
    requires |block| + 1 == FULL_BLOCK && rest != [] && rest[0] != 0
    requires e == EncodeFrom(block, rest) && e' == EncodeFrom([], rest[1..])
    ensures done + e == done + ([FULL_CODE] + (block + [rest[0]])) + e'
  {
    Assoc(done, [FULL_CODE] + (block + [rest[0]]), e');
  }

  /** What is still to be written needs more room than the open block. */
  lemma EncodeNeeds(block: seq<byte>, rest: seq<byte>, e: seq<byte>)
    requires |block| < FULL_BLOCK && rest != [] && e == EncodeFrom(block, rest)
    ensures |e| > 1 + |block|
    ensures rest[0] != 0 && |block| + 1 == FULL_BLOCK ==> |e| > 2 + |block|
  {
    EncodeFromSize(block, rest);
    if rest[0] != 0 && |block| + 1 == FULL_BLOCK {
      FullBlocksShift(rest[1..], 0);
    }
  }

  /** One turn of the encoder's loop, on values. */
  lemma EncodeStep(done: seq<byte>, block: seq<byte>, rest: seq<byte>)
    requires |block| < FULL_BLOCK && rest != []
    ensures var e := done + EncodeFrom(block, rest);
            var block' := block + [rest[0]];
            && |e| > |done| + 1 + |block|
            && (rest[0] == 0 ==> e == done + ([(|block| + 1) as byte] + block) + EncodeFrom([], rest[1..]))
            && (rest[0] != 0 && |block'| < FULL_BLOCK ==> e == done + EncodeFrom(block', rest[1..]))
            && (rest[0] != 0 && |block'| == FULL_BLOCK ==>
                  |e| > |done| + 1 + |block'| && e == done + ([FULL_CODE] + block') + EncodeFrom([], rest[1..]))
  {
    var e, e' := EncodeFrom(block, rest), EncodeFrom([], rest[1..]);
    EncodeNeeds(block, rest, e);
    if rest[0] == 0 {
      EncodeZero(done, block, rest, e, e');
    } else if |block| + 1 < FULL_BLOCK {
      EncodeData(block, rest);
    } else {
      EncodeFull(done, block, rest, e, e');
    }
  }

  /** Writes the code byte of the open block, completing it. */
  method CloseBlock(dst: array<byte>, codeIndex: nat, code: byte, ghost done: seq<byte>, ghost block: seq<byte>)
    requires |done| == codeIndex && codeIndex + 1 + |block| <= dst.Length
    requires dst[..codeIndex] == done && dst[codeIndex + 1..codeIndex + 1 + |block|] == block
    modifies dst
    ensures dst[..codeIndex + 1 + |block|] == done + ([code] + block)
  {
    dst[codeIndex] := code;
    assert dst[codeIndex + 1..codeIndex + 1 + |block|] == block;
    assert dst[..codeIndex] == done;
  }

  /** Appends a data byte to the open block. */
  method AppendByte(dst: array<byte>, codeIndex: nat, write: nat, b: byte, ghost done: seq<byte>, ghost block: seq<byte>)
    requires |done| == codeIndex && write == codeIndex + 1 + |block| < dst.Length
    requires dst[..codeIndex] == done && dst[codeIndex + 1..write] == block
    modifies dst
    ensures dst[..codeIndex] == done && dst[codeIndex + 1..write + 1] == block + [b]
  {
    dst[write] := b;
    assert dst[..codeIndex] == done && dst[codeIndex + 1..write] == block;
  }

  /** The encoder between two bytes: `done` is written, `block` is open behind its reserved code byte. */
  ghost predicate Open(dst: array<byte>, capacity: nat, codeIndex: nat, write: nat, done: seq<byte>, block: seq<byte>)
    requires capacity <= dst.Length
    reads dst
  {
    && |block| < FULL_BLOCK && |done| == codeIndex && write == codeIndex + 1 + |block| <= capacity
    && dst[..codeIndex] == done && dst[codeIndex + 1..write] == block
  }

  /** The body of the encoder's loop: takes in one byte, or finds the buffer full. */
  method EncodeByte(dst: array<byte>, capacity: nat, b: byte, codeIndex: nat, write: nat, code: nat,
                    ghost done: seq<byte>, ghost block: seq<byte>, ghost rest: seq<byte>)
    returns (fits: bool, codeIndex': nat, write': nat, code': nat, ghost done': seq<byte>, ghost block': seq<byte>)
    requires capacity <= dst.Length && Open(dst, capacity, codeIndex, write, done, block) && code == |block| + 1
    requires rest != [] && rest[0] == b
    modifies dst
    ensures fits ==> Open(dst, capacity, codeIndex', write', done', block') && code' == |block'| + 1
    ensures fits ==> done' + EncodeFrom(block', rest[1..]) == done + EncodeFrom(block, rest)
    ensures !fits ==> |done + EncodeFrom(block, rest)| > capacity
  {
    EncodeStep(done, block, rest);
    codeIndex', write', code', done', block' := codeIndex, write, code, done, block;
    if b != 0 {
      if write >= capacity {
        return false, codeIndex', write', code', done', block';
      }
      AppendByte(dst, codeIndex, write, b, done, block);
      write' := write + 1;
      code' := code + 1;
      block' := block + [b];
      if code' != 0xFF {
        return true, codeIndex', write', code', done', block';
      }
    }
    CloseBlock(dst, codeIndex, code' as byte, done, block');
    if write' >= capacity {
      return false, codeIndex', write', code', done', block';
    }
    done', block' := done + ([code' as byte] + block'), [];
    codeIndex' := write';
    write' := write' + 1;
    code' := 1;
    fits := true;
  }

  method CobsEncode(src: array<byte>, srcSize: nat, dst: array<byte>, capacity: nat)
    returns (status: CobsStatus, size: nat)
    requires srcSize <= src.Length && capacity <= dst.Length && src != dst
    modifies dst
    ensures status == if |Encode(src[..srcSize])| <= capacity then Ok else OutputOverflow
    ensures status.Ok? ==> size == |Encode(src[..srcSize])| && dst[..size] == Encode(src[..srcSize])
  {
    ghost var x := src[..srcSize];
    EncodedSize(x);
    if capacity == 0 {
      return OutputOverflow, 0;
    }
    var write, codeIndex, code := 1, 0, 1;
    ghost var done: seq<byte>, block: seq<byte> := [], [];
    assert x[0..] == x;
    for read := 0 to srcSize
      invariant src[..srcSize] == x
      invariant Open(dst, capacity, codeIndex, write, done, block) && code == |block| + 1
      invariant done + EncodeFrom(block, x[read..]) == Encode(x)
    {
      assert x[read..][1..] == x[read + 1..];
      var fits: bool;
      fits, codeIndex, write, code, done, block :=
        EncodeByte(dst, capacity, src[read], codeIndex, write, code, done, block, x[read..]);
      if !fits {
        return OutputOverflow, 0;
      }
    }
    assert x[srcSize..] == [];
    CloseBlock(dst, codeIndex, code as byte, done, block);
    return Ok, write;
  }

  method Put(dst: array<byte>, write: nat, b: byte)
    requires write < dst.Length
    modifies dst
    ensures dst[..write + 1] == old(dst[..write]) + [b]
  {
    dst[write] := b;
    assert dst[..write] == old(dst[..write]);
  }

  /** The decoder's inner loop: copies the `count` data bytes of one block. */
  method CopyBlock(src: array<byte>, srcSize: nat, start: nat, count: nat, dst: array<byte>, capacity: nat, at: nat,
                   ghost zero: bool, ghost whole: Decoded)
    returns (status: CobsStatus, read: nat, write: nat)
    requires start <= srcSize <= src.Length && at <= capacity <= dst.Length && src != dst
    requires After(dst[..at], DecodeBlock(src[start..srcSize], count, zero)) == whole
    modifies dst
    ensures start <= read <= srcSize && write <= capacity
    ensures status.Ok? ==> After(dst[..write], DecodeBlock(src[read..srcSize], 0, zero)) == whole
    ensures status.InvalidInput? ==> !whole.ok && |whole.out| <= capacity
    ensures status.OutputOverflow? ==> |whole.out| > capacity
  {
    read, write := start, at;
    for i := 0 to count
      invariant start <= read <= srcSize && write <= capacity
      invariant After(dst[..write], DecodeBlock(src[read..srcSize], count - i, zero)) == whole
    {
      if read >= srcSize {
        return InvalidInput, read, write;
      }
      ghost var y := src[read..srcSize];
      var b := src[read];
      read := read + 1;
      if b == 0 {
        return InvalidInput, read, write;
      }
      assert y[1..] == src[read..srcSize];
      AfterAfter(dst[..write], [b], DecodeBlock(y[1..], count - i - 1, zero));
      if write >= capacity {
        return OutputOverflow, read, write;
      }
      Put(dst, write, b);
      write := write + 1;
    }
    return Ok, read, write;
  }

  method CobsDecode(src: array<byte>, srcSize: nat, dst: array<byte>, capacity: nat)
    returns (status: CobsStatus, size: nat)
    requires srcSize <= src.Length && capacity <= dst.Length && src != dst
    modifies dst
    ensures var d := Decode(src[..srcSize]);
            status == if |d.out| > capacity then OutputOverflow else if d.ok then Ok else InvalidInput
    ensures status.Ok? ==> size == |Decode(src[..srcSize]).out| && dst[..size] == Decode(src[..srcSize]).out
  {
    ghost var d := Decode(src[..srcSize]);
    var write, read := 0, 0;
    assert src[0..srcSize] == src[..srcSize];
    while read < srcSize
      invariant read <= srcSize && write <= capacity
      invariant After(dst[..write], Decode(src[read..srcSize])) == d
      decreases srcSize - read
    {
      var code := src[read];
      assert src[read..srcSize][1..] == src[read + 1..srcSize];
      read := read + 1;
      if code == 0 {
        return InvalidInput, 0;
      }
      var copied: CobsStatus;
      copied, read, write := CopyBlock(src, srcSize, read, code as nat - 1, dst, capacity, write, code != FULL_CODE, d);
      if copied != Ok {
        return copied, 0;
      }
      AfterAfter(dst[..write], Gap(code != FULL_CODE, src[read..srcSize]), Decode(src[read..srcSize]));
      if code != FULL_CODE && read < srcSize {
        if write >= capacity {
          return OutputOverflow, 0;
        }
        Put(dst, write, 0);
        write := write + 1;
      } else {
        assert dst[..write] + [] == dst[..write];
      }
    }
    return Ok, write;
  }
}
