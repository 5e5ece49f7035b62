/** Which error the parser reports, in terms of the bytes alone, and where the parts of a frame lie. */
module FrameErrors {
  import opened Bits
  import opened Cobs
  import opened Crc16
  import opened Delimited
  import opened FrameEncoder
  import opened FrameParser
  import opened FrameStream
  import opened Sequences
  import opened Split

  // ---- The layout of a frame ----

  /** Type, payload size, payload, and the CRC of all that, high byte first. */
  lemma BlobLayout(f: Frame)
    requires Fits(f)
    ensures var n, b := |f.payload|, Blob(f);
            && |b| == n + 4 && b[0] == f.mtype && b[1] as nat == n && b[2..n + 2] == f.payload
            && b[n + 2] as nat * 256 + b[n + 3] as nat == Value(Crc(b[..n + 2]))
  {
    var n, b := |f.payload|, Blob(f);
    assert b[..n + 2] == Covered(f);
    WordValue(Crc(Covered(f)));
  }

  lemma WordValue(w: Word)
    ensures var p := WordBytes(w); p[0] as nat * 256 + p[1] as nat == Value(w)
  {
    ValueSplits(w, 8);
    Pow2Of8();
  }

  lemma {:induction false} ValueSplits(bits: seq<bool>, k: nat)
    requires k <= |bits|
    ensures Value(bits) == Value(bits[..k]) * Pow2(|bits| - k) + Value(bits[k..])
  {
    if k == |bits| {
      assert bits[..k] == bits && bits[k..] == [];
    } else {
      var n := |bits| - 1;
      ValueSplits(bits[..n], k);
      assert bits[..n][..k] == bits[..k] && bits[..n][k..] == bits[k..][..n - k];
      assert bits[k..][n - k] == bits[n];
      Double(Value(bits[..k]), Pow2(n - k));
    }
  }

  lemma Double(a: nat, p: nat)
    ensures 2 * (a * p) == a * (2 * p)
  {
  }

  // ---- What a segment stands for ----

  /** The segment is the encoding of `x`, possibly without the code byte behind a final full block. */
  predicate Encodes(segment: seq<byte>, x: seq<byte>)
  {
    segment == Encode(x) || (EndsInFullBlock(segment) && segment + [1] == Encode(x))
  }

  lemma DecodesExactly(segment: seq<byte>, x: seq<byte>)
    requires segment != []
    ensures Decode(segment) == Decoded(x, true) <==> Encodes(segment, x)
  {
    if Decode(segment) == Decoded(x, true) {
      EncodeUndoesDecode(segment);
    }
    if Encodes(segment, x) {
      DecodeUndoesEncode(x);
      if segment != Encode(x) {
        EncodingHasNoZero(x);
        assert segment == Encode(x)[..|segment|];
        TrailingOne(segment);
      }
    }
  }

  /** The size byte agrees with the size. */
  predicate SizeAgrees(x: seq<byte>)
  {
    |x| >= 4 && |x| == x[1] as nat + 4
  }

  /** The last two bytes are the CRC of the rest. */
  predicate ChecksumAgrees(x: seq<byte>)
  {
    |x| >= 2 && x[|x| - 2..] == WordBytes(Crc(x[..|x| - 2]))
  }

  lemma ResidueAgrees(x: seq<byte>)
    requires |x| >= 2
    ensures Crc(x) == ZERO <==> ChecksumAgrees(x)
  {
    var n := |x| - 2;
    assert x == x[..n] + x[n..];
    ResidueZero(x[..n], x[n..]);
  }

  /** The segment stands for `x`, and that is within the parser's limit. */
  predicate StandsFor(maxPayload: nat, segment: seq<byte>, x: seq<byte>)
  {
    |x| <= maxPayload + 4 && Encodes(segment, x)
  }

  lemma VerdictOf(maxPayload: nat, segment: seq<byte>, x: seq<byte>)
    requires segment != [] && StandsFor(maxPayload, segment, x)
    ensures Finish(maxPayload, segment)
            == if !SizeAgrees(x) then Reject(BadLength)
               else if !ChecksumAgrees(x) then Reject(BadCrc)
               else Deliver(Frame(x[0], x[2..|x| - 2]))
  {
    DecodesExactly(segment, x);
    if |x| >= 2 {
      ResidueAgrees(x);
    }
  }

  lemma NoVerdictOf(maxPayload: nat, segment: seq<byte>)
    requires segment != [] && forall x :: !StandsFor(maxPayload, segment, x)
    ensures Finish(maxPayload, segment) == Reject(CobsError)
  {
    var d := Decode(segment);
    if d.ok {
      DecodesExactly(segment, d.out);
      assert !StandsFor(maxPayload, segment, d.out);
    }
  }

  /** The verdict on a segment, from the segment alone: a COBS error exactly if it is no encoding of anything within
      the limit, otherwise a length error exactly if the size byte is wrong, otherwise a CRC error exactly if the
      last two bytes are not the CRC, otherwise the frame. */
  lemma VerdictExactly(maxPayload: nat, segment: seq<byte>)
    requires segment != []
    ensures var v := Finish(maxPayload, segment);
            && (v == Reject(CobsError) <==> forall x :: !StandsFor(maxPayload, segment, x))
            && (v == Reject(BadLength) <==> exists x :: StandsFor(maxPayload, segment, x) && !SizeAgrees(x))
            && (v == Reject(BadCrc) <==> exists x :: StandsFor(maxPayload, segment, x) && SizeAgrees(x) && !ChecksumAgrees(x))
            && (v.Deliver? <==> exists x :: StandsFor(maxPayload, segment, x) && SizeAgrees(x) && ChecksumAgrees(x))
  {
    if x :| StandsFor(maxPayload, segment, x) {
      forall y | StandsFor(maxPayload, segment, y)
        ensures y == x
      {
        DecodesExactly(segment, x);
        DecodesExactly(segment, y);
      }
      VerdictOf(maxPayload, segment, x);
    } else {
      NoVerdictOf(maxPayload, segment);
    }
  }

  // ---- What the parser reports ----

  function ErrorOf(v: Verdict): ParseError
  {
    match v case Deliver(_) => NoError case Reject(e) => e
  }

  /** The longest segment the buffer holds. */
  function LongestSegment(maxPayload: nat): nat
  {
    (maxPayload + 4) + (maxPayload + 4) / 254 + 1
  }

  /** After every byte of every stream from a boundary: a delimiter reports the verdict on the segment it ends, if
      that is neither empty nor too long; another byte reports a segment too long exactly as the first byte beyond
      the buffer; and nothing else is ever reported. */
  lemma LastErrorExactly(p: Parser, s: seq<byte>, b: byte)
    requires AtBoundary(p)
    ensures var t, e := Tail(DELIMITER, s), Feed(p, s + [b]).parser.lastError;
            var longest := LongestSegment(p.maxPayload);
            e == if b == 0 then (if t == [] || |t| > longest then NoError else ErrorOf(Finish(p.maxPayload, t)))
                 else (if |t| == longest then FrameTooLong else NoError)
  {
    ParserRefinesSplit(p, s);
    FeedLast(p, s, b);
    LongestIs(p.maxPayload);
    StepError(Feed(p, s).parser, b);
  }

  lemma LongestIs(maxPayload: nat)
    ensures BufferSize(maxPayload) == LongestSegment(maxPayload)
  {
  }

  lemma StepError(q: Parser, b: byte)
    ensures Step(q, b).parser.lastError
            == match q.mode
               case Hunting => NoError
               case SkipToDelimiter => NoError
               case InFrame =>
                 if b == 0 then ErrorOf(Finish(q.maxPayload, q.buffer))
                 else if |q.buffer| == BufferSize(q.maxPayload) then FrameTooLong else NoError
  {
  }
}
