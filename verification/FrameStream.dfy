/** Encoder and parser together: what the parser accepts, the end-to-end round trip, and how far
    damage on the line reaches. */
module FrameStream {
  import opened Bits
  import opened Crc16
  import opened CrcFewErrors
  import opened Cobs
  import opened Delimited
  import opened Split
  import opened FrameEncoder
  import opened FrameParser
  import opened Sequences

  /** The frame is within the encoder's limit and this parser's. */
  predicate Sendable(maxPayload: nat, f: Frame)
  {
    Fits(f) && |f.payload| <= maxPayload
  }

  predicate AllSendable(maxPayload: nat, fs: seq<Frame>)
  {
    forall i :: 0 <= i < |fs| ==> Sendable(maxPayload, fs[i])
  }

  // ---- What a segment must be to be delivered ----

  lemma FinishAcceptsBlob(maxPayload: nat, segment: seq<byte>, f: Frame)
    requires Sendable(maxPayload, f) && Decode(segment) == Decoded(Blob(f), true)
    ensures Finish(maxPayload, segment) == Deliver(f)
  {
    var blob := Blob(f);
    ResidueZero(Covered(f), WordBytes(Crc(Covered(f))));
    assert blob[0] == f.mtype && blob[1] as nat == |f.payload|;
    assert blob[HEADER_SIZE..|blob| - CRC_SIZE] == f.payload;
  }

  lemma FinishDeliversBlob(maxPayload: nat, segment: seq<byte>, f: Frame)
    requires Finish(maxPayload, segment) == Deliver(f)
    ensures Sendable(maxPayload, f) && Decode(segment) == Decoded(Blob(f), true)
  {
    var blob := Decode(segment).out;
    var n := |blob| - CRC_SIZE;
    assert blob[..n] == Covered(f);
    assert blob == blob[..n] + blob[n..];
    ResidueZero(blob[..n], blob[n..]);
  }

  /** Damage to an accepted blob that keeps its length, and flips at most three bits, or an odd number of them,
      or stays within sixteen consecutive ones, is never accepted: the residue cannot be zero again. */
  lemma DamagedBlobIsRejected(maxPayload: nat, segment: seq<byte>, damaged: seq<byte>, k: nat)
    requires Finish(maxPayload, segment).Deliver?
    requires var x, y := Decode(segment).out, Decode(damaged).out;
             && |x| == |y| && x != y
             && (BurstAt(StreamBits(x), StreamBits(y), k) || FewOrOdd(Weight(Xor(StreamBits(x), StreamBits(y)))))
    ensures Finish(maxPayload, damaged).Reject?
  {
    var x, y := Decode(segment).out, Decode(damaged).out;
    DamageChangesCrc(x, y, k);
  }

  predicate FewOrOdd(flipped: nat)
  {
    1 <= flipped <= 3 || flipped % 2 == 1
  }

  lemma DamageChangesCrc(x: seq<byte>, y: seq<byte>, k: nat)
    requires |x| == |y| <= 4095 && x != y
    requires BurstAt(StreamBits(x), StreamBits(y), k) || FewOrOdd(Weight(Xor(StreamBits(x), StreamBits(y))))
    ensures Crc(x) != Crc(y)
  {
    if BurstAt(StreamBits(x), StreamBits(y), k) {
      DetectsBursts(x, y, k);
    } else if Weight(Xor(StreamBits(x), StreamBits(y))) % 2 == 1 {
      DetectsOddErrors(x, y);
    } else {
      DetectsThreeErrors(x, y);
    }
  }

  /** Changing one data byte of a delivered segment to another non-zero byte gets it rejected. */
  lemma ChangedDataIsRejected(maxPayload: nat, segment: seq<byte>, i: nat, b: byte)
    requires Finish(maxPayload, segment).Deliver? && IsData(segment, i) && b != 0 && b != segment[i]
    ensures Finish(maxPayload, segment[i := b]).Reject?
  {
    var x := Decode(segment).out;
    var j := ChangedData(segment, i, b);
    ByteChangeIsBurst(x, j, b);
    assert x[j := b][j] != x[j];
    DamagedBlobIsRejected(maxPayload, segment, segment[i := b], 8 * j);
  }

  /** A segment that starts like the body of a frame with at most 249 payload bytes, has a different length and
      is too short for a full block is rejected: the length field still says what it said. */
  lemma OtherLengthIsRejected(maxPayload: nat, f: Frame, segment: seq<byte>)
    requires Sendable(maxPayload, f) && |f.payload| <= 249
    requires 3 <= |segment| <= FULL_BLOCK && segment[..3] <= Body(f) && |segment| != |Body(f)|
    ensures Finish(maxPayload, segment).Reject?
  {
    var blob, body := Blob(f), Body(f);
    EncodedSize(blob);
    FullBlocksBound(blob, 0);
    DecodeUndoesEncode(blob);
    if Decode(segment).ok {
      DecodedLength(segment);
      DecodedPrefix(body, segment, 3, 1);
      assert blob[1] as nat == |f.payload|;
    }
  }

  /** Losing any byte of such a body behind its third one loses the frame. */
  lemma LostByteIsRejected(maxPayload: nat, f: Frame, i: nat)
    requires Sendable(maxPayload, f) && |f.payload| <= 249 && 3 <= i < |Body(f)|
    ensures var segment := Damaged(Body(f), i, Deleted); Finish(maxPayload, segment).Reject? && NoZero(segment)
  {
    var blob, body := Blob(f), Body(f);
    EncodedSize(blob);
    FullBlocksBound(blob, 0);
    EncodingHasNoZero(blob);
    var segment := Damaged(body, i, Deleted);
    DeletedShape(body, i, segment);
    OtherLengthIsRejected(maxPayload, f, segment);
  }

  lemma DeletedShape(body: seq<byte>, i: nat, segment: seq<byte>)
    requires 3 <= i < |body| && NoZero(body) && segment == Damaged(body, i, Deleted)
    ensures |segment| == |body| - 1 && segment[..3] <= body && NoZero(segment)
  {
    assert segment[..3] == body[..3];
  }

  /** The encoder's body for `f`, or that body without the code byte behind a final full block. */
  predicate IsBodyOf(segment: seq<byte>, f: Frame)
    requires Fits(f)
  {
    segment == Body(f) || (EndsInFullBlock(segment) && segment + [1] == Body(f))
  }

  lemma BodyIsDelivered(maxPayload: nat, segment: seq<byte>, f: Frame)
    requires Sendable(maxPayload, f) && IsBodyOf(segment, f)
    ensures Outcome(maxPayload, segment) == [f]
  {
    var blob := Blob(f);
    assert segment != [] && |segment| <= |Encode(blob)| by {
      FrameShape(f);
    }
    assert !TooLong(maxPayload, segment) by {
      EncodedSize(blob);
      BufferCovers(maxPayload, |f.payload|);
    }
    assert Decode(segment) == Decoded(blob, true) by {
      DecodeUndoesEncode(blob);
      if segment != Encode(blob) {
        EncodingHasNoZero(blob);
        assert segment == Encode(blob)[..|segment|];
        TrailingOne(segment);
      }
    }
    FinishAcceptsBlob(maxPayload, segment, f);
  }

  /** A segment is delivered as `f` exactly when it is the encoder's body for `f`, or that body
      without the code byte the encoder adds behind a final full block. In particular the bounded
      buffer never turns away a frame that would have been accepted. */
  lemma DeliveredExactly(maxPayload: nat, segment: seq<byte>, f: Frame)
    ensures Outcome(maxPayload, segment) == [f] <==> Sendable(maxPayload, f) && IsBodyOf(segment, f)
  {
    if Outcome(maxPayload, segment) == [f] {
      FinishDeliversBlob(maxPayload, segment, f);
      EncodeUndoesDecode(segment);
    }
    if Sendable(maxPayload, f) && IsBodyOf(segment, f) {
      BodyIsDelivered(maxPayload, segment, f);
    }
  }

  lemma BufferCovers(maxPayload: nat, n: nat)
    requires n <= maxPayload
    ensures EncodedMaxSize(HEADER_SIZE + n + CRC_SIZE) <= BufferSize(maxPayload)
  {
  }

  /** Behind a final full block an empty block changes nothing. */
  lemma {:induction false} TrailingOne(y: seq<byte>)
    requires EndsInFullBlock(y) && NoZero(y) && Decode(y + [1]).ok
    ensures Decode(y + [1]) == Decode(y)
    decreases |y|
  {
    var code, y1 := y[0] as nat, y + [1];
    var run, rest := y[1..code], y[code..];
    assert y[1..] == run + rest && y1[1..] == run + (rest + [1]);
    DecodeOneBlock(y, run, rest);
    DecodeOneBlock(y1, run, rest + [1]);
    if rest == [] {
      DecodeOneBlock([1], [], []);
      assert rest + [1] == [1];
    } else {
      TrailingOne(rest);
    }
  }

  // ---- Round trip ----

  function Bodies(fs: seq<Frame>): (r: seq<seq<byte>>)
    requires forall i :: 0 <= i < |fs| ==> Fits(fs[i])
    ensures |r| == |fs|
  {
    seq(|fs|, i requires 0 <= i < |fs| => Body(fs[i]))
  }

  /** The encoder's output for a list of frames, back to back. */
  function EncodeAll(fs: seq<Frame>): seq<byte>
    requires forall i :: 0 <= i < |fs| ==> Fits(fs[i])
  {
    Wire(DELIMITER, Bodies(fs))
  }

  /** A list of frames encoded back to back is the concatenation of what `encode_frame` writes. */
  lemma EncodeAllAppend(fs: seq<Frame>, f: Frame)
    requires Fits(f) && forall i :: 0 <= i < |fs| ==> Fits(fs[i])
    ensures EncodeAll([]) == [] && EncodeAll(fs + [f]) == EncodeAll(fs) + FrameBytes(f)
  {
    BodiesAppend(fs, f);
    WireAppend(DELIMITER, Bodies(fs), Body(f));
  }

  lemma BodiesAppend(fs: seq<Frame>, f: Frame)
    requires Fits(f) && forall i :: 0 <= i < |fs| ==> Fits(fs[i])
    ensures Bodies([]) == [] && Bodies(fs + [f]) == Bodies(fs) + [Body(f)]
  {
  }

  lemma BodiesCarry(m: nat, fs: seq<Frame>)
    requires AllSendable(m, fs)
    ensures Carries(OutcomeOf(m), Bodies(fs), fs)
  {
    forall i | 0 <= i < |fs|
      ensures Body(fs[i]) != [] && NoZero(Body(fs[i])) && OutcomeOf(m)(Body(fs[i])) == [fs[i]]
    {
      FrameShape(fs[i]);
      BodyIsDelivered(m, Body(fs[i]), fs[i]);
    }
  }

  /** Every delimiter leads to a frame boundary, whatever the state before. */
  lemma DelimiterReachesBoundary(p: Parser, garbage: seq<byte>)
    requires Wf(p)
    ensures AtBoundary(Feed(p, garbage + [0]).parser)
    ensures Feed(p, garbage + [0]).parser.maxPayload == p.maxPayload
  {
    FeedWf(p, garbage);
    FeedConcat(p, garbage, [0]);
    FeedOne(Feed(p, garbage).parser, 0);
  }

  /** Bytes handed over in arbitrary chunks. */
  function FeedChunks(p: Parser, chunks: seq<seq<byte>>): Fed
  {
    if chunks == [] then Fed(p, [])
    else
      var r := FeedChunks(p, chunks[..|chunks| - 1]);
      Behind(r.frames, Feed(r.parser, chunks[|chunks| - 1]))
  }

  lemma {:induction false} ChunksDoNotMatter(p: Parser, chunks: seq<seq<byte>>)
    ensures FeedChunks(p, chunks) == Feed(p, Joined(chunks))
  {
    if chunks != [] {
      var front, last := chunks[..|chunks| - 1], chunks[|chunks| - 1];
      ChunksDoNotMatter(p, front);
      FeedConcat(p, Joined(front), last);
    }
  }

  /** From a frame boundary the encoder's output is delivered whole, and nothing is dropped. */
  lemma BoundaryRoundTrip(q: Parser, fs: seq<Frame>)
    requires AtBoundary(q) && AllSendable(q.maxPayload, fs)
    ensures var r := Feed(q, EncodeAll(fs));
            && r.frames == fs && AtBoundary(r.parser) && r.parser.maxPayload == q.maxPayload
            && r.parser.ok == q.ok + |fs| && r.parser.dropped == q.dropped
  {
    ParserRefinesSplit(q, EncodeAll(fs));
    BodiesCarry(q.maxPayload, fs);
    WireReceived(OutcomeOf(q.maxPayload), Bodies(fs), fs);
  }

  /** End to end: whatever state the parser is in, once a delimiter has gone by, the encoder's output
      for any list of frames, cut into any chunks, delivers exactly that list and drops nothing. */
  lemma RoundTrip(p: Parser, garbage: seq<byte>, fs: seq<Frame>, chunks: seq<seq<byte>>)
    requires Wf(p) && AllSendable(p.maxPayload, fs) && Joined(chunks) == EncodeAll(fs)
    ensures var q := Feed(p, garbage + [0]).parser;
            var r := FeedChunks(q, chunks);
            && r.frames == fs && AtBoundary(r.parser)
            && r.parser.ok == q.ok + |fs| && r.parser.dropped == q.dropped
  {
    DelimiterReachesBoundary(p, garbage);
    var q := Feed(p, garbage + [0]).parser;
    ChunksDoNotMatter(q, chunks);
    BoundaryRoundTrip(q, fs);
  }

  // ---- Damage ----

  /** Replacing one frame's body by arbitrary bytes leaves every other frame delivered, in order. */
  lemma FrameDamageIsConfined(q: Parser, before: seq<Frame>, body: seq<byte>, after: seq<Frame>)
    requires AtBoundary(q) && AllSendable(q.maxPayload, before) && AllSendable(q.maxPayload, after)
    ensures Feed(q, EncodeAll(before) + (body + [0]) + EncodeAll(after)).frames
            == before + Feed(q, body + [0]).frames + after
  {
    var m := q.maxPayload;
    BodiesCarry(m, before);
    BodiesCarry(m, after);
    ParserRefinesSplit(q, EncodeAll(before) + (body + [0]) + EncodeAll(after));
    ParserRefinesSplit(q, body + [0]);
    BodyDamageIsConfined(OutcomeOf(m), Bodies(before), before, body, Bodies(after), after);
  }

  /** A data byte of one frame changed to another non-zero byte costs that frame, and only that one. */
  lemma ChangedDataCostsThatFrame(q: Parser, before: seq<Frame>, f: Frame, after: seq<Frame>, i: nat, b: byte)
    requires AtBoundary(q) && AllSendable(q.maxPayload, before) && AllSendable(q.maxPayload, after)
    requires Sendable(q.maxPayload, f) && IsData(Body(f), i) && b != 0 && b != Body(f)[i]
    ensures Feed(q, EncodeAll(before) + (Body(f)[i := b] + [0]) + EncodeAll(after)).frames == before + after
  {
    FrameShape(f);
    BodyIsDelivered(q.maxPayload, Body(f), f);
    ChangedDataIsRejected(q.maxPayload, Body(f), i, b);
    RejectedCostsNoOther(q, before, Body(f)[i := b], after);
  }

  /** A byte of a frame with at most 249 payload bytes lost behind its third costs that frame, and only that one. */
  lemma LostByteCostsThatFrame(q: Parser, before: seq<Frame>, f: Frame, after: seq<Frame>, i: nat)
    requires AtBoundary(q) && AllSendable(q.maxPayload, before) && AllSendable(q.maxPayload, after)
    requires Sendable(q.maxPayload, f) && |f.payload| <= 249 && 3 <= i < |Body(f)|
    ensures Feed(q, EncodeAll(before) + (Damaged(Body(f), i, Deleted) + [0]) + EncodeAll(after)).frames == before + after
  {
    LostByteIsRejected(q.maxPayload, f, i);
    RejectedCostsNoOther(q, before, Damaged(Body(f), i, Deleted), after);
  }

  lemma RejectedCostsNoOther(q: Parser, before: seq<Frame>, body: seq<byte>, after: seq<Frame>)
    requires AtBoundary(q) && AllSendable(q.maxPayload, before) && AllSendable(q.maxPayload, after)
    requires NoZero(body) && Finish(q.maxPayload, body).Reject?
    ensures Feed(q, EncodeAll(before) + (body + [0]) + EncodeAll(after)).frames == before + after
  {
    FrameDamageIsConfined(q, before, body, after);
    RejectedDeliversNothing(q, body);
    assert before + [] == before;
  }

  lemma RejectedDeliversNothing(q: Parser, body: seq<byte>)
    requires AtBoundary(q) && NoZero(body) && Finish(q.maxPayload, body).Reject?
    ensures Feed(q, body + [0]).frames == []
  {
    ParserRefinesSplit(q, body + [0]);
    OneSegment(DELIMITER, body);
    DeliveredOne(OutcomeOf(q.maxPayload), body);
  }

  /** Two bodies that run together are rejected, with or without a byte in the delimiter's place:
      the length field of the first disagrees with what was decoded. */
  lemma MergedBodiesAreDropped(m: nat, f: Frame, more: seq<byte>)
    requires Sendable(m, f) && more != []
    ensures Outcome(m, Body(f) + more) == []
  {
    var blob := Blob(f);
    DecodeEncodeFrom([], blob, more);
    var d := Decode(Body(f) + more);
    assert d.out == blob + [0] + Decode(more).out by {
      assert [] + blob == blob;
    }
    assert d.out[1] == blob[1] && blob[1] as nat == |f.payload|;
  }

  lemma FramesMergesAreDropped(m: nat, fs: seq<Frame>)
    requires AllSendable(m, fs)
    ensures MergesAreDropped(OutcomeOf(m), Bodies(fs))
  {
    var bodies := Bodies(fs);
    forall k, mid | 0 <= k && k + 1 < |bodies| && NoZero(mid)
      ensures OutcomeOf(m)(bodies[k] + (mid + bodies[k + 1])) == []
    {
      FrameShape(fs[k + 1]);
      MergedBodiesAreDropped(m, fs[k], mid + bodies[k + 1]);
    }
  }

  /** Losing or corrupting the delimiter between two frames costs exactly those two. */
  lemma LostDelimiterCostsBoth(q: Parser, fs: seq<Frame>, k: nat, patch: seq<byte>)
    requires AtBoundary(q) && AllSendable(q.maxPayload, fs) && k + 1 < |fs| && NoZero(patch)
    ensures Feed(q, EncodeAll(fs[..k]) + (Body(fs[k]) + patch) + EncodeAll(fs[k + 1..])).frames == fs[..k] + fs[k + 2..]
  {
    var m, bodies := q.maxPayload, Bodies(fs);
    BodiesCarry(m, fs);
    FramesMergesAreDropped(m, fs);
    BodiesTake(fs, k);
    BodiesDrop(fs, k + 1);
    var t := Wire(DELIMITER, bodies[..k]) + (bodies[k] + patch) + Wire(DELIMITER, bodies[k + 1..]);
    ParserRefinesSplit(q, t);
    InnerDelimiterCost(OutcomeOf(m), bodies, fs, k, patch);
  }

  lemma BodiesAt(fs: seq<Frame>, i: nat, f: Frame)
    requires i < |fs| && fs[i] == f && forall i :: 0 <= i < |fs| ==> Fits(fs[i])
    ensures Bodies(fs)[i] == Body(f)
  {
  }

  lemma BodiesTake(fs: seq<Frame>, k: nat)
    requires k <= |fs| && forall i :: 0 <= i < |fs| ==> Fits(fs[i])
    ensures Bodies(fs[..k]) == Bodies(fs)[..k]
  {
    var part, a, b := fs[..k], Bodies(fs[..k]), Bodies(fs)[..k];
    forall i | 0 <= i < k
      ensures a[i] == b[i]
    {
      BodiesAt(part, i, fs[i]);
      BodiesAt(fs, i, fs[i]);
    }
    SameItems(a, b);
  }

  lemma BodiesDrop(fs: seq<Frame>, k: nat)
    requires k <= |fs| && forall i :: 0 <= i < |fs| ==> Fits(fs[i])
    ensures Bodies(fs[k..]) == Bodies(fs)[k..]
  {
    var part, a, b := fs[k..], Bodies(fs[k..]), Bodies(fs)[k..];
    forall i | 0 <= i < |fs| - k
      ensures a[i] == b[i]
    {
      BodiesAt(part, i, fs[k + i]);
      BodiesAt(fs, k + i, fs[k + i]);
    }
    SameItems(a, b);
  }

  /** "One lost or corrupted byte costs at most one frame" holds exactly when that byte is not a
      delimiter with a frame behind it. */
  lemma OneByteCostsOneFrame(q: Parser, fs: seq<Frame>, i: nat, fault: Fault)
    requires AtBoundary(q) && AllSendable(q.maxPayload, fs)
    requires i < |EncodeAll(fs)| && fault != Changed(EncodeAll(fs)[i])
    ensures var s := EncodeAll(fs);
            LosesAtMostOne(fs, Feed(q, Damaged(s, i, fault)).frames) <==> s[i] != 0 || i == |s| - 1
  {
    var m := q.maxPayload;
    BodiesCarry(m, fs);
    FramesMergesAreDropped(m, fs);
    ParserRefinesSplit(q, Damaged(EncodeAll(fs), i, fault));
    OneByteCost(OutcomeOf(m), Bodies(fs), fs, i, fault, Damaged(EncodeAll(fs), i, fault));
  }

  /** The smallest streams on which the claim fails: one frame sent twice, with the delimiter between
      the two lost, delivers nothing. */
  lemma TwoFramesLostToOneByte(f: Frame)
    requires Sendable(MAX_PAYLOAD, f)
    ensures var s := EncodeAll([f, f]);
            && |Body(f)| < |s| && s[|Body(f)|] == 0
            && Feed(Fresh(MAX_PAYLOAD), Damaged(s, |Body(f)|, Deleted)).frames == []
  {
    LostDelimiterCostsBoth(Fresh(MAX_PAYLOAD), [f, f], 0, []);
    TwoFrames(f);
    BodiesAppend([], f);
    BodiesAppend([f], f);
    TwiceDamaged(Body(f));
  }

  lemma TwoFrames(f: Frame)
    ensures var fs := [f, f];
            fs[1..] == [f] && fs[..0] == [] && fs[..0] + fs[2..] == [] && [f] + [f] == fs && [] + [f] == [f]
  {
  }

  lemma TwiceDamaged(b: seq<byte>)
    ensures var s := Wire(DELIMITER, [b] + [b]);
            && |b| < |s| && s[|b|] == 0
            && Damaged(s, |b|, Deleted) == Wire(DELIMITER, []) + (b + []) + Wire(DELIMITER, [b])
  {
    WireOne(DELIMITER, b);
    WireConcat(DELIMITER, [b], [b]);
    DamagedAt([], b + [0], b + [0], |b|, Deleted);
    DamagedDelimiter(b, Deleted);
    PositionInPart([], b, b + [0], |b|);
    assert [] + (b + [0]) + (b + [0]) == Wire(DELIMITER, [b] + [b]);
  }
}
