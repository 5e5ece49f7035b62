/** The byte-at-a-time frame parser (proto/frame_parser.hpp) and its refinement of
    "split at the delimiter, then decode each segment". */
module FrameParser {
  import opened Bits
  import opened Common
  import Crc16
  import opened Cobs
  import opened Delimited
  import opened Split
  import opened FrameEncoder
  import opened Sequences

  datatype ParseError = NoError | CobsError | BadLength | BadCrc | FrameTooLong

  datatype Mode = Hunting | InFrame | SkipToDelimiter

  datatype Action = Ignore | Start | Append | Complete

  datatype Transition = Transition(next: Mode, action: Action)

  /** `kTable[state][is_delimiter]`. */
  function Table(mode: Mode, delimiter: bool): Transition
  {
    match mode
    case Hunting => if delimiter then Transition(Hunting, Ignore) else Transition(InFrame, Start)
    case InFrame => if delimiter then Transition(Hunting, Complete) else Transition(InFrame, Append)
    case SkipToDelimiter => if delimiter then Transition(Hunting, Ignore) else Transition(SkipToDelimiter, Ignore)
  }

  function MaxBlob(maxPayload: nat): nat
  {
    HEADER_SIZE + maxPayload + CRC_SIZE
  }

  function BufferSize(maxPayload: nat): nat
  {
    EncodedMaxSize(MaxBlob(maxPayload))
  }

  /** The parser's state as a value. */
  datatype Parser = Parser(maxPayload: nat, mode: Mode, buffer: seq<byte>,
                           ok: nat, dropped: nat, lastError: ParseError)

  function Fresh(maxPayload: nat): Parser
  {
    Parser(maxPayload, Hunting, [], 0, 0, NoError)
  }

  ghost predicate Wf(p: Parser)
  {
    && |p.buffer| <= BufferSize(p.maxPayload)
    && (p.mode.InFrame? <==> p.buffer != [])
    && NoZero(p.buffer)
  }

  datatype Verdict = Deliver(frame: Frame) | Reject(error: ParseError)

  /** The checks of `finish_frame`, on the bytes buffered between two delimiters. */
  function Finish(maxPayload: nat, segment: seq<byte>): Verdict
  {
    var d := Decode(segment);
    if !d.ok || |d.out| > MaxBlob(maxPayload) then Reject(CobsError) else Check(d.out)
  }

  /** Those it makes on the decoded blob. */
  function Check(blob: seq<byte>): Verdict
  {
    if |blob| < HEADER_SIZE + CRC_SIZE then Reject(BadLength)
    else if |blob| != HEADER_SIZE + blob[1] as nat + CRC_SIZE then Reject(BadLength)
    else if Crc16.Crc(blob) != Crc16.ZERO then Reject(BadCrc)
    else Deliver(Frame(blob[0], blob[HEADER_SIZE..|blob| - CRC_SIZE]))
  }

  datatype Stepped = Stepped(parser: Parser, frame: Option<Frame>)

  /** The effect of `push_byte`. */
  function Step(p: Parser, b: byte): (r: Stepped)
  {
    var t := Table(p.mode, b == 0);
    var q := p.(mode := t.next, lastError := NoError);
    match t.action
    case Ignore => Stepped(q, None)
    case Start => Stepped(q.(buffer := [b]), None)
    case Append =>
      if |p.buffer| == BufferSize(p.maxPayload)
      then Stepped(Parser(p.maxPayload, SkipToDelimiter, [], p.ok, p.dropped + 1, FrameTooLong), None)
      else Stepped(q.(buffer := p.buffer + [b]), None)
    case Complete =>
      match Finish(p.maxPayload, p.buffer)
      case Deliver(f) => Stepped(q.(buffer := [], ok := p.ok + 1), Some(f))
      case Reject(e) => Stepped(q.(buffer := [], dropped := p.dropped + 1, lastError := e), None)
  }

  datatype Fed = Fed(parser: Parser, frames: seq<Frame>)

  /** A run of bytes, collecting the frames handed to the sink. */
  function Feed(p: Parser, s: seq<byte>): (r: Fed)
  {
    if s == [] then Fed(p, [])
    else
      var r := Feed(p, s[..|s| - 1]);
      FeedMore(r, s[|s| - 1])
  }

  function FeedMore(r: Fed, b: byte): Fed
  {
    var t := Step(r.parser, b);
    Fed(t.parser, r.frames + match t.frame case None => [] case Some(f) => [f])
  }

  function Behind(frames: seq<Frame>, r: Fed): Fed
  {
    Fed(r.parser, frames + r.frames)
  }

  lemma FeedMoreBehind(frames: seq<Frame>, r: Fed, b: byte)
    ensures FeedMore(Behind(frames, r), b) == Behind(frames, FeedMore(r, b))
  {
    Assoc(frames, r.frames, match Step(r.parser, b).frame case None => [] case Some(f) => [f]);
  }

  lemma FeedLast(p: Parser, front: seq<byte>, b: byte)
    ensures Feed(p, front + [b]) == FeedMore(Feed(p, front), b)
  {
    assert (front + [b])[..|front|] == front;
  }

  /** Cutting the input anywhere changes nothing. */
  lemma {:induction false} FeedConcat(p: Parser, a: seq<byte>, b: seq<byte>)
    ensures Feed(p, a + b) == Behind(Feed(p, a).frames, Feed(Feed(p, a).parser, b))
  {
    if b == [] {
      assert a + b == a;
    } else {
      var front, last := b[..|b| - 1], b[|b| - 1];
      FeedConcat(p, a, front);
      SplitLast(b);
      Assoc(a, front, [last]);
      FeedLast(p, a + front, last);
      FeedLast(Feed(p, a).parser, front, last);
      FeedMoreBehind(Feed(p, a).frames, Feed(Feed(p, a).parser, front), last);
    }
  }

  lemma FeedOne(p: Parser, b: byte)
    ensures Feed(p, [b]) == FeedMore(Fed(p, []), b)
  {
    assert [b][..0] == [];
  }

  lemma {:induction false} FeedWf(p: Parser, s: seq<byte>)
    requires Wf(p)
    ensures Wf(Feed(p, s).parser) && Feed(p, s).parser.maxPayload == p.maxPayload
  {
    if s != [] {
      FeedWf(p, s[..|s| - 1]);
    }
  }

  // ---- The specification: segments between delimiters ----

  predicate TooLong(maxPayload: nat, segment: seq<byte>)
  {
    |segment| > BufferSize(maxPayload)
  }

  /** The frames one terminated segment contributes: one or none. */
  function Outcome(maxPayload: nat, segment: seq<byte>): (r: seq<Frame>)
    ensures |r| <= 1
  {
    if segment == [] || TooLong(maxPayload, segment) then []
    else match Finish(maxPayload, segment)
         case Deliver(f) => [f]
         case Reject(_) => []
  }

  function OutcomeOf(maxPayload: nat): Outcomes<Frame>
  {
    segment => Outcome(maxPayload, segment)
  }

  /** Between frames: the state every delimiter leads to. */
  predicate AtBoundary(p: Parser)
  {
    p.mode.Hunting? && p.buffer == []
  }

  /** The result of a run that began at `p` and has met these terminated segments and this tail. */
  ghost predicate Tracks(p: Parser, segments: seq<seq<byte>>, tail: seq<byte>, r: Fed)
  {
    var m := p.maxPayload;
    var q := r.parser;
    var skipping := TooLong(m, tail);
    && q.maxPayload == m
    && r.frames == Delivered(OutcomeOf(m), segments)
    && q.ok == p.ok + |r.frames|
    && q.ok + q.dropped == p.ok + p.dropped + NonEmptyCount(segments) + (if skipping then 1 else 0)
    && q.mode == (if skipping then SkipToDelimiter else if tail == [] then Hunting else InFrame)
    && q.buffer == (if skipping then [] else tail)
  }

  lemma TracksData(p: Parser, segments: seq<seq<byte>>, tail: seq<byte>, r: Fed, b: byte)
    requires Tracks(p, segments, tail, r) && b != 0
    ensures Tracks(p, segments, tail + [b], FeedMore(r, b))
  {
  }

  lemma TracksDelimiter(p: Parser, segments: seq<seq<byte>>, tail: seq<byte>, r: Fed)
    requires Tracks(p, segments, tail, r)
    ensures Tracks(p, segments + [tail], [], FeedMore(r, 0))
  {
    var segments' := segments + [tail];
    assert segments'[..|segments'| - 1] == segments;
    var m := p.maxPayload;
    if tail != [] && !TooLong(m, tail) {
      var verdict := Finish(m, tail);
      assert Outcome(m, tail) == match verdict case Deliver(f) => [f] case Reject(_) => [];
    } else {
      assert Outcome(m, tail) == [];
    }
  }

  /** From a frame boundary, over every byte stream, the machine delivers what splitting and decoding
      delivers, counts every terminated non-empty segment exactly once (and an overlong one as soon as
      it is noticed), and holds exactly the unterminated rest unless that is overlong. */
  lemma {:induction false} ParserRefinesSplit(p: Parser, s: seq<byte>)
    requires AtBoundary(p)
    ensures Tracks(p, Segments(DELIMITER, s), Tail(DELIMITER, s), Feed(p, s))
  {
    if s != [] {
      var front, b := s[..|s| - 1], s[|s| - 1];
      ParserRefinesSplit(p, front);
      if b == 0 {
        TracksDelimiter(p, Segments(DELIMITER, front), Tail(DELIMITER, front), Feed(p, front));
      } else {
        TracksData(p, Segments(DELIMITER, front), Tail(DELIMITER, front), Feed(p, front), b);
      }
    }
  }

  // ---- The class ----

  class FrameParser {
    const maxPayload: nat
    var mode: Mode
    var buffered: nat
    const buffer: array<byte>
    const blob: array<byte>
    var lastError: ParseError
    var framesOk: nat
    var framesDropped: nat

    ghost predicate Valid()
      reads this, buffer
    {
      && buffer.Length == BufferSize(maxPayload) && blob.Length == MaxBlob(maxPayload) && buffer != blob
      && buffered <= buffer.Length
      && Wf(Value())
    }

    ghost function Value(): Parser
      requires buffered <= buffer.Length
      reads this, buffer
    {
      Parser(maxPayload, mode, buffer[..buffered], framesOk, framesDropped, lastError)
    }

    constructor (maxPayload: nat)
      ensures Valid() && fresh(buffer) && fresh(blob)
      ensures Value() == Fresh(maxPayload)
    {
      this.maxPayload := maxPayload;
      mode, buffered, lastError, framesOk, framesDropped := Hunting, 0, NoError, 0, 0;
      buffer := new byte[BufferSize(maxPayload)](_ => 0);
      blob := new byte[MaxBlob(maxPayload)](_ => 0);
    }

    method PushByte(b: byte) returns (frame: Option<Frame>)
      requires Valid()
      modifies this, buffer, blob
      ensures Valid()
      ensures var t := Step(old(Value()), b); Value() == t.parser && frame == t.frame
    {
      lastError := NoError;
      var step := Table(mode, b == 0);
      frame := None;
      match step.action {
        case Ignore =>
        case Start =>
          buffer[0] := b;
          buffered := 1;
        case Append =>
          if buffered == BufferSize(maxPayload) {
            Fail(FrameTooLong);
            buffered := 0;
            mode := SkipToDelimiter;
            return;
          }
          buffer[buffered] := b;
          buffered := buffered + 1;
          assert buffer[..buffered] == old(buffer[..buffered]) + [b];
        case Complete =>
          frame := FinishFrame();
          buffered := 0;
      }
      mode := step.next;
    }

    method FinishFrame() returns (frame: Option<Frame>)
      requires buffer.Length == BufferSize(maxPayload) && blob.Length == MaxBlob(maxPayload) && buffer != blob
      requires buffered <= buffer.Length && lastError == NoError
      modifies this`lastError, this`framesOk, this`framesDropped, blob
      ensures match Finish(maxPayload, buffer[..buffered])
              case Deliver(f) =>
                frame == Some(f) && framesOk == old(framesOk) + 1
                && framesDropped == old(framesDropped) && lastError == NoError
              case Reject(e) =>
                frame == None && framesOk == old(framesOk)
                && framesDropped == old(framesDropped) + 1 && lastError == e
    {
      var status, size := CobsDecode(buffer, buffered, blob, blob.Length);
      if status != CobsStatus.Ok {
        Fail(CobsError);
        return None;
      }
      frame := CheckBlob(size, Decode(buffer[..buffered]).out);
    }

    /** The second half of `finish_frame`. */
    method CheckBlob(size: nat, ghost out: seq<byte>) returns (frame: Option<Frame>)
      requires size <= blob.Length && blob[..size] == out && lastError == NoError
      modifies this`lastError, this`framesOk, this`framesDropped
      ensures match Check(out)
              case Deliver(f) =>
                frame == Some(f) && framesOk == old(framesOk) + 1
                && framesDropped == old(framesDropped) && lastError == NoError
              case Reject(e) =>
                frame == None && framesOk == old(framesOk)
                && framesDropped == old(framesDropped) + 1 && lastError == e
    {
      if size < HEADER_SIZE + CRC_SIZE {
        Fail(BadLength);
        return None;
      }
      var declared := blob[1] as nat;
      assert out[1] as nat == declared && out[0] == blob[0];
      if size != HEADER_SIZE + declared + CRC_SIZE {
        Fail(BadLength);
        return None;
      }
      var crc := Crc16.Crc16(blob, size);
      if crc != Crc16.ZERO {
        Fail(BadCrc);
        return None;
      }
      framesOk := framesOk + 1;
      var payload := blob[HEADER_SIZE..HEADER_SIZE + declared];
      SliceOfPrefix(blob[..], size, HEADER_SIZE, size - CRC_SIZE);
      frame := Some(Frame(blob[0], payload));
    }

    method Fail(error: ParseError)
      modifies this`lastError, this`framesDropped
      ensures lastError == error && framesDropped == old(framesDropped) + 1
    {
      lastError := error;
      framesDropped := framesDropped + 1;
    }

    /** `push_bytes`; the returned sequence is what the sink is handed, in order. */
    method PushBytes(data: array<byte>, size: nat) returns (frames: seq<Frame>)
      requires Valid() && size <= data.Length && data != buffer && data != blob
      modifies this, buffer, blob
      ensures Valid()
      ensures var r := Feed(old(Value()), data[..size]); Value() == r.parser && frames == r.frames
    {
      frames := [];
      for i := 0 to size
        invariant Valid()
        invariant data[..] == old(data[..])
        invariant var r := Feed(old(Value()), data[..i]); Value() == r.parser && frames == r.frames
      {
        var frame := PushByte(data[i]);
        assert data[..i + 1][..i] == data[..i];
        if frame.Some? {
          frames := frames + [frame.value];
        }
      }
    }
  }
}
