/** A reading's whole way: the node's SAMPLE frame, the wire, the server's parser and dispatcher, the store,
    and what `history` returns. */
module Telemetry {
  import opened Bits
  import opened Common
  import opened Delimited
  import opened FrameEncoder
  import opened FrameParser
  import opened FrameStream
  import opened Messages
  import opened RateProtocol
  import opened Sequences
  import opened Split
  import opened StoreModel
  import opened StoreRuns

  /** The connection is between frames and the device has said HELLO. */
  predicate Ready(ing: Ingest, session: u16)
  {
    && AtBoundary(ing.parser) && ing.parser.maxPayload == MAX_PAYLOAD
    && ing.session.Some? && ing.session.value.id == session
  }

  lemma ReceiveLast(ing: Ingest, front: seq<byte>, b: byte, clock: int -> int)
    ensures ReceiveAll(ing, front + [b], clock) == ReceiveMore(ReceiveAll(ing, front, clock), b, clock(|front|))
  {
    var s := front + [b];
    assert s != [] && |s| - 1 == |front| && s[..|s| - 1] == front && s[|s| - 1] == b;
  }

  function Behind(ops: seq<Op>, d: Dispatched): Dispatched
  {
    Dispatched(d.ingest, ops + d.ops)
  }

  lemma ReceiveMoreBehind(ops: seq<Op>, d: Dispatched, b: byte, now: int)
    ensures ReceiveMore(Behind(ops, d), b, now) == Behind(ops, ReceiveMore(d, b, now))
  {
    Assoc(ops, d.ops, Receive(d.ingest, b, now).ops);
  }

  function Later(clock: int -> int, n: nat): int -> int
  {
    i => clock(n + i)
  }

  /** A step that reads the time off a clock. */
  function Clocked(step: Stepping<Dispatched, byte>, clock: int -> int): Stepping<Dispatched, byte>
  {
    (d: Dispatched, b: byte, i: int) => step(d, b, clock(i))
  }

  function Receiving(): Stepping<Dispatched, byte>
  {
    (d: Dispatched, b: byte, now: int) => ReceiveMore(d, b, now)
  }

  function Receiver(clock: int -> int): Stepping<Dispatched, byte>
  {
    Clocked(Receiving(), clock)
  }

  lemma {:induction false} ReceiveIsFold(ing: Ingest, s: seq<byte>, clock: int -> int)
    ensures ReceiveAll(ing, s, clock) == FoldAt(Receiver(clock), Dispatched(ing, []), s, 0)
  {
    if s != [] {
      ReceiveIsFold(ing, s[..|s| - 1], clock);
    }
  }

  /** Operations asked for earlier stay in front. */
  function InFront(ops: seq<Op>): Dispatched -> Dispatched
  {
    d => Behind(ops, d)
  }

  lemma ReceiverCommutes(clock: int -> int, ops: seq<Op>)
    ensures forall d, b, i {:trigger Commutes(Receiver(clock), InFront(ops), d, b, i)} :: Commutes(Receiver(clock), InFront(ops), d, b, i)
  {
    forall d: Dispatched, b: byte, i: int
      ensures Commutes(Receiver(clock), InFront(ops), d, b, i)
    {
      ReceiveMoreBehind(ops, d, b, clock(i));
    }
  }

  lemma ClockedShifts(step: Stepping<Dispatched, byte>, clock: int -> int, n: nat)
    ensures forall d, b, i {:trigger Shifted(Clocked(step, clock), Clocked(step, Later(clock, n)), n, d, b, i)} ::
              Shifted(Clocked(step, clock), Clocked(step, Later(clock, n)), n, d, b, i)
  {
  }

  lemma ReceiveConcat(ing: Ingest, a: seq<byte>, b: seq<byte>, clock: int -> int)
    ensures var first := ReceiveAll(ing, a, clock);
            ReceiveAll(ing, a + b, clock) == Behind(first.ops, ReceiveAll(first.ingest, b, Later(clock, |a|)))
  {
    ReceiveIsFold(ing, a + b, clock);
    ReceiveIsFold(ing, a, clock);
    var first := ReceiveAll(ing, a, clock);
    ReceiveIsFold(first.ingest, b, Later(clock, |a|));
    FoldReceives(ing, a, b, clock, first);
  }

  lemma FoldReceives(ing: Ingest, a: seq<byte>, b: seq<byte>, clock: int -> int, first: Dispatched)
    requires first == FoldAt(Receiver(clock), Dispatched(ing, []), a, 0)
    ensures FoldAt(Receiver(clock), Dispatched(ing, []), a + b, 0)
            == Behind(first.ops, FoldAt(Receiver(Later(clock, |a|)), Dispatched(first.ingest, []), b, 0))
  {
    var step, h, rest := Receiver(clock), InFront(first.ops), Dispatched(first.ingest, []);
    FoldConcat(step, Dispatched(ing, []), a, b, 0);
    assert first == h(rest) by {
      assert first.ops + [] == first.ops;
    }
    ReceiverCommutes(clock, first.ops);
    FoldThrough(step, h, rest, b, |a|);
    ClockedShifts(Receiving(), clock, |a|);
    FoldShift(step, Receiver(Later(clock, |a|)), |a|, rest, b);
  }

  /** Bytes that complete no frame only move the parser. */
  lemma {:induction false} ReceiveQuiet(ing: Ingest, s: seq<byte>, clock: int -> int)
    requires Feed(ing.parser, s).frames == []
    ensures ReceiveAll(ing, s, clock) == Dispatched(ing.(parser := Feed(ing.parser, s).parser), [])
  {
    if s != [] {
      var front, b := s[..|s| - 1], s[|s| - 1];
      SplitLast(s);
      FeedLast(ing.parser, front, b);
      ReceiveQuiet(ing, front, clock);
      ReceiveLast(ing, front, b, clock);
    }
  }

  /** Bytes without a delimiter complete nothing. */
  lemma FreeIsQuiet(p: Parser, s: seq<byte>)
    requires AtBoundary(p) && DELIMITER !in s
    ensures Feed(p, s).frames == []
  {
    ParserRefinesSplit(p, s);
    FreeSegments(DELIMITER, s);
  }

  lemma LastByteDelivers(p: Parser, s: seq<byte>, b: byte, f: Frame)
    requires Feed(p, s).frames == [] && Feed(p, s + [b]).frames == [f]
    ensures Step(Feed(p, s).parser, b) == Stepped(Feed(p, s + [b]).parser, Some(f))
  {
    FeedLast(p, s, b);
    var t := Step(Feed(p, s).parser, b);
    if t.frame.Some? { assert [f][0] == ([] + [t.frame.value])[0]; }
  }

  /** At a boundary a frame's body completes nothing, and its delimiter completes it. */
  lemma LastByteCompletes(p: Parser, f: Frame)
    requires AtBoundary(p) && p.maxPayload == MAX_PAYLOAD && Fits(f)
    ensures var r := Feed(p, Body(f));
            var t := Step(r.parser, 0);
            r.frames == [] && t.frame == Some(f) && AtBoundary(t.parser) && t.parser.maxPayload == MAX_PAYLOAD
  {
    FrameShape(f);
    FreeIsQuiet(p, Body(f));
    EncodeOne(f);
    BoundaryRoundTrip(p, [f]);
    LastByteDelivers(p, Body(f), 0, f);
  }

  lemma DispatchAlone(ing: Ingest, f: Frame, now: int)
    ensures Behind([], Dispatch(ing, f, now)) == Dispatch(ing, f, now)
  {
    var d := Dispatch(ing, f, now);
    assert [] + d.ops == d.ops;
  }

  /** At a boundary the bytes of one frame dispatch exactly that frame. */
  lemma ReceiveFrame(ing: Ingest, f: Frame, clock: int -> int) returns (p: Parser)
    requires AtBoundary(ing.parser) && ing.parser.maxPayload == MAX_PAYLOAD && Fits(f)
    ensures AtBoundary(p) && p.maxPayload == MAX_PAYLOAD
    ensures ReceiveAll(ing, FrameBytes(f), clock) == Dispatch(ing.(parser := p), f, clock(|Body(f)|))
  {
    LastByteCompletes(ing.parser, f);
    var q := Feed(ing.parser, Body(f)).parser;
    p := Step(q, 0).parser;
    ReceiveQuiet(ing, Body(f), clock);
    ReceiveLast(ing, Body(f), 0, clock);
    CompletesFrame(ing.(parser := q), f, p, clock(|Body(f)|));
  }

  lemma CompletesFrame(ing: Ingest, f: Frame, p: Parser, now: int)
    requires Step(ing.parser, 0) == Stepped(p, Some(f))
    ensures ReceiveMore(Dispatched(ing, []), 0, now) == Dispatch(ing.(parser := p), f, now)
  {
    DispatchAlone(ing.(parser := p), f, now);
  }

  function SampleFrames(xs: seq<Sampled>): (fs: seq<Frame>)
    requires forall i :: 0 <= i < |xs| ==> SampleFits(xs[i])
    ensures |fs| == |xs| && forall i :: 0 <= i < |fs| ==> Fits(fs[i])
  {
    seq(|xs|, i requires 0 <= i < |xs| => SampleFrame(xs[i]))
  }

  /** The operation records this reading under this session, whatever session id the payload names. */
  predicate Records(op: Op, session: u16, x: Sampled)
  {
    op.DoRecord? && op.session == session && op.metric == x.metric && op.value == x.value && op.timestamp == x.timestamp
  }

  predicate RecordsAll(ops: seq<Op>, session: u16, xs: seq<Sampled>)
  {
    |ops| == |xs| && forall i :: 0 <= i < |xs| ==> Records(ops[i], session, xs[i])
  }

  lemma RecordsConcat(a: seq<Op>, b: seq<Op>, session: u16, xs: seq<Sampled>, x: Sampled)
    requires RecordsAll(a, session, xs) && RecordsAll(b, session, [x])
    ensures RecordsAll(a + b, session, xs + [x])
  {
  }

  lemma SampleArrives(ing: Ingest, session: u16, x: Sampled, clock: int -> int)
    requires Ready(ing, session) && SampleFits(x)
    ensures var d := ReceiveAll(ing, FrameBytes(SampleFrame(x)), clock);
            Ready(d.ingest, session) && RecordsAll(d.ops, session, [x])
  {
    var p := ReceiveFrame(ing, SampleFrame(x), clock);
    SampleRoundTrip(x);
  }

  /** One more SAMPLE frame behind bytes `a` that recorded `xs`. */
  lemma OneMoreArrives(ing: Ingest, session: u16, a: seq<byte>, xs: seq<Sampled>, x: Sampled, clock: int -> int)
    requires SampleFits(x)
    requires var first := ReceiveAll(ing, a, clock); Ready(first.ingest, session) && RecordsAll(first.ops, session, xs)
    ensures var d := ReceiveAll(ing, a + FrameBytes(SampleFrame(x)), clock);
            Ready(d.ingest, session) && RecordsAll(d.ops, session, xs + [x])
  {
    var first := ReceiveAll(ing, a, clock);
    var later := Later(clock, |a|);
    ReceiveConcat(ing, a, FrameBytes(SampleFrame(x)), clock);
    SampleArrives(first.ingest, session, x, later);
    RecordsConcat(first.ops, ReceiveAll(first.ingest, FrameBytes(SampleFrame(x)), later).ops, session, xs, x);
  }

  /** Any list of SAMPLE frames reaches the store as exactly those readings, in order. */
  lemma {:induction false} SamplesArrive(ing: Ingest, session: u16, xs: seq<Sampled>, clock: int -> int)
    requires Ready(ing, session) && forall i :: 0 <= i < |xs| ==> SampleFits(xs[i])
    ensures var d := ReceiveAll(ing, EncodeAll(SampleFrames(xs)), clock);
            Ready(d.ingest, session) && RecordsAll(d.ops, session, xs)
  {
    if xs == [] {
      assert Bodies(SampleFrames(xs)) == [];
    } else {
      var front, x := xs[..|xs| - 1], xs[|xs| - 1];
      SamplesArrive(ing, session, front, clock);
      SampleFramesLast(xs);
      OneMoreArrives(ing, session, EncodeAll(SampleFrames(front)), front, x, clock);
      SplitLast(xs);
    }
  }

  lemma SampleFramesLast(xs: seq<Sampled>)
    requires xs != [] && forall i :: 0 <= i < |xs| ==> SampleFits(xs[i])
    ensures var front, x := xs[..|xs| - 1], xs[|xs| - 1];
            EncodeAll(SampleFrames(xs)) == EncodeAll(SampleFrames(front)) + FrameBytes(SampleFrame(x))
  {
    var front, x := xs[..|xs| - 1], xs[|xs| - 1];
    assert SampleFrames(xs) == SampleFrames(front) + [SampleFrame(x)];
    EncodeAllAppend(SampleFrames(front), SampleFrame(x));
  }

  /** A HELLO frame opens the session and gets the CONFIG for it. */
  lemma HelloArrives(sessionId: u16, deviceId: nat, version: u16, h: Hello, clock: int -> int)
    requires deviceId < 0x1_0000_0000
    ensures var d := ReceiveAll(NewIngest(sessionId), FrameBytes(HelloFrame(deviceId, version, h)), clock);
            && Ready(d.ingest, sessionId) && d.ops == []
            && d.ingest.session == Some(Session(sessionId, true, GrantedRate(h.offeredRate), clock(|FrameBytes(HelloFrame(deviceId, version, h))| - 1), 0))
            && d.ingest.sent == FrameBytes(ConfigFrame(Config(sessionId, GrantedRate(h.offeredRate), MetricMask(h.metricCount))))
  {
    var f := HelloFrame(deviceId, version, h);
    var p := ReceiveFrame(NewIngest(sessionId), f, clock);
    HelloRoundTrip(deviceId, version, h);
    var c := FrameBytes(ConfigFrame(Config(sessionId, GrantedRate(h.offeredRate), MetricMask(h.metricCount))));
    assert [] + c == c;
  }

  /** A HELLO that offers rate 0 is granted it, and the first congested sweep then raises the rate to 1. */
  lemma HelloOfZeroIsRaised(sessionId: u16, h: Hello, clock: int -> int)
    requires h.offeredRate == 0
    ensures var ing := ReceiveAll(NewIngest(sessionId), FrameBytes(HelloFrame(0, 0, h)), clock).ingest;
            HasRate(ing.session, 0) && HasRate(Sweep(ing, true).session, 1)
  {
    HelloArrives(sessionId, 0, 0, h, clock);
  }

  /** What `xs` holds for one metric. */
  function Readings(xs: seq<Sampled>, metric: byte): seq<Sample>
  {
    if xs == [] then []
    else
      var x := xs[|xs| - 1];
      Readings(xs[..|xs| - 1], metric) + if x.metric == metric then [Sample(x.timestamp, x.value)] else []
  }

  lemma {:induction false} RecordedReadings(ops: seq<Op>, session: u16, metric: byte, xs: seq<Sampled>)
    requires RecordsAll(ops, session, xs)
    ensures Recorded(ops, session, metric) == Readings(xs, metric)
  {
    if ops != [] {
      var n := |ops| - 1;
      RecordedReadings(ops[..n], session, metric, xs[..n]);
      assert Records(ops[n], session, xs[n]);
    }
  }

  /** What a run of the store records for one session, of any metric. */
  function RecordsOf(ops: seq<Op>, session: u16): seq<Op>
  {
    if ops == [] then []
    else
      var op := ops[|ops| - 1];
      RecordsOf(ops[..|ops| - 1], session) + if op.DoRecord? && op.session == session then [op] else []
  }

  lemma RecordedLast(ops: seq<Op>, op: Op, session: u16, metric: byte)
    ensures Recorded(ops + [op], session, metric)
            == Recorded(ops, session, metric) + if RecordsFor(op, session, metric) then [Sample(op.timestamp, op.value)] else []
  {
    assert (ops + [op])[..|ops|] == ops;
  }

  lemma {:induction false} RecordedInSession(ops: seq<Op>, session: u16, metric: byte)
    ensures Recorded(RecordsOf(ops, session), session, metric) == Recorded(ops, session, metric)
  {
    if ops != [] {
      var front, op := ops[..|ops| - 1], ops[|ops| - 1];
      RecordedInSession(front, session, metric);
      SplitLast(ops);
      RecordedLast(front, op, session, metric);
      if op.DoRecord? && op.session == session {
        RecordedLast(RecordsOf(front, session), op, session, metric);
      } else {
        assert RecordsOf(ops, session) == RecordsOf(front, session);
      }
    }
  }

  lemma {:induction false} RecordedConcat(a: seq<Op>, b: seq<Op>, session: u16, metric: byte)
    ensures Recorded(a + b, session, metric) == Recorded(a, session, metric) + Recorded(b, session, metric)
  {
    if b == [] {
      assert a + b == a;
    } else {
      var front, op := b[..|b| - 1], b[|b| - 1];
      RecordedConcat(a, front, session, metric);
      SplitLast(b);
      Assoc(a, front, [op]);
      RecordedLast(a + front, op, session, metric);
      RecordedLast(front, op, session, metric);
    }
  }

  /** End to end: whatever readings a node frames after its HELLO, `history` returns for each metric the last
      64 of them and of what the session had recorded before, oldest first, value and timestamp intact.
      `before` is any run of the store, and `during` any run in which the records of this session are the
      ones its connection asks for: other devices, dashboards and sweeps interleave freely. */
  lemma ReadingsReachHistory(ing: Ingest, session: u16, metric: byte, xs: seq<Sampled>, clock: int -> int,
                             before: seq<Op>, during: seq<Op>)
    requires Ready(ing, session)
    requires forall i :: 0 <= i < |xs| ==> SampleFits(xs[i])
    requires RecordsOf(during, session) == ReceiveAll(ing, EncodeAll(SampleFrames(xs)), clock).ops
    ensures RingSamples(RingAt(Run(EMPTY_STORE, before + during), MakeKey(session, metric)))
            == Latest(Recorded(before, session, metric) + Readings(xs, metric), 64)
  {
    SamplesArrive(ing, session, xs, clock);
    RecordedReadings(RecordsOf(during, session), session, metric, xs);
    RecordedInSession(during, session, metric);
    RecordedConcat(before, during, session, metric);
    HistoryReturnsLatest(before + during, session, metric);
  }

  /** Two readings that the wire carries and whose smoothing leaves 32 bits: the lowest value, then zero. */
  function WideReadings(session: u16, metric: byte): (xs: seq<Sampled>)
    ensures forall i :: 0 <= i < |xs| ==> SampleFits(xs[i])
  {
    [Sampled(session, 0, -0x8000_0000, metric), Sampled(session, 0, 0, metric)]
  }

  /** So readings a device can send do overflow, from a new store already. */
  lemma ReadingsCanOverflow(ing: Ingest, session: u16, metric: byte, clock: int -> int)
    requires Ready(ing, session)
    ensures !NoOverflowIn(ReceiveAll(ing, EncodeAll(SampleFrames(WideReadings(session, metric))), clock).ops, session, metric)
  {
    var xs := WideReadings(session, metric);
    SamplesArrive(ing, session, xs, clock);
    WideRecordsOverflow(ReceiveAll(ing, EncodeAll(SampleFrames(xs)), clock).ops, session, metric, xs);
  }

  lemma WideRecordsOverflow(ops: seq<Op>, session: u16, metric: byte, xs: seq<Sampled>)
    requires xs == WideReadings(session, metric) && RecordsAll(ops, session, xs)
    ensures !NoOverflowIn(ops, session, metric)
  {
    assert Records(ops[0], session, xs[0]) && Records(ops[1], session, xs[1]);
    assert ops == [ops[0], ops[1]];
    WideStepOverflows(ops[0], ops[1], session, metric);
  }
}
