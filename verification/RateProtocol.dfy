/** HELLO, CONFIG and SLOW_DOWN between server and node: server/ingest.cpp, server/device_session.cpp,
    the rate halving of server/main.cpp and the node's command task, joined by a lossless byte FIFO
    from server to node. Bytes from the node are arbitrary. */
module RateProtocol {
  import opened Bits
  import opened Common
  import opened Delimited
  import opened FrameEncoder
  import opened FrameParser
  import opened FrameStream
  import opened Messages
  import opened Split
  import opened StoreModel

  const MAX_RATE: byte := 10
  const DEFAULT_RATE: byte := 2
  const FIRST_SESSION: u16 := 1

  // ---- Server side ----

  datatype Session = Session(id: u16, connected: bool, rate: byte, lastActivity: int, lastUptime: nat)

  /** A mask with one bit for each of the first eight metrics offered. */
  function MetricMask(count: byte): byte
  {
    [0, 1, 3, 7, 15, 31, 63, 127, 255][if count < 8 then count as nat else 8]
  }

  function GrantedRate(offered: byte): byte
  {
    if offered < MAX_RATE then offered else MAX_RATE
  }

  /** The granted rate is the smaller of the offer and ten. */
  lemma GrantedExactly(offered: byte)
    ensures GrantedRate(offered) <= offered && GrantedRate(offered) <= 10 && (GrantedRate(offered) == offered || GrantedRate(offered) == 10)
  {
  }

  /** Bit `i` of the mask is set exactly for the metrics offered, of which there are at most eight. */
  lemma MaskExactly(count: byte, i: nat)
    requires i < 8
    ensures (MetricMask(count) as nat / [1, 2, 4, 8, 16, 32, 64, 128][i]) % 2 == 1 <==> i < count as nat
  {
  }

  function TimedOut(s: Session, now: int, timeout: int): bool
  {
    now - s.lastActivity > timeout
  }

  /** One device's connection on the server. `sent` is everything enqueued for the device so far. */
  datatype Ingest = Ingest(sessionId: u16, parser: Parser, session: Option<Session>, sent: seq<byte>)

  function NewIngest(sessionId: u16): Ingest
  {
    Ingest(sessionId, Fresh(MAX_PAYLOAD), None, [])
  }

  function HandleHello(ing: Ingest, hello: Hello, now: int): Ingest
  {
    var session := Session(ing.sessionId, true, GrantedRate(hello.offeredRate), now, 0);
    var config := Config(session.id, session.rate, MetricMask(hello.metricCount));
    ing.(session := Some(session), sent := ing.sent + FrameBytes(ConfigFrame(config)))
  }

  function Heard(ing: Ingest, now: int, uptime: nat): Ingest
  {
    match ing.session
    case None => ing
    case Some(s) => ing.(session := Some(s.(lastActivity := now, lastUptime := uptime)))
  }

  datatype Dispatched = Dispatched(ingest: Ingest, ops: seq<Op>)

  /** What one frame from the device does to the connection, and what it asks of the store. */
  function Dispatch(ing: Ingest, f: Frame, now: int): Dispatched
  {
    match ParseHello(f)
    case Some(hello) => Dispatched(HandleHello(ing, hello, now), [])
    case None =>
      match ParseHeartbeat(f)
      case Some(beat) => Dispatched(Heard(ing, now, beat.uptime), [])
      case None =>
        match ParseSample(f)
        case None => Dispatched(ing, [])
        case Some(x) =>
          match ing.session
          case None => Dispatched(ing, [])
          case Some(s) =>
            Dispatched(Heard(ing, now, x.timestamp), [DoRecord(s.id, x.metric, x.value, x.timestamp, now)])
  }

  /** One byte from the device through the parser and, if it completes a frame, the dispatcher. */
  function Receive(ing: Ingest, b: byte, now: int): Dispatched
  {
    var t := Step(ing.parser, b);
    var ing' := ing.(parser := t.parser);
    match t.frame
    case None => Dispatched(ing', [])
    case Some(f) => Dispatch(ing', f, now)
  }

  function ReceiveMore(d: Dispatched, b: byte, now: int): Dispatched
  {
    var r := Receive(d.ingest, b, now);
    Dispatched(r.ingest, d.ops + r.ops)
  }

  /** A run of bytes from the device; `clock` tells the time at each of them. */
  function ReceiveAll(ing: Ingest, s: seq<byte>, clock: int -> int): Dispatched
  {
    if s == [] then Dispatched(ing, [])
    else ReceiveMore(ReceiveAll(ing, s[..|s| - 1], clock), s[|s| - 1], clock(|s| - 1))
  }

  function SendSlowDown(ing: Ingest, rate: byte): Ingest
  {
    match ing.session
    case None => ing
    case Some(s) => ing.(session := Some(s.(rate := rate)), sent := ing.sent + FrameBytes(SlowDownFrame(SlowDown(s.id, rate))))
  }

  function Halved(rate: byte): byte
  {
    if rate / 2 < 1 then 1 else rate / 2
  }

  /** What a housekeeping sweep does to a live device. */
  function Sweep(ing: Ingest, congested: bool): Ingest
  {
    if congested && ing.session.Some? then SendSlowDown(ing, Halved(ing.session.value.rate)) else ing
  }

  // ---- Node side ----

  datatype Node = Node(parser: Parser, rate: byte, sessionId: u16, connected: bool)

  function NewNode(): Node
  {
    Node(Fresh(MAX_PAYLOAD), DEFAULT_RATE, 0, false)
  }

  /** The frame-handling half of the command task. */
  function Obey(node: Node, f: Frame): Node
  {
    match ParseConfig(f)
    case Some(c) => node.(rate := c.rate, sessionId := c.session, connected := true)
    case None =>
      match ParseSlowDown(f)
      case Some(d) => node.(rate := d.rate)
      case None => node
  }

  function NodeByte(node: Node, b: byte): Node
  {
    var t := Step(node.parser, b);
    var node' := node.(parser := t.parser);
    match t.frame
    case None => node'
    case Some(f) => Obey(node', f)
  }

  function NodeBytes(node: Node, s: seq<byte>): Node
  {
    if s == [] then node else NodeByte(NodeBytes(node, s[..|s| - 1]), s[|s| - 1])
  }

  function ObeyAll(node: Node, fs: seq<Frame>): Node
  {
    if fs == [] then node else Obey(ObeyAll(node, fs[..|fs| - 1]), fs[|fs| - 1])
  }

  lemma {:induction false} NodeBytesConcat(node: Node, a: seq<byte>, b: seq<byte>)
    ensures NodeBytes(node, a + b) == NodeBytes(NodeBytes(node, a), b)
  {
    if b == [] {
      assert a + b == a;
    } else {
      assert (a + b)[..|a + b| - 1] == a + b[..|b| - 1];
      NodeBytesConcat(node, a, b[..|b| - 1]);
    }
  }

  function ObeyFed(node: Node, r: Fed): Node
  {
    ObeyAll(node, r.frames).(parser := r.parser)
  }

  /** The node acts on a frame exactly if it is a CONFIG or SLOW_DOWN of the right size; SLOW_DOWN sets the rate
      and nothing else. */
  lemma ObeysExactly(node: Node, f: Frame)
    ensures !(f.mtype == 2 && |f.payload| == 4) && !(f.mtype == 4 && |f.payload| == 3) ==> Obey(node, f) == node
    ensures f.mtype == 4 && |f.payload| == 3 ==> Obey(node, f) == node.(rate := f.payload[2])
    ensures f.mtype == 2 && |f.payload| == 4 ==>
              Obey(node, f) == node.(rate := f.payload[2], connected := true,
                                     sessionId := (f.payload[0] as int + 256 * f.payload[1] as int) as u16)
  {
  }

  lemma ObeyIgnoresParser(node: Node, p: Parser, f: Frame)
    ensures Obey(node.(parser := p), f) == Obey(node, f).(parser := p)
  {
  }

  lemma NodeByteObeys(node: Node, r: Fed, b: byte)
    ensures NodeByte(ObeyFed(node, r), b) == ObeyFed(node, FeedMore(r, b))
  {
    var t := Step(r.parser, b);
    match t.frame {
      case None =>
        assert r.frames + [] == r.frames;
      case Some(f) =>
        var fs := r.frames + [f];
        assert fs[..|fs| - 1] == r.frames;
        ObeyIgnoresParser(ObeyAll(node, r.frames), t.parser, f);
    }
  }

  /** The task obeys exactly the frames its parser delivers, in order. */
  lemma {:induction false} NodeObeysDelivered(node: Node, s: seq<byte>)
    ensures NodeBytes(node, s) == ObeyFed(node, Feed(node.parser, s))
  {
    if s != [] {
      NodeObeysDelivered(node, s[..|s| - 1]);
      NodeByteObeys(node, Feed(node.parser, s[..|s| - 1]), s[|s| - 1]);
    }
  }

  predicate IsConfig(f: Frame)
  {
    f.mtype == 2 && |f.payload| == 4
  }

  predicate SetsRate(f: Frame)
  {
    IsConfig(f) || (f.mtype == 4 && |f.payload| == 3)
  }

  /** The rate of the last CONFIG or SLOW_DOWN, and 2 before the first. */
  function RateTold(fs: seq<Frame>): byte
  {
    if fs == [] then 2 else if SetsRate(fs[|fs| - 1]) then fs[|fs| - 1].payload[2] else RateTold(fs[..|fs| - 1])
  }

  /** The session id of the last CONFIG, and 0 before the first. */
  function SessionTold(fs: seq<Frame>): nat
  {
    if fs == [] then 0
    else if IsConfig(fs[|fs| - 1]) then fs[|fs| - 1].payload[0] as nat + 256 * fs[|fs| - 1].payload[1] as nat
    else SessionTold(fs[..|fs| - 1])
  }

  lemma {:induction false} ObeyFollows(fs: seq<Frame>)
    ensures var n := ObeyAll(NewNode(), fs);
            && n.rate == RateTold(fs) && n.sessionId as nat == SessionTold(fs)
            && (n.connected <==> exists i :: 0 <= i < |fs| && IsConfig(fs[i]))
  {
    if fs != [] {
      var fs', f := fs[..|fs| - 1], fs[|fs| - 1];
      ObeyFollows(fs');
      ObeysExactly(ObeyAll(NewNode(), fs'), f);
      assert forall i :: 0 <= i < |fs'| ==> fs[i] == fs'[i];
    }
  }

  /** A node that has read any bytes samples at the rate it was last told, reports under the session it was last
      given, and counts as connected exactly from the first CONFIG on. */
  lemma NodeFollowsLast(s: seq<byte>)
    ensures var n, fs := NodeBytes(NewNode(), s), Feed(NewNode().parser, s).frames;
            && n.rate == RateTold(fs) && n.sessionId as nat == SessionTold(fs)
            && (n.connected <==> exists i :: 0 <= i < |fs| && IsConfig(fs[i]))
  {
    NodeObeysDelivered(NewNode(), s);
    ObeyFollows(Feed(NewNode().parser, s).frames);
  }

  lemma EncodeOne(f: Frame)
    requires Fits(f)
    ensures EncodeAll([f]) == FrameBytes(f)
  {
    assert Bodies([f]) == [Body(f)];
    WireOne(DELIMITER, Body(f));
  }

  lemma ObeyOne(node: Node, f: Frame)
    ensures ObeyAll(node, [f]) == Obey(node, f)
  {
    assert [f][..0] == [];
  }

  /** At a frame boundary, the bytes of one frame make the node obey that frame. */
  lemma NodeTakesFrame(node: Node, f: Frame)
    requires AtBoundary(node.parser) && Sendable(node.parser.maxPayload, f)
    ensures var n := NodeBytes(node, FrameBytes(f));
            && AtBoundary(n.parser) && n.parser.maxPayload == node.parser.maxPayload
            && n == Obey(node, f).(parser := n.parser)
  {
    EncodeOne(f);
    BoundaryRoundTrip(node.parser, [f]);
    NodeObeysDelivered(node, FrameBytes(f));
    ObeyOne(node, f);
    ObeyIgnoresParser(node, Feed(node.parser, FrameBytes(f)).parser, f);
  }

  // ---- The two ends together ----

  /** `inFlight` is what the server has enqueued and the node has not read: write buffer, socket and UART. */
  datatype Link = Link(server: Ingest, inFlight: seq<byte>, node: Node)

  function NewLink(sessionId: u16): Link
  {
    Link(NewIngest(sessionId), [], NewNode())
  }

  datatype Event =
    | FromNode(b: byte, now: int)  // the server reads a byte; the link does not say where it came from
    | Swept(congested: bool)       // a housekeeping sweep
    | ToNode                       // the node reads the next byte in flight

  /** The server's half of an event. */
  function Serve(ing: Ingest, e: Event): Ingest
  {
    match e
    case FromNode(b, now) => Receive(ing, b, now).ingest
    case Swept(congested) => Sweep(ing, congested)
    case ToNode => ing
  }

  function After(l: Link, e: Event): Link
  {
    if e.ToNode? then
      if l.inFlight == [] then l else l.(inFlight := l.inFlight[1..], node := NodeByte(l.node, l.inFlight[0]))
    else
      var server := Serve(l.server, e);
      l.(server := server, inFlight := l.inFlight + NewBytes(l.server, server))
  }

  /** What a step of the server enqueued. */
  function NewBytes(before: Ingest, after: Ingest): seq<byte>
  {
    if |before.sent| <= |after.sent| then after.sent[|before.sent|..] else []
  }

  function RunLink(l: Link, events: seq<Event>): Link
  {
    if events == [] then l else After(RunLink(l, events[..|events| - 1]), events[|events| - 1])
  }

  /** The node once everything in flight has reached it. */
  function Settled(l: Link): Node
  {
    NodeBytes(l.node, l.inFlight)
  }

  // ---- Agreement ----

  predicate Agrees(node: Node, session: Option<Session>)
  {
    session.Some? ==> node.connected && node.rate == session.value.rate && node.sessionId == session.value.id
  }

  predicate SessionWf(ing: Ingest)
  {
    ing.session.Some? ==> ing.session.value.id == ing.sessionId && ing.session.value.rate <= MAX_RATE
  }

  predicate LinkInv(l: Link)
  {
    var n := Settled(l);
    && SessionWf(l.server)
    && AtBoundary(n.parser) && n.parser.maxPayload == MAX_PAYLOAD
    && Agrees(n, l.server.session)
  }

  lemma ConfigAgrees(node: Node, s: Session, mask: byte)
    ensures Agrees(Obey(node, ConfigFrame(Config(s.id, s.rate, mask))), Some(s))
  {
    ConfigRoundTrip(Config(s.id, s.rate, mask));
  }

  lemma SlowDownAgrees(node: Node, s: Session, rate: byte)
    requires Agrees(node, Some(s))
    ensures Agrees(Obey(node, SlowDownFrame(SlowDown(s.id, rate))), Some(s.(rate := rate)))
  {
    SlowDownRoundTrip(SlowDown(s.id, rate));
  }

  /** The effect of a server step on what is enqueued and on the session. */
  ghost predicate Announced(before: Ingest, after: Ingest, f: Option<Frame>)
  {
    && SessionWf(after) && after.sessionId == before.sessionId
    && match f
       case None =>
         && after.sent == before.sent
         && forall n :: Agrees(n, before.session) ==> Agrees(n, after.session)
       case Some(f) =>
         && Fits(f) && after.sent == before.sent + FrameBytes(f)
         && forall n :: Agrees(n, before.session) ==> Agrees(Obey(n, f), after.session)
  }

  lemma HelloAnnounces(ing: Ingest, hello: Hello, now: int) returns (f: Option<Frame>)
    ensures Announced(ing, HandleHello(ing, hello, now), f)
  {
    var after := HandleHello(ing, hello, now);
    var s, mask := after.session.value, MetricMask(hello.metricCount);
    var c := ConfigFrame(Config(s.id, s.rate, mask));
    f := Some(c);
    forall n
      ensures Agrees(Obey(n, c), after.session)
    {
      ConfigAgrees(n, s, mask);
    }
  }

  lemma SweepAnnounces(ing: Ingest, congested: bool) returns (f: Option<Frame>)
    requires SessionWf(ing)
    ensures Announced(ing, Sweep(ing, congested), f)
  {
    f := None;
    if congested && ing.session.Some? {
      var s := ing.session.value;
      var d := SlowDownFrame(SlowDown(s.id, Halved(s.rate)));
      f := Some(d);
      forall n | Agrees(n, ing.session)
        ensures Agrees(Obey(n, d), Sweep(ing, congested).session)
      {
        SlowDownAgrees(n, s, Halved(s.rate));
      }
    }
  }

  lemma HeardKeeps(ing: Ingest, now: int, uptime: nat)
    requires SessionWf(ing)
    ensures Announced(ing, Heard(ing, now, uptime), None)
  {
  }

  lemma DispatchAnnounces(ing: Ingest, frame: Frame, now: int) returns (f: Option<Frame>)
    requires SessionWf(ing)
    ensures Announced(ing, Dispatch(ing, frame, now).ingest, f)
  {
    f := None;
    if ParseHello(frame).Some? {
      f := HelloAnnounces(ing, ParseHello(frame).value, now);
    } else if ParseHeartbeat(frame).Some? {
      HeardKeeps(ing, now, ParseHeartbeat(frame).value.uptime);
    } else if ParseSample(frame).Some? {
      HeardKeeps(ing, now, ParseSample(frame).value.timestamp);
    }
  }

  lemma ServeAnnounces(ing: Ingest, e: Event) returns (f: Option<Frame>)
    requires SessionWf(ing)
    ensures Announced(ing, Serve(ing, e), f)
  {
    match e {
      case ToNode => f := None;
      case Swept(congested) => f := SweepAnnounces(ing, congested);
      case FromNode(b, now) =>
        var t := Step(ing.parser, b);
        f := None;
        if t.frame.Some? {
          f := DispatchAnnounces(ing.(parser := t.parser), t.frame.value, now);
        }
    }
  }

  /** Enqueueing a frame behind what is in flight makes the settled node obey it. */
  lemma SettledAfterSend(l: Link, f: Frame)
    requires Fits(f) && AtBoundary(Settled(l).parser) && Settled(l).parser.maxPayload == MAX_PAYLOAD
    ensures var n := NodeBytes(l.node, l.inFlight + FrameBytes(f));
            && AtBoundary(n.parser) && n.parser.maxPayload == MAX_PAYLOAD
            && n == Obey(Settled(l), f).(parser := n.parser)
  {
    NodeBytesConcat(l.node, l.inFlight, FrameBytes(f));
    NodeTakesFrame(Settled(l), f);
  }

  lemma DeliveryKeepsSettled(l: Link)
    ensures Settled(After(l, ToNode)) == Settled(l)
  {
    if l.inFlight != [] {
      var b, rest := l.inFlight[0], l.inFlight[1..];
      assert l.inFlight == [b] + rest && [b][..0] == [];
      NodeBytesConcat(l.node, [b], rest);
      assert NodeBytes(l.node, [b]) == NodeByte(NodeBytes(l.node, []), b);
    }
  }

  lemma AfterKeepsInv(l: Link, e: Event)
    requires LinkInv(l)
    ensures LinkInv(After(l, e)) && After(l, e).server.sessionId == l.server.sessionId
  {
    if e.ToNode? {
      DeliveryKeepsSettled(l);
    } else {
      var f := ServeAnnounces(l.server, e);
      var server := Serve(l.server, e);
      if f.Some? {
        assert NewBytes(l.server, server) == FrameBytes(f.value);
        SettledAfterSend(l, f.value);
        assert Agrees(Obey(Settled(l), f.value), server.session);
      } else {
        assert NewBytes(l.server, server) == [];
        assert l.inFlight + [] == l.inFlight;
      }
    }
  }

  lemma {:induction false} RunKeepsInv(sessionId: u16, events: seq<Event>)
    ensures var l := RunLink(NewLink(sessionId), events); LinkInv(l) && l.server.sessionId == sessionId
  {
    if events != [] {
      RunKeepsInv(sessionId, events[..|events| - 1]);
      AfterKeepsInv(RunLink(NewLink(sessionId), events[..|events| - 1]), events[|events| - 1]);
    }
  }

  /** In every run, whatever bytes reach the server and however delivery and sweeps interleave: once a
      session exists, delivering the bytes in flight leaves the node with the session's id and rate;
      and that rate never exceeds the cap. */
  lemma RateAgreement(sessionId: u16, events: seq<Event>)
    requires RunLink(NewLink(sessionId), events).server.session.Some?
    ensures var l := RunLink(NewLink(sessionId), events);
            var s := l.server.session.value;
            && Settled(l).connected && Settled(l).rate == s.rate && Settled(l).sessionId == s.id == sessionId
            && s.rate <= MAX_RATE
  {
    RunKeepsInv(sessionId, events);
  }

  function Deliveries(n: nat): seq<Event>
  {
    seq(n, _ => ToNode)
  }

  /** `Settled` is where enough deliveries lead. */
  lemma {:induction false} DeliveringSettles(l: Link, n: nat)
    ensures var l' := RunLink(l, Deliveries(n));
            && Settled(l') == Settled(l) && l'.server == l.server
            && l'.inFlight == (if n <= |l.inFlight| then l.inFlight[n..] else [])
            && (n >= |l.inFlight| ==> l'.node == Settled(l))
  {
    if n > 0 {
      assert Deliveries(n)[..n - 1] == Deliveries(n - 1);
      DeliveringSettles(l, n - 1);
      DeliveryKeepsSettled(RunLink(l, Deliveries(n - 1)));
    }
  }

  // ---- Back-pressure ----

  function HalvedTimes(rate: byte, k: nat): byte
  {
    if k == 0 then rate else Halved(HalvedTimes(rate, k - 1))
  }

  lemma HalfOfQuotient(r: nat, p: nat)
    requires p > 0
    ensures (r / p) / 2 == r / (2 * p)
  {
    var q := r / p;
    var h := q / 2;
    assert q * p <= r < (q + 1) * p;
    assert 2 * h <= q <= 2 * h + 1;
    assert h * (2 * p) <= r by {
      assert h * (2 * p) == (2 * h) * p;
      assert (2 * h) * p <= q * p;
    }
    assert r < (h + 1) * (2 * p) by {
      assert (h + 1) * (2 * p) == (2 * h + 2) * p;
      assert (q + 1) * p <= (2 * h + 2) * p;
    }
    QuotientUnique(r, 2 * p, h);
  }

  lemma QuotientUnique(r: nat, d: nat, h: nat)
    requires d > 0 && h * d <= r < (h + 1) * d
    ensures r / d == h
  {
    var q := r / d;
    assert q * d <= r < (q + 1) * d;
    assert q < h ==> (q + 1) * d <= h * d;
    assert q > h ==> (h + 1) * d <= q * d;
  }

  /** After `k` sweeps, `k` at least one, the rate is the original divided by 2^k but at least 1. */
  lemma {:induction false} HalvedTimesIsQuotient(rate: byte, k: nat)
    requires k >= 1
    ensures HalvedTimes(rate, k) as nat == if rate as nat / Pow2(k) < 1 then 1 else rate as nat / Pow2(k)
  {
    if k == 1 {
      assert Pow2(1) == 2 * Pow2(0);
      assert HalvedTimes(rate, 1) == Halved(HalvedTimes(rate, 0));
    } else {
      HalvedTimesIsQuotient(rate, k - 1);
      HalfOfQuotient(rate as nat, Pow2(k - 1));
    }
  }

  predicate AcceptsHello(ing: Ingest, e: Event)
  {
    e.FromNode? && var t := Step(ing.parser, e.b); t.frame.Some? && ParseHello(t.frame.value).Some?
  }

  predicate NoHello(l: Link, events: seq<Event>)
  {
    events == [] ||
    (NoHello(l, events[..|events| - 1]) && !AcceptsHello(RunLink(l, events[..|events| - 1]).server, events[|events| - 1]))
  }

  lemma AfterServes(l: Link, e: Event)
    ensures After(l, e).server == Serve(l.server, e)
  {
  }

  function CongestedSweeps(events: seq<Event>): nat
  {
    if events == [] then 0
    else CongestedSweeps(events[..|events| - 1]) + if events[|events| - 1] == Swept(true) then 1 else 0
  }

  predicate HasRate(session: Option<Session>, rate: byte)
  {
    session.Some? && session.value.rate == rate
  }

  lemma RateAfter(ing: Ingest, e: Event, rate: byte)
    requires HasRate(ing.session, rate) && !AcceptsHello(ing, e)
    ensures HasRate(Serve(ing, e).session, if e == Swept(true) then Halved(rate) else rate)
  {
  }

  /** Between HELLOs only congested sweeps change the rate, each halving it, whatever else happens. */
  lemma {:induction false} SweepsHalve(l: Link, events: seq<Event>, rate: byte)
    requires HasRate(l.server.session, rate) && NoHello(l, events)
    ensures HasRate(RunLink(l, events).server.session, HalvedTimes(rate, CongestedSweeps(events)))
  {
    if events != [] {
      var front, e := events[..|events| - 1], events[|events| - 1];
      SweepsHalve(l, front, rate);
      var k, l' := CongestedSweeps(front), RunLink(l, front);
      RateAfter(l'.server, e, HalvedTimes(rate, k));
      AfterServes(l', e);
      assert RunLink(l, events) == After(l', e);
    }
  }

  lemma {:induction false} RunLinkConcat(l: Link, a: seq<Event>, b: seq<Event>)
    ensures RunLink(l, a + b) == RunLink(RunLink(l, a), b)
  {
    if b == [] {
      assert a + b == a;
    } else {
      assert (a + b)[..|a + b| - 1] == a + b[..|b| - 1];
      RunLinkConcat(l, a, b[..|b| - 1]);
    }
  }

  /** Once a session exists and no further HELLO comes, however sweeps, bytes and deliveries interleave:
      after `k` congested sweeps, `k` at least one, delivering what is in flight leaves server and node at
      the former rate divided by 2^k, but at least 1. */
  lemma SweptRate(sessionId: u16, events: seq<Event>, more: seq<Event>, rate: byte)
    requires var l := RunLink(NewLink(sessionId), events); HasRate(l.server.session, rate) && NoHello(l, more)
    requires CongestedSweeps(more) >= 1
    ensures var l, q := RunLink(NewLink(sessionId), events + more), rate as nat / Pow2(CongestedSweeps(more));
            && HasRate(l.server.session, Settled(l).rate)
            && Settled(l).rate as nat == if q < 1 then 1 else q
  {
    RunLinkConcat(NewLink(sessionId), events, more);
    SweepsHalve(RunLink(NewLink(sessionId), events), more, rate);
    RateAgreement(sessionId, events + more);
    HalvedTimesIsQuotient(rate, CongestedSweeps(more));
  }

  /** SLOW_DOWN lowers the rate or keeps it exactly if it was at least 1: a session granted 0 is raised. */
  lemma SweepsNeverRaise(sessionId: u16, events: seq<Event>, more: seq<Event>, rate: byte)
    requires var l := RunLink(NewLink(sessionId), events); HasRate(l.server.session, rate) && NoHello(l, more)
    requires CongestedSweeps(more) >= 1
    ensures Settled(RunLink(NewLink(sessionId), events + more)).rate <= rate <==> rate >= 1
  {
    RunLinkConcat(NewLink(sessionId), events, more);
    SweepsHalve(RunLink(NewLink(sessionId), events), more, rate);
    RateAgreement(sessionId, events + more);
    HalvedAgain(rate, CongestedSweeps(more));
  }

  lemma {:induction false} HalvedAgain(rate: byte, k: nat)
    requires k >= 1
    ensures if rate >= 1 then HalvedTimes(rate, k) <= rate else HalvedTimes(rate, k) == 1
  {
    if k == 1 {
      assert HalvedTimes(rate, 1) == Halved(HalvedTimes(rate, 0));
    } else {
      HalvedAgain(rate, k - 1);
    }
  }

  lemma {:induction false} Pow2AtLeast8(k: nat)
    requires k >= 3
    ensures Pow2(k) >= 8
  {
    if k == 3 {
      assert Pow2(1) == 2 && Pow2(2) == 4;
    } else {
      Pow2AtLeast8(k - 1);
    }
  }

  /** Three congested sweeps without a HELLO bring every session, and the node behind it, down to one. */
  lemma ThreeSweepsSuffice(sessionId: u16, events: seq<Event>, more: seq<Event>)
    requires var l := RunLink(NewLink(sessionId), events); l.server.session.Some? && NoHello(l, more)
    requires CongestedSweeps(more) >= 3
    ensures var l := RunLink(NewLink(sessionId), events + more);
            HasRate(l.server.session, 1) && Settled(l).rate == 1
  {
    var rate := RunLink(NewLink(sessionId), events).server.session.value.rate;
    RateAgreement(sessionId, events);
    SweptRate(sessionId, events, more, rate);
    Pow2AtLeast8(CongestedSweeps(more));
    var q := rate as nat / Pow2(CongestedSweeps(more));
    assert q <= 1 by {
      QuotientSmall(rate as nat, Pow2(CongestedSweeps(more)));
    }
  }

  lemma QuotientSmall(r: nat, p: nat)
    requires p >= 8 && r <= 10
    ensures r / p <= 1
  {
    QuotientUnique(r, p, if r < p then 0 else 1);
  }

  // ---- Where samples go ----

  /** A device writes only to its own session, and nothing before its HELLO. */
  lemma SamplesStayInSession(sessionId: u16, events: seq<Event>, b: byte, now: int)
    ensures var server := RunLink(NewLink(sessionId), events).server;
            forall op :: op in Receive(server, b, now).ops ==>
              op.DoRecord? && op.session == sessionId && op.now == now && server.session.Some?
  {
    RunKeepsInv(sessionId, events);
  }

  // ---- Session ids ----

  /** The id given to the `k`-th accepted device: a 16-bit counter. */
  function AssignedId(k: nat): u16
  {
    ((FIRST_SESSION as nat + k) % 0x1_0000) as u16
  }

  /** The first device gets id 1, and each further one the next, wrapping to 0 behind 65535. */
  lemma IdsCountUp(k: nat)
    ensures AssignedId(0) == 1
    ensures AssignedId(k + 1) == if AssignedId(k) == 65535 then 0 else AssignedId(k) + 1
  {
  }

  /** Ids collide exactly at multiples of 65536 accepts, so devices accepted closer together differ. */
  lemma IdsDiffer(i: nat, j: nat)
    ensures AssignedId(i) == AssignedId(j) <==> (i - j) % 0x1_0000 == 0
  {
  }
}
