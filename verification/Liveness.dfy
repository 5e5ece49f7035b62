/** Which devices count as heard from, and so which ones a sweep takes for silent: server/ingest.cpp,
    server/device_session.cpp and the timeout of server/main.cpp, in terms of the bytes that arrived. */
module Liveness {
  import opened Bits
  import opened Common
  import Connection
  import opened FrameEncoder
  import opened FrameParser
  import opened Housekeeping
  import opened Messages
  import opened RateProtocol
  import opened StoreModel
  import opened Telemetry

  /** The frame is a HELLO, HEARTBEAT or SAMPLE of the right size. */
  predicate Marks(f: Frame)
  {
    ParseHello(f).Some? || ParseHeartbeat(f).Some? || ParseSample(f).Some?
  }

  lemma MarksExactly(f: Frame)
    ensures Marks(f) <==> (f.mtype == 1 && |f.payload| == 8) || (f.mtype == 5 && |f.payload| == 6) || (f.mtype == 3 && |f.payload| == 11)
  {
    ParsesExactly(f);
  }

  /** Not every frame marks the device as heard from: exactly HELLO, HEARTBEAT and SAMPLE of the right size do,
      and any other frame changes nothing. */
  lemma HeardExactly(ing: Ingest, f: Frame, now: int)
    requires ing.session.Some? && ing.session.value.lastActivity != now
    ensures var d := Dispatch(ing, f, now);
            var counts := (f.mtype == 1 && |f.payload| == 8) || (f.mtype == 5 && |f.payload| == 6) || (f.mtype == 3 && |f.payload| == 11);
            && d.ingest.session.Some?
            && (d.ingest.session.value.lastActivity == now <==> counts)
            && (!counts ==> d == Dispatched(ing, []))
  {
    MarksExactly(f);
  }

  // ---- What a device has said ----

  /** The bytes the server read from the device. */
  function Bytes(events: seq<Event>): seq<byte>
  {
    if events == [] then []
    else
      var e := events[|events| - 1];
      Bytes(events[..|events| - 1]) + if e.FromNode? then [e.b] else []
  }

  /** The frame completed by the last event, if it completes one. */
  function Completed(events: seq<Event>): Option<Frame>
    requires events != []
  {
    var e := events[|events| - 1];
    if e.FromNode? then Step(Feed(Fresh(MAX_PAYLOAD), Bytes(events[..|events| - 1])).parser, e.b).frame else None
  }

  /** The last event completes a HELLO, or, the device having said HELLO, another frame that counts. */
  predicate Speaks(events: seq<Event>)
    decreases |events|, 1
  {
    events != [] && Completed(events).Some? &&
    (ParseHello(Completed(events).value).Some?
     || (Marks(Completed(events).value) && Greeted(events[..|events| - 1])))
  }

  /** The device has said HELLO. */
  predicate Greeted(events: seq<Event>)
  {
    events != [] &&
    (Greeted(events[..|events| - 1]) || (Completed(events).Some? && ParseHello(Completed(events).value).Some?))
  }

  /** The time of the last event with which `counts` holds of everything so far. */
  function LastTime(counts: seq<Event> -> bool, events: seq<Event>): int
  {
    if events == [] then 0
    else if CountsAt(counts, events, |events| - 1) then events[|events| - 1].now
    else LastTime(counts, events[..|events| - 1])
  }

  predicate CountsAt(counts: seq<Event> -> bool, events: seq<Event>, k: nat)
    requires k < |events|
  {
    events[k].FromNode? && counts(events[..k + 1])
  }

  /** When the device last said something that counts. */
  function LastHeard(events: seq<Event>): int
  {
    LastTime(e => Speaks(e), events)
  }

  lemma LastHeardStep(events: seq<Event>)
    requires events != []
    ensures LastHeard(events) == if Speaks(events) then events[|events| - 1].now else LastHeard(events[..|events| - 1])
  {
    assert events[..|events| - 1 + 1] == events;
  }

  lemma ServeParser(ing: Ingest, e: Event)
    ensures Serve(ing, e).parser == if e.FromNode? then Step(ing.parser, e.b).parser else ing.parser
  {
  }

  /** The server's parser has seen exactly those bytes. */
  lemma {:induction false} ParserHears(sessionId: u16, events: seq<Event>)
    ensures RunLink(NewLink(sessionId), events).server.parser == Feed(Fresh(MAX_PAYLOAD), Bytes(events)).parser
  {
    if events != [] {
      var front, e := events[..|events| - 1], events[|events| - 1];
      ParserHears(sessionId, front);
      AfterServes(RunLink(NewLink(sessionId), front), e);
      ServeParser(RunLink(NewLink(sessionId), front).server, e);
      if e.FromNode? {
        FeedLast(Fresh(MAX_PAYLOAD), Bytes(front), e.b);
      } else {
        assert Bytes(events) == Bytes(front);
      }
    }
  }

  predicate ActiveSince(session: Option<Session>, greeted: bool, at: int)
  {
    (session.Some? <==> greeted) && (session.Some? ==> session.value.lastActivity == at)
  }

  lemma DispatchActivity(ing: Ingest, f: Frame, now: int, greeted: bool, at: int)
    requires ActiveSince(ing.session, greeted, at)
    ensures var hello := ParseHello(f).Some?;
            ActiveSince(Dispatch(ing, f, now).ingest.session, greeted || hello,
                        if hello || (Marks(f) && greeted) then now else at)
  {
  }

  lemma ServeActivity(ing: Ingest, e: Event, greeted: bool, at: int)
    requires ActiveSince(ing.session, greeted, at)
    ensures var f := if e.FromNode? then Step(ing.parser, e.b).frame else None;
            var hello := f.Some? && ParseHello(f.value).Some?;
            ActiveSince(Serve(ing, e).session, greeted || hello,
                        if e.FromNode? && f.Some? && (hello || (Marks(f.value) && greeted)) then e.now else at)
  {
    if e.FromNode? {
      var t := Step(ing.parser, e.b);
      if t.frame.Some? {
        DispatchActivity(ing.(parser := t.parser), t.frame.value, e.now, greeted, at);
      }
    }
  }

  /** In every run, a session exists exactly once the device has said HELLO, and its activity time is when
      the last HELLO, HEARTBEAT or SAMPLE was completed by the bytes that arrived. */
  lemma {:induction false} ActivityIsLastHeard(sessionId: u16, events: seq<Event>)
    ensures ActiveSince(RunLink(NewLink(sessionId), events).server.session, Greeted(events), LastHeard(events))
  {
    if events != [] {
      var front, e := events[..|events| - 1], events[|events| - 1];
      var ing := RunLink(NewLink(sessionId), front).server;
      ActivityIsLastHeard(sessionId, front);
      ParserHears(sessionId, front);
      AfterServes(RunLink(NewLink(sessionId), front), e);
      ServeActivity(ing, e, Greeted(front), LastHeard(front));
      LastHeardStep(events);
    }
  }

  // ---- The device's own clock ----

  /** The uptime a device last told since its HELLO: that of the last HEARTBEAT or SAMPLE completed. */
  function UptimeTold(events: seq<Event>): nat
  {
    if events == [] then 0
    else
      var front := events[..|events| - 1];
      match Completed(events)
      case None => UptimeTold(front)
      case Some(f) =>
        if ParseHello(f).Some? then 0
        else if !Greeted(front) then UptimeTold(front)
        else if ParseHeartbeat(f).Some? then ParseHeartbeat(f).value.uptime
        else if ParseSample(f).Some? then ParseSample(f).value.timestamp
        else UptimeTold(front)
  }

  predicate UptimeIs(session: Option<Session>, uptime: nat)
  {
    session.Some? ==> session.value.lastUptime == uptime
  }

  lemma DispatchUptime(ing: Ingest, f: Frame, now: int, uptime: nat)
    requires UptimeIs(ing.session, uptime)
    ensures UptimeIs(Dispatch(ing, f, now).ingest.session,
                     if ParseHello(f).Some? then 0
                     else if ing.session.None? then uptime
                     else if ParseHeartbeat(f).Some? then ParseHeartbeat(f).value.uptime
                     else if ParseSample(f).Some? then ParseSample(f).value.timestamp
                     else uptime)
  {
  }

  /** In every run the uptime a session holds, which is what an OFFLINE alert for it will show, is the one the
      device told last. */
  lemma {:induction false} UptimeIsLastTold(sessionId: u16, events: seq<Event>)
    ensures UptimeIs(RunLink(NewLink(sessionId), events).server.session, UptimeTold(events))
  {
    if events != [] {
      var front, e := events[..|events| - 1], events[|events| - 1];
      var l := RunLink(NewLink(sessionId), front);
      UptimeIsLastTold(sessionId, front);
      ParserHears(sessionId, front);
      ActivityIsLastHeard(sessionId, front);
      AfterServes(l, e);
      if e.FromNode? {
        var t := Step(l.server.parser, e.b);
        if t.frame.Some? {
          DispatchUptime(l.server.(parser := t.parser), t.frame.value, e.now, UptimeTold(front));
        }
      }
    }
  }

  // ---- Silence ----

  /** The server's clock does not go back between reads. */
  predicate ClockForward(events: seq<Event>)
  {
    forall i, j :: 0 <= i < j < |events| && events[i].FromNode? && events[j].FromNode? ==> events[i].now <= events[j].now
  }

  /** The device said something that counts with the `k`-th event. */
  predicate SpeaksAt(events: seq<Event>, k: nat)
    requires k < |events|
  {
    events[k].FromNode? && Speaks(events[..k + 1])
  }

  lemma SpeaksAtIs(events: seq<Event>, k: nat)
    requires k < |events|
    ensures SpeaksAt(events, k) == CountsAt(e => Speaks(e), events, k)
  {
  }

  lemma CountsAtPrefix(counts: seq<Event> -> bool, events: seq<Event>, n: nat, k: nat)
    requires k < n <= |events|
    ensures CountsAt(counts, events[..n], k) == CountsAt(counts, events, k)
  {
    assert events[..n][..k + 1] == events[..k + 1];
  }

  lemma {:induction false} LastTimeIs(counts: seq<Event> -> bool, events: seq<Event>, i: nat) returns (k: nat)
    requires i < |events| && CountsAt(counts, events, i)
    ensures k < |events| && CountsAt(counts, events, k) && events[k].now == LastTime(counts, events)
    ensures forall j :: k < j < |events| ==> !CountsAt(counts, events, j)
  {
    var n := |events| - 1;
    if CountsAt(counts, events, n) {
      k := n;
    } else {
      CountsAtPrefix(counts, events, n, i);
      k := LastTimeIs(counts, events[..n], i);
      forall j | k <= j < n
        ensures CountsAt(counts, events, j) == CountsAt(counts, events[..n], j)
      {
        CountsAtPrefix(counts, events, n, j);
      }
    }
  }

  lemma GreetedStep(events: seq<Event>)
    requires Greeted(events)
    ensures Greeted(events[..|events| - 1]) || (events[|events| - 1].FromNode? && Speaks(events))
  {
  }

  lemma {:induction false} GreetedHasSpoken(counts: seq<Event> -> bool, events: seq<Event>) returns (k: nat)
    requires Greeted(events) && forall e :: Speaks(e) ==> counts(e)
    ensures k < |events| && CountsAt(counts, events, k)
  {
    GreetedStep(events);
    var n := |events| - 1;
    if Greeted(events[..n]) {
      k := GreetedHasSpoken(counts, events[..n]);
      CountsAtPrefix(counts, events, n, k);
    } else {
      k := n;
      assert events[..k + 1] == events;
    }
  }

  /** Somebody who has said HELLO has a last word. */
  lemma LastWord(events: seq<Event>) returns (k: nat)
    requires Greeted(events)
    ensures k < |events| && SpeaksAt(events, k) && events[k].now == LastHeard(events)
    ensures forall j :: k < j < |events| ==> !SpeaksAt(events, j)
  {
    var i := GreetedHasSpoken(e => Speaks(e), events);
    k := LastTimeIs(e => Speaks(e), events, i);
    forall j | 0 <= j < |events|
      ensures SpeaksAt(events, j) == CountsAt(e => Speaks(e), events, j)
    {
      SpeaksAtIs(events, j);
    }
  }

  /** A device is taken for silent exactly if it has said HELLO and everything it said that counts was
      completed more than the timeout ago. */
  lemma SilentExactly(sessionId: u16, events: seq<Event>, now: int, timeout: int)
    requires ClockForward(events)
    ensures var session := RunLink(NewLink(sessionId), events).server.session;
            (session.Some? && TimedOut(session.value, now, timeout))
            <==> Greeted(events) && forall k :: 0 <= k < |events| && SpeaksAt(events, k) ==> now - events[k].now > timeout
  {
    ActivityIsLastHeard(sessionId, events);
    if Greeted(events) {
      var k := LastWord(events);
      forall j | 0 <= j < |events| && SpeaksAt(events, j)
        ensures events[j].now <= events[k].now
      {
        assert j <= k;
      }
    }
  }

  /** What the sweep evicts, in terms of what the device sent. */
  lemma GoneExactly(conn: Connection.Conn, sessionId: u16, events: seq<Event>, now: int)
    requires ClockForward(events)
    ensures Gone(Device(conn, RunLink(NewLink(sessionId), events).server), now)
            <==> conn.closed
                 || (Greeted(events)
                     && forall k :: 0 <= k < |events| && SpeaksAt(events, k) ==> now - events[k].now > 6_000_000_000)
  {
    SilentExactly(sessionId, events, now, DEVICE_TIMEOUT);
  }

  // ---- A device that talks and is still evicted ----

  /** HELLO bytes at time 0, everything behind them at `later`. */
  function TwoTimes(first: nat, later: int): int -> int
  {
    i => if i < first then 0 else later
  }

  lemma UnmarkedFrameIsNotHeard(ing: Ingest, session: u16, f: Frame, clock: int -> int)
    requires Ready(ing, session) && Fits(f) && !Marks(f)
    ensures ReceiveAll(ing, FrameBytes(f), clock).ingest.session == ing.session
  {
    var p := ReceiveFrame(ing, f, clock);
  }

  lemma HelloThenUnmarked(sessionId: u16, h: Hello, hello: seq<byte>, f: Frame, clock: int -> int)
    requires Fits(f) && !Marks(f) && hello == FrameBytes(HelloFrame(0, 0, h))
    ensures var s := ReceiveAll(NewIngest(sessionId), hello + FrameBytes(f), clock).ingest.session;
            s.Some? && s.value.lastActivity == clock(|hello| - 1)
  {
    HelloArrives(sessionId, 0, 0, h, clock);
    ReceiveConcat(NewIngest(sessionId), hello, FrameBytes(f), clock);
    UnmarkedFrameIsNotHeard(ReceiveAll(NewIngest(sessionId), hello, clock).ingest, sessionId, f, Later(clock, |hello|));
  }

  lemma EmptyHeartbeat(f: Frame)
    requires f == Frame(HEARTBEAT, [])
    ensures Fits(f) && !Marks(f)
  {
  }

  /** A device that says HELLO and then, just before the sweep, sends a whole valid frame of another type
      or size (`EmptyHeartbeat` is one) is evicted as silent all the same. */
  lemma TalkingDeviceIsEvicted(sessionId: u16, h: Hello, f: Frame, conn: Connection.Conn)
    requires Fits(f) && !Marks(f)
    ensures var hello, later := FrameBytes(HelloFrame(0, 0, h)), DEVICE_TIMEOUT + 1;
            Gone(Device(conn, ReceiveAll(NewIngest(sessionId), hello + FrameBytes(f), TwoTimes(|hello|, later)).ingest), later)
  {
    var hello, later := FrameBytes(HelloFrame(0, 0, h)), DEVICE_TIMEOUT + 1;
    HelloThenUnmarked(sessionId, h, hello, f, TwoTimes(|hello|, later));
  }
}
