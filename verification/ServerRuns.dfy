/** The whole server: devices and dashboards come and go, bytes arrive, commands are executed and sweeps run, in
    any order. What the other modules ask of the store's callers holds of this one. */
module ServerRuns {
  import opened Bits
  import Connection
  import opened Dashboards
  import opened FrameEncoder
  import opened FrameParser
  import opened Housekeeping
  import Messages
  import opened RateProtocol
  import opened Sequences
  import opened StoreFanout
  import opened StoreModel
  import opened StoreRuns
  import opened Split
  import Text = TextStream
  import opened TextProtocol
  import Timers

  datatype Happening =
    | AcceptDevice(fd: int, id: u16)
    | AcceptDashboard(fd: int, sub: Subscriber, order: seq<u16>)
    | DeviceByte(fd: int, b: byte, now: int)
    | DeviceIo(fd: int, io: Connection.Op)
    | DashboardIo(fd: int, io: Connection.Op)
    | Acknowledged(session: u16, now: int)
    | SweepNow(dashboards: seq<int>, devices: seq<int>, at: int, elapsed: nat)

  function Start(now: int): Server
  {
    Server(map[], map[], EMPTY_STORE, Timers.AddTimer(Timers.Queue([], [], 0, now), now, INTERVAL))
  }

  /** Each dashboard's subscriber is an object of its own. */
  predicate IsSub(s: Server, sub: Subscriber)
  {
    exists fd :: fd in s.dashboards && s.dashboards[fd].sub == sub
  }

  /** What the kernel, the allocator and the hash maps see to: a new descriptor is not in use, a new subscriber
      is not a live one, walks visit everything once. On a device's connection only the server enqueues. */
  ghost predicate Possible(s: Server, h: Happening)
  {
    match h
    case AcceptDevice(fd, _) => fd !in s.devices && fd !in s.dashboards
    case AcceptDashboard(fd, sub, order) =>
      fd !in s.devices && fd !in s.dashboards && !IsSub(s, sub) && IsIteration(s.store, order)
    case DeviceIo(_, io) => !io.Enqueue?
    case SweepNow(dashboards, devices, _, _) => Visits(dashboards, s.dashboards) && Visits(devices, s.devices)
    case _ => true
  }

  /** A byte from a device: what the ingest answers goes out on the device's connection. */
  function DeviceHeard(d: Device, b: byte, now: int): Device
  {
    var r := Receive(d.ingest, b, now);
    var more := NewBytes(d.ingest, r.ingest);
    Device(if more == [] then d.conn else Connection.EnqueueWrite(d.conn, more), r.ingest)
  }

  function Happens(s: Server, h: Happening, line: LineOf): Server
  {
    match h
    case AcceptDevice(fd, id) => s.(devices := s.devices[fd := Device(Connection.NEW_CONN, NewIngest(id))])
    case AcceptDashboard(fd, sub, order) =>
      var store := AddSubscriber(s.store, sub, order);
      s.(store := store,
         dashboards := s.dashboards[fd := Dashboard(EnqueueLines(Connection.NEW_CONN, Log(store.inbox, sub), line), sub)])
    case DeviceByte(fd, b, now) =>
      if fd !in s.devices then s
      else
        var store := Run(s.store, Receive(s.devices[fd].ingest, b, now).ops);
        s.(devices := s.devices[fd := DeviceHeard(s.devices[fd], b, now)], store := store,
           dashboards := TellDashboards(s.dashboards, s.store, store, line))
    case DeviceIo(fd, io) =>
      if fd !in s.devices then s
      else s.(devices := s.devices[fd := s.devices[fd].(conn := Connection.Apply(s.devices[fd].conn, io))])
    case DashboardIo(fd, io) =>
      if fd !in s.dashboards then s
      else s.(dashboards := s.dashboards[fd := s.dashboards[fd].(conn := Connection.Apply(s.dashboards[fd].conn, io))])
    case Acknowledged(session, _) => s.(store := Ack(s.store, session))
    case SweepNow(dashboards, devices, now, elapsed) => Housekeep(s, dashboards, devices, now, elapsed, line)
  }

  /** What it asks of the store. */
  function Asks(s: Server, h: Happening): seq<Op>
  {
    match h
    case AcceptDashboard(_, sub, order) => [DoAddSubscriber(sub, order)]
    case DeviceByte(fd, b, now) => if fd in s.devices then Receive(s.devices[fd].ingest, b, now).ops else []
    case Acknowledged(session, now) => [DoAck(session, now)]
    case SweepNow(dashboards, devices, now, _) => Removals(s, dashboards) + Latches(s, devices, now)
    case _ => []
  }

  function RunServer(now: int, hs: seq<Happening>, line: LineOf): Server
  {
    if hs == [] then Start(now) else Happens(RunServer(now, hs[..|hs| - 1], line), hs[|hs| - 1], line)
  }

  function AllAsked(now: int, hs: seq<Happening>, line: LineOf): seq<Op>
  {
    if hs == [] then []
    else AllAsked(now, hs[..|hs| - 1], line) + Asks(RunServer(now, hs[..|hs| - 1], line), hs[|hs| - 1])
  }

  ghost predicate PossibleRun(now: int, hs: seq<Happening>, line: LineOf)
  {
    hs == [] ||
    (PossibleRun(now, hs[..|hs| - 1], line) && Possible(RunServer(now, hs[..|hs| - 1], line), hs[|hs| - 1]))
  }

  // ---- The store only sees what is asked of it ----

  lemma RunOne(s: Store, op: Op)
    ensures Run(s, [op]) == Apply(s, op)
  {
    assert [op][..0] == [];
  }

  lemma HappensAsks(s: Server, h: Happening, line: LineOf)
    requires Possible(s, h)
    ensures Happens(s, h, line).store == Run(s.store, Asks(s, h))
  {
    match h
    case AcceptDashboard(_, sub, order) => RunOne(s.store, DoAddSubscriber(sub, order));
    case Acknowledged(session, now) => RunOne(s.store, DoAck(session, now));
    case SweepNow(dashboards, devices, now, elapsed) =>
      SweepIsStoreRun(s, dashboards, devices, now, elapsed, line);
      RunConcat(s.store, Removals(s, dashboards), Latches(s, devices, now));
    case _ =>
  }

  /** In every run the server's store is a run of the store from empty. */
  lemma {:induction false} StoreIsRun(now: int, hs: seq<Happening>, line: LineOf)
    requires PossibleRun(now, hs, line)
    ensures RunServer(now, hs, line).store == Run(EMPTY_STORE, AllAsked(now, hs, line))
  {
    if hs != [] {
      var front, h := hs[..|hs| - 1], hs[|hs| - 1];
      StoreIsRun(now, front, line);
      HappensAsks(RunServer(now, front, line), h, line);
      RunConcat(EMPTY_STORE, AllAsked(now, front, line), Asks(RunServer(now, front, line), h));
    }
  }

  // ---- Subscribers are registered once ----

  ghost predicate Registered(s: Server)
  {
    && Distinct(s.store.subscribers)
    && (forall sub :: sub in s.store.subscribers <==> IsSub(s, sub))
    && (forall fd, fd' :: fd in s.dashboards && fd' in s.dashboards && s.dashboards[fd].sub == s.dashboards[fd'].sub ==> fd == fd')
  }

  lemma {:induction false} WithoutAllIs(subs: seq<Subscriber>, gone: set<Subscriber>)
    requires Distinct(subs)
    ensures Distinct(WithoutAll(subs, gone))
    ensures forall x :: x in WithoutAll(subs, gone) <==> x in subs && x !in gone
  {
    if subs != [] {
      var front, last := subs[..|subs| - 1], subs[|subs| - 1];
      DistinctLast(subs);
      SplitLast(subs);
      WithoutAllIs(front, gone);
      assert last !in WithoutAll(front, gone);
      assert forall x :: x in subs <==> x in front || x == last;
    }
  }

  lemma SweepKeepsRegistered(s: Server, r: Server)
    requires Registered(s)
    requires r.store.subscribers == WithoutAll(s.store.subscribers, ClosedSubs(s))
    requires forall fd :: fd in r.dashboards <==> fd in s.dashboards && !s.dashboards[fd].conn.closed
    requires forall fd :: fd in r.dashboards ==> r.dashboards[fd].sub == s.dashboards[fd].sub
    ensures Registered(r)
  {
    WithoutAllIs(s.store.subscribers, ClosedSubs(s));
    forall sub
      ensures sub in r.store.subscribers <==> IsSub(r, sub)
    {
      if IsSub(r, sub) {
        var fd :| fd in r.dashboards && r.dashboards[fd].sub == sub;
        assert s.dashboards[fd].sub == sub && IsSub(s, sub);
      }
      if sub in r.store.subscribers {
        assert IsSub(s, sub);
        var fd :| fd in s.dashboards && s.dashboards[fd].sub == sub;
        assert fd in r.dashboards;
      }
    }
  }

  /** The same dashboards with the same subscribers, and the same list. */
  lemma SameSubs(s: Server, r: Server)
    requires Registered(s) && r.store.subscribers == s.store.subscribers
    requires r.dashboards.Keys == s.dashboards.Keys
    requires forall fd :: fd in s.dashboards ==> r.dashboards[fd].sub == s.dashboards[fd].sub
    ensures Registered(r)
  {
    forall sub
      ensures IsSub(r, sub) <==> IsSub(s, sub)
    {
      if IsSub(r, sub) {
        var fd :| fd in r.dashboards && r.dashboards[fd].sub == sub;
        assert s.dashboards[fd].sub == sub;
      }
      if IsSub(s, sub) {
        var fd :| fd in s.dashboards && s.dashboards[fd].sub == sub;
        assert r.dashboards[fd].sub == sub;
      }
    }
  }

  lemma AcceptKeepsRegistered(s: Server, fd: int, sub: Subscriber, r: Server, conn: Connection.Conn)
    requires Registered(s) && fd !in s.dashboards && !IsSub(s, sub)
    requires r.store.subscribers == s.store.subscribers + [sub] && r.dashboards == s.dashboards[fd := Dashboard(conn, sub)]
    ensures Registered(r)
  {
    forall x
      ensures IsSub(r, x) <==> IsSub(s, x) || x == sub
    {
      if IsSub(r, x) {
        var g :| g in r.dashboards && r.dashboards[g].sub == x;
        assert g != fd ==> g in s.dashboards && s.dashboards[g].sub == x;
      }
      if IsSub(s, x) {
        var g :| g in s.dashboards && s.dashboards[g].sub == x;
        assert g in r.dashboards && r.dashboards[g].sub == x;
      }
      assert fd in r.dashboards && r.dashboards[fd].sub == sub;
    }
    assert sub !in s.store.subscribers;
    forall g, g' | g in r.dashboards && g' in r.dashboards && r.dashboards[g].sub == r.dashboards[g'].sub
      ensures g == g'
    {
      assert g != fd ==> IsSub(s, r.dashboards[g].sub);
      assert g' != fd ==> IsSub(s, r.dashboards[g'].sub);
    }
  }

  lemma {:induction false} RecordsKeepList(s: Store, ops: seq<Op>)
    requires forall i :: 0 <= i < |ops| ==> ops[i].DoRecord?
    ensures Run(s, ops).subscribers == s.subscribers
  {
    if ops != [] {
      RecordsKeepList(s, ops[..|ops| - 1]);
    }
  }

  lemma ReceiveRecords(ing: Ingest, b: byte, now: int)
    ensures forall i :: 0 <= i < |Receive(ing, b, now).ops| ==> Receive(ing, b, now).ops[i].DoRecord?
  {
  }

  lemma HappensKeepsRegistered(s: Server, h: Happening, line: LineOf)
    requires Registered(s) && Possible(s, h)
    ensures Registered(Happens(s, h, line))
  {
    var r := Happens(s, h, line);
    match h
    case AcceptDashboard(fd, sub, order) =>
      AcceptKeepsRegistered(s, fd, sub, r, r.dashboards[fd].conn);
    case SweepNow(dashboards, devices, now, elapsed) =>
      SweepComputes(s, dashboards, devices, now, elapsed, line);
      SweepKeepsRegistered(s, r);
    case DeviceByte(fd, b, now) =>
      if fd in s.devices {
        ReceiveRecords(s.devices[fd].ingest, b, now);
        RecordsKeepList(s.store, Receive(s.devices[fd].ingest, b, now).ops);
      }
      SameSubs(s, r);
    case _ => SameSubs(s, r);
  }

  lemma {:induction false} AlwaysRegistered(now: int, hs: seq<Happening>, line: LineOf)
    requires PossibleRun(now, hs, line)
    ensures Registered(RunServer(now, hs, line))
  {
    if hs != [] {
      AlwaysRegistered(now, hs[..|hs| - 1], line);
      HappensKeepsRegistered(RunServer(now, hs[..|hs| - 1], line), hs[|hs| - 1], line);
    }
  }

  // ---- So the callers' side of the store's contract holds ----

  predicate Quiet(ops: seq<Op>)
  {
    forall i :: 0 <= i < |ops| ==> !ops[i].DoAddSubscriber?
  }

  lemma {:induction false} QuietKeeps(a: seq<Op>, b: seq<Op>)
    requires RegistersOnce(a) && ReplaysWhole(a) && Quiet(b)
    ensures RegistersOnce(a + b) && ReplaysWhole(a + b)
  {
    if b == [] {
      assert a + b == a;
    } else {
      var front, op := b[..|b| - 1], b[|b| - 1];
      QuietKeeps(a, front);
      SplitLast(b);
      Assoc(a, front, [op]);
      OneMoreOp(a + front, op);
    }
  }

  lemma OneMoreOp(ops: seq<Op>, op: Op)
    requires RegistersOnce(ops) && ReplaysWhole(ops)
    requires op.DoAddSubscriber? ==> op.sub !in Run(EMPTY_STORE, ops).subscribers && IsIteration(Run(EMPTY_STORE, ops), op.order)
    ensures RegistersOnce(ops + [op]) && ReplaysWhole(ops + [op])
  {
    assert (ops + [op])[..|ops|] == ops;
  }

  lemma {:induction false} RemovalsAreQuiet(s: Server, order: seq<int>)
    ensures Quiet(Removals(s, order))
  {
    if order != [] {
      RemovalsAreQuiet(s, order[..|order| - 1]);
    }
  }

  lemma AsksQuietly(s: Server, h: Happening)
    requires !h.AcceptDashboard?
    ensures Quiet(Asks(s, h))
  {
    match h
    case DeviceByte(fd, b, now) =>
      if fd in s.devices {
        ReceiveRecords(s.devices[fd].ingest, b, now);
      }
    case SweepNow(dashboards, devices, now, _) =>
      RemovalsAreQuiet(s, dashboards);
      LatchesAreLatches(s, devices, now);
    case _ =>
  }

  /** The server registers a subscriber only while it is not registered, and every replay is whole. */
  lemma {:induction false} ServerRegistersOnce(now: int, hs: seq<Happening>, line: LineOf)
    requires PossibleRun(now, hs, line)
    ensures RegistersOnce(AllAsked(now, hs, line)) && ReplaysWhole(AllAsked(now, hs, line))
  {
    if hs != [] {
      var front, h := hs[..|hs| - 1], hs[|hs| - 1];
      var s, ops := RunServer(now, front, line), AllAsked(now, front, line);
      ServerRegistersOnce(now, front, line);
      if h.AcceptDashboard? {
        StoreIsRun(now, front, line);
        AlwaysRegistered(now, front, line);
        OneMoreOp(ops, DoAddSubscriber(h.sub, h.order));
      } else {
        AsksQuietly(s, h);
        QuietKeeps(ops, Asks(s, h));
      }
    }
  }

  /** In every run of the server, whatever devices send, dashboards command and the kernel answers: each connected
      dashboard has been told exactly once of each open alert, and with that alert's line. */
  lemma EveryDashboardToldOnce(now: int, hs: seq<Happening>, line: LineOf, fd: int, n: Notice)
    requires PossibleRun(now, hs, line)
    requires var s := RunServer(now, hs, line); fd in s.dashboards && IsOpen(s.store, n)
    ensures var s := RunServer(now, hs, line); EpisodeLines(Log(s.store.inbox, s.dashboards[fd].sub), n.episode) == [n]
  {
    var s := RunServer(now, hs, line);
    StoreIsRun(now, hs, line);
    ServerRegistersOnce(now, hs, line);
    AlwaysRegistered(now, hs, line);
    assert IsSub(s, s.dashboards[fd].sub);
    ExactlyOneLinePerOpenAlert(AllAsked(now, hs, line), s.dashboards[fd].sub, n);
  }

  // ---- What devices are sent ----

  /** What the connection has taken from the ingest is what the ingest has sent. */
  predicate OutputWhole(d: Device)
  {
    d.conn.sent + d.conn.writeBuffer == d.ingest.sent
  }

  predicate AllWhole(s: Server)
  {
    forall fd :: fd in s.devices ==> OutputWhole(s.devices[fd])
  }

  lemma EnqueueKeepsWhole(c: Connection.Conn, sent: seq<byte>, more: seq<byte>)
    requires c.sent + c.writeBuffer == sent
    ensures var c' := Connection.EnqueueWrite(c, more); c'.sent + c'.writeBuffer == sent + more
  {
    Assoc(c.sent, c.writeBuffer, more);
  }

  lemma IoKeepsWhole(c: Connection.Conn, io: Connection.Op)
    requires !io.Enqueue?
    ensures var c' := Connection.Apply(c, io); c'.sent + c'.writeBuffer == c.sent + c.writeBuffer
  {
    match io
    case Write(answers) => Connection.FlushConserves(c, answers);
    case Read(answers) => Connection.ReadLeavesWriting(c, answers);
    case Consume(_) =>
  }

  lemma SentGrows(ing: Ingest, b: byte, now: int)
    ensures Receive(ing, b, now).ingest.sent == ing.sent + NewBytes(ing, Receive(ing, b, now).ingest)
  {
  }

  lemma HeardKeepsWhole(d: Device, b: byte, now: int)
    requires OutputWhole(d)
    ensures OutputWhole(DeviceHeard(d, b, now))
  {
    SentGrows(d.ingest, b, now);
    var more := NewBytes(d.ingest, Receive(d.ingest, b, now).ingest);
    EnqueueKeepsWhole(d.conn, d.ingest.sent, more);
    assert d.ingest.sent + [] == d.ingest.sent;
  }

  lemma SlowedKeepsWhole(d: Device, congested: bool)
    requires OutputWhole(d)
    ensures OutputWhole(SlowedDown(d, congested))
  {
    if congested && d.ingest.session.Some? {
      var x := d.ingest.session.value;
      EnqueueKeepsWhole(d.conn, d.ingest.sent, FrameBytes(Messages.SlowDownFrame(Messages.SlowDown(x.id, Halved(x.rate)))));
    }
  }

  lemma HappensKeepsWhole(s: Server, h: Happening, line: LineOf)
    requires Possible(s, h) && AllWhole(s)
    ensures AllWhole(Happens(s, h, line))
  {
    match h
    case DeviceByte(fd, b, now) =>
      if fd in s.devices {
        HeardKeepsWhole(s.devices[fd], b, now);
      }
    case DeviceIo(fd, io) =>
      if fd in s.devices {
        IoKeepsWhole(s.devices[fd].conn, io);
      }
    case SweepNow(dashboards, devices, now, elapsed) =>
      SweepComputes(s, dashboards, devices, now, elapsed, line);
      forall fd | fd in Happens(s, h, line).devices
        ensures OutputWhole(Happens(s, h, line).devices[fd])
      {
        SlowedKeepsWhole(s.devices[fd], AnyCongested(s));
      }
    case _ =>
  }

  /** In every run, for every device: what its socket has taken, then what is still buffered, is every CONFIG and
      SLOW_DOWN frame the server has sent it, in order. */
  lemma {:induction false} DeviceOutputIsWhole(now: int, hs: seq<Happening>, line: LineOf, fd: int)
    requires PossibleRun(now, hs, line) && fd in RunServer(now, hs, line).devices
    ensures OutputWhole(RunServer(now, hs, line).devices[fd])
  {
    AllOutputWhole(now, hs, line);
  }

  lemma {:induction false} AllOutputWhole(now: int, hs: seq<Happening>, line: LineOf)
    requires PossibleRun(now, hs, line)
    ensures AllWhole(RunServer(now, hs, line))
  {
    if hs != [] {
      AllOutputWhole(now, hs[..|hs| - 1], line);
      HappensKeepsWhole(RunServer(now, hs[..|hs| - 1], line), hs[|hs| - 1], line);
    }
  }

  // ---- Everything fits the line protocol ----

  predicate UptimeFits(d: Device)
  {
    d.ingest.session.Some? ==> FitsU32(d.ingest.session.value.lastUptime)
  }

  predicate UptimesFit(s: Server)
  {
    forall fd :: fd in s.devices ==> UptimeFits(s.devices[fd])
  }

  predicate OpsFit(ops: seq<Op>)
  {
    forall i :: 0 <= i < |ops| ==> OpFits(ops[i])
  }

  lemma HeardFits(d: Device, b: byte, now: int)
    requires UptimeFits(d)
    ensures UptimeFits(DeviceHeard(d, b, now)) && OpsFit(Receive(d.ingest, b, now).ops)
  {
    var t := Step(d.ingest.parser, b);
    if t.frame.Some? {
      DispatchedFits(d.ingest.(parser := t.parser), t.frame.value, now);
    }
  }

  lemma {:induction false} LatchesFit(s: Server, order: seq<int>, now: int)
    requires UptimesFit(s)
    ensures OpsFit(Latches(s, order, now))
  {
    if order != [] {
      LatchesFit(s, order[..|order| - 1], now);
    }
  }

  lemma {:induction false} RemovalsFit(s: Server, order: seq<int>)
    ensures OpsFit(Removals(s, order))
  {
    if order != [] {
      RemovalsFit(s, order[..|order| - 1]);
    }
  }

  lemma HappensFits(s: Server, h: Happening, line: LineOf)
    requires Possible(s, h) && UptimesFit(s)
    ensures UptimesFit(Happens(s, h, line)) && OpsFit(Asks(s, h))
  {
    match h
    case DeviceByte(fd, b, now) =>
      if fd in s.devices {
        HeardFits(s.devices[fd], b, now);
      }
    case SweepNow(dashboards, devices, now, elapsed) =>
      RemovalsFit(s, dashboards);
      LatchesFit(s, devices, now);
      SweepComputes(s, dashboards, devices, now, elapsed, line);
      SlowedFit(s, Happens(s, h, line));
    case _ =>
  }

  lemma SlowedFit(s: Server, r: Server)
    requires UptimesFit(s) && forall fd :: fd in r.devices ==> fd in s.devices && r.devices[fd] == SlowedDown(s.devices[fd], AnyCongested(s))
    ensures UptimesFit(r)
  {
    forall fd | fd in r.devices
      ensures UptimeFits(r.devices[fd])
    {
      assert UptimeFits(s.devices[fd]);
    }
  }

  lemma {:induction false} AllFits(now: int, hs: seq<Happening>, line: LineOf)
    requires PossibleRun(now, hs, line)
    ensures UptimesFit(RunServer(now, hs, line)) && OpsFit(AllAsked(now, hs, line))
  {
    if hs != [] {
      AllFits(now, hs[..|hs| - 1], line);
      HappensFits(RunServer(now, hs[..|hs| - 1], line), hs[|hs| - 1], line);
    }
  }

  /** From a device's bytes to the operator's screen: in every run of the server everything it tells a dashboard
      fits the line protocol, and the client behind a connected dashboard has read exactly one alert item for
      each open alert, whatever commands it sends and however its bytes are cut. */
  lemma EveryOperatorSeesOnce(now: int, hs: seq<Happening>, line: LineOf, fd: int, n: Notice,
                              events: seq<Text.SubEvent>, chunks: seq<string>)
    requires PossibleRun(now, hs, line)
    requires var s := RunServer(now, hs, line);
             && fd in s.dashboards && IsOpen(s.store, n)
             && (LogFits(Log(s.store.inbox, s.dashboards[fd].sub)) ==> Connected(events, Log(s.store.inbox, s.dashboards[fd].sub)))
    requires Joined(chunks) == Text.OutText(Text.Run(events).emitted)
    ensures var s := RunServer(now, hs, line);
            var told, items := AlertNotices(Log(s.store.inbox, s.dashboards[fd].sub)), AlertItems(Text.ReceiveAll(chunks).out);
            && NoticeFits(n) && |items| == |told|
            && exists i :: 0 <= i < |told| && OnlyAt(told, i, n) && items[i] == Expected(n)
  {
    var s := RunServer(now, hs, line);
    StoreIsRun(now, hs, line);
    ServerRegistersOnce(now, hs, line);
    AlwaysRegistered(now, hs, line);
    AllFits(now, hs, line);
    RunFits(AllAsked(now, hs, line), s.dashboards[fd].sub);
    assert IsSub(s, s.dashboards[fd].sub);
    OperatorSeesEachAlertOnce(AllAsked(now, hs, line), s.dashboards[fd].sub, n, events, chunks);
  }
}
