/** The once-a-second sweep of server/main.cpp: drop closed subscribers, evict devices that closed or fell
    silent, latch an OFFLINE alert for each of them, slow the rest down while a subscriber is congested, and arm
    the timer for the next sweep. */
module Housekeeping {
  import opened Bits
  import opened Common
  import Connection
  import opened FrameEncoder
  import Messages
  import opened RateProtocol
  import opened Sequences
  import opened StoreFanout
  import opened StoreModel
  import StoreRuns
  import Timers

  /** Six seconds, in the nanoseconds of the server's clock. */
  const DEVICE_TIMEOUT: int := 6_000 * NANOS_PER_MILLI

  const INTERVAL: Positive := 1_000 * NANOS_PER_MILLI

  datatype Device = Device(conn: Connection.Conn, ingest: Ingest)
  datatype Dashboard = Dashboard(conn: Connection.Conn, sub: Subscriber)

  /** The two connection tables, keyed by file descriptor, the store they share, and the event loop's timers. */
  datatype Server = Server(devices: map<int, Device>, dashboards: map<int, Dashboard>, store: Store, timers: Timers.Queue)

  /** The bytes a subscriber writes to its connection when it is told something. */
  type LineOf = Notice -> seq<byte>

  predicate Gone(d: Device, now: int)
  {
    d.conn.closed || (d.ingest.session.Some? && TimedOut(d.ingest.session.value, now, DEVICE_TIMEOUT))
  }

  /** Each key of the table once, in the table's own order. */
  ghost predicate Visits<V>(order: seq<int>, table: map<int, V>)
  {
    && Distinct(order)
    && (forall fd :: fd in order <==> fd in table)
  }

  function TendDashboard(s: Server, fd: int): Server
    requires fd in s.dashboards
  {
    var d := s.dashboards[fd];
    if d.conn.closed then s.(dashboards := s.dashboards - {fd}, store := RemoveSubscriber(s.store, d.sub)) else s
  }

  function TendDashboards(s: Server, order: seq<int>): Server
  {
    if order == [] then s
    else
      var n := |order| - 1;
      var s' := TendDashboards(s, order[..n]);
      if order[n] in s'.dashboards then TendDashboard(s', order[n]) else s'
  }

  /** Whether a subscriber that is still connected has too much unsent. */
  predicate AnyCongested(s: Server)
  {
    exists fd :: fd in s.dashboards && !s.dashboards[fd].conn.closed && Connection.Congested(s.dashboards[fd].conn)
  }

  // ---- What the store tells goes out on the dashboards' connections ----

  /** What a step of the store told a subscriber. */
  function News(before: Store, after: Store, sub: Subscriber): seq<Notice>
  {
    var a, b := Log(before.inbox, sub), Log(after.inbox, sub);
    if |a| <= |b| then b[|a|..] else []
  }

  function EnqueueLines(c: Connection.Conn, news: seq<Notice>, line: LineOf): Connection.Conn
  {
    if news == [] then c
    else Connection.EnqueueWrite(EnqueueLines(c, news[..|news| - 1], line), line(news[|news| - 1]))
  }

  function Hears(d: Dashboard, before: Store, after: Store, line: LineOf): Dashboard
  {
    d.(conn := EnqueueLines(d.conn, News(before, after, d.sub), line))
  }

  function TellDashboards(dashboards: map<int, Dashboard>, before: Store, after: Store, line: LineOf): map<int, Dashboard>
  {
    map fd | fd in dashboards :: Hears(dashboards[fd], before, after, line)
  }

  // ---- The walk over the devices ----

  /** A device that stays: under congestion, once it has a session, it is told to halve its rate. */
  function SlowedDown(d: Device, congested: bool): Device
  {
    if congested && d.ingest.session.Some? then
      var x := d.ingest.session.value;
      Device(Connection.EnqueueWrite(d.conn, FrameBytes(Messages.SlowDownFrame(Messages.SlowDown(x.id, Halved(x.rate))))),
             Sweep(d.ingest, true))
    else d
  }

  /** The store after a device that goes: OFFLINE is latched if it had a session. */
  function Lost(store: Store, d: Device, now: int): Store
  {
    match d.ingest.session
    case None => store
    case Some(session) => LatchOffline(store, session.id, session.lastUptime, now)
  }

  function TendDevice(s: Server, fd: int, congested: bool, now: int, line: LineOf): Server
    requires fd in s.devices
  {
    var d := s.devices[fd];
    if Gone(d, now) then
      s.(devices := s.devices - {fd}, store := Lost(s.store, d, now),
         dashboards := TellDashboards(s.dashboards, s.store, Lost(s.store, d, now), line))
    else s.(devices := s.devices[fd := SlowedDown(d, congested)])
  }

  function TendDevices(s: Server, order: seq<int>, congested: bool, now: int, line: LineOf): Server
  {
    if order == [] then s
    else
      var n := |order| - 1;
      var s' := TendDevices(s, order[..n], congested, now, line);
      if order[n] in s'.devices then TendDevice(s', order[n], congested, now, line) else s'
  }

  /** A sweep that starts at `now` and arms the next one `elapsed` later. */
  function Housekeep(s: Server, dashboards: seq<int>, devices: seq<int>, now: int, elapsed: nat, line: LineOf): Server
  {
    var r := TendDevices(TendDashboards(s, dashboards), devices, AnyCongested(s), now, line);
    r.(timers := Timers.AddTimer(r.timers, now + elapsed, INTERVAL))
  }

  // ---- A sweep as a run of the store ----

  /** The subscribers a sweep takes off the store, in the order of the walk. */
  function Removals(s: Server, order: seq<int>): seq<Op>
  {
    if order == [] then []
    else
      var n := |order| - 1;
      var fd := order[n];
      Removals(s, order[..n])
      + if fd in s.dashboards && s.dashboards[fd].conn.closed then [DoRemoveSubscriber(s.dashboards[fd].sub)] else []
  }

  /** The OFFLINE alerts a sweep asks for, in the order of the walk. */
  function Latches(s: Server, order: seq<int>, now: int): seq<Op>
  {
    if order == [] then []
    else
      var n := |order| - 1;
      Latches(s, order[..n], now) + LatchFor(s, order[n], now)
  }

  function LatchFor(s: Server, fd: int, now: int): seq<Op>
  {
    if fd in s.devices && Gone(s.devices[fd], now) && s.devices[fd].ingest.session.Some? then
      var x := s.devices[fd].ingest.session.value;
      [DoLatchOffline(x.id, x.lastUptime, now)]
    else []
  }

  lemma VisitsAll<V>(order: seq<int>, table: map<int, V>)
    requires Visits(order, table)
    ensures forall j :: 0 <= j < |order| ==> order[j] in table
  {
    forall j | 0 <= j < |order|
      ensures order[j] in table
    {
      var fd := order[j];
      assert fd in order;
    }
  }

  ghost predicate DashboardsTended(s: Server, s': Server, done: set<int>)
  {
    && s'.devices == s.devices && s'.timers == s.timers
    && (forall fd :: fd in s'.dashboards <==> fd in s.dashboards && !(fd in done && s.dashboards[fd].conn.closed))
    && (forall fd :: fd in s'.dashboards ==> s'.dashboards[fd] == s.dashboards[fd])
  }

  function ToSet(order: seq<int>): set<int>
  {
    set fd | fd in order
  }

  lemma ToSetLast(order: seq<int>)
    requires order != [] && Distinct(order)
    ensures var n := |order| - 1; ToSet(order) == ToSet(order[..n]) + {order[n]} && order[n] !in ToSet(order[..n])
  {
    SplitLast(order);
  }

  lemma {:induction false} TendDashboardsRuns(s: Server, order: seq<int>)
    requires Distinct(order) && forall i :: 0 <= i < |order| ==> order[i] in s.dashboards
    ensures var s' := TendDashboards(s, order);
            DashboardsTended(s, s', ToSet(order)) && s'.store == Run(s.store, Removals(s, order))
  {
    if order != [] {
      var n := |order| - 1;
      TendDashboardsRuns(s, order[..n]);
      ToSetLast(order);
      var s1, d := TendDashboards(s, order[..n]), s.dashboards[order[n]];
      TendDashboardOnce(s, s1, ToSet(order[..n]), order[n]);
      if d.conn.closed {
        StoreRuns.RunLast(s.store, Removals(s, order[..n]), DoRemoveSubscriber(d.sub));
      } else {
        assert Removals(s, order) == Removals(s, order[..n]);
      }
    }
  }

  lemma TendDashboardOnce(s: Server, s1: Server, done: set<int>, fd: int)
    requires DashboardsTended(s, s1, done) && fd in s.dashboards && fd !in done
    ensures fd in s1.dashboards && DashboardsTended(s, TendDashboard(s1, fd), done + {fd})
    ensures TendDashboard(s1, fd).store
            == if s.dashboards[fd].conn.closed then RemoveSubscriber(s1.store, s.dashboards[fd].sub) else s1.store
  {
  }

  ghost predicate DevicesTended(s: Server, s': Server, done: set<int>, congested: bool, now: int)
  {
    && s'.timers == s.timers
    && (forall fd :: fd in s'.devices <==> fd in s.devices && !(fd in done && Gone(s.devices[fd], now)))
    && (forall fd :: fd in s'.devices ==>
          s'.devices[fd] == if fd in done then SlowedDown(s.devices[fd], congested) else s.devices[fd])
  }

  lemma TendDeviceOnce(s: Server, s1: Server, done: set<int>, fd: int, congested: bool, now: int, line: LineOf)
    requires DevicesTended(s, s1, done, congested, now) && fd in s.devices && fd !in done
    ensures fd in s1.devices && s1.devices[fd] == s.devices[fd]
    ensures DevicesTended(s, TendDevice(s1, fd, congested, now, line), done + {fd}, congested, now)
  {
  }

  /** The store of a table walk is a run, and the dashboards hear exactly what it tells. */
  ghost predicate Follows(s: Server, s': Server, ops: seq<Op>, line: LineOf)
  {
    s'.store == Run(s.store, ops) && s'.dashboards == TellDashboards(s.dashboards, s.store, s'.store, line)
  }

  lemma {:induction false} TendDevicesRuns(s: Server, order: seq<int>, congested: bool, now: int, line: LineOf)
    requires Distinct(order) && forall i :: 0 <= i < |order| ==> order[i] in s.devices
    ensures var s' := TendDevices(s, order, congested, now, line);
            DevicesTended(s, s', ToSet(order), congested, now) && Follows(s, s', Latches(s, order, now), line)
  {
    if order == [] {
      HearNothing(s.dashboards, s.store, line);
    } else {
      var n := |order| - 1;
      var s1, ops := TendDevices(s, order[..n], congested, now, line), Latches(s, order[..n], now);
      TendDevicesRuns(s, order[..n], congested, now, line);
      ToSetLast(order);
      TendDeviceOnce(s, s1, ToSet(order[..n]), order[n], congested, now, line);
      LatchForRuns(s, s1.store, ops, order[n], now);
      LatchesAreLatches(s, order[..n], now);
      FollowOn(s, s1, ops, order[n], congested, now, line);
    }
  }

  /** One more device. */
  lemma FollowOn(s: Server, s1: Server, ops: seq<Op>, fd: int, congested: bool, now: int, line: LineOf)
    requires Follows(s, s1, ops, line) && OnlyLatches(ops)
    requires fd in s.devices && fd in s1.devices && s1.devices[fd] == s.devices[fd]
    ensures Follows(s, TendDevice(s1, fd, congested, now, line), ops + LatchFor(s, fd, now), line)
  {
    var s2 := TendDevice(s1, fd, congested, now, line);
    LatchForRuns(s, s1.store, ops, fd, now);
    if Gone(s.devices[fd], now) {
      LogsGrow(s.store, ops);
      LogsGrow(s1.store, LatchFor(s, fd, now));
      LatchForRuns(s.(store := s1.store), s1.store, [], fd, now);
      assert [] + LatchFor(s, fd, now) == LatchFor(s, fd, now);
      assert LatchFor(s.(store := s1.store), fd, now) == LatchFor(s, fd, now);
      HearTwice(s.dashboards, s.store, s1.store, s2.store, line);
    }
  }

  ghost predicate OnlyLatches(ops: seq<Op>)
  {
    forall i :: 0 <= i < |ops| ==> ops[i].DoLatchOffline?
  }

  lemma {:induction false} LatchesAreLatches(s: Server, order: seq<int>, now: int)
    ensures OnlyLatches(Latches(s, order, now))
  {
    if order != [] {
      LatchesAreLatches(s, order[..|order| - 1], now);
    }
  }

  /** Latching only adds to what anybody was told. */
  lemma {:induction false} LogsGrow(s: Store, ops: seq<Op>)
    requires OnlyLatches(ops)
    ensures forall sub :: Log(s.inbox, sub) <= Log(Run(s, ops).inbox, sub)
  {
    if ops != [] {
      LogsGrow(s, ops[..|ops| - 1]);
      var s1, op := Run(s, ops[..|ops| - 1]), ops[|ops| - 1];
      forall sub
        ensures Log(s1.inbox, sub) <= Log(Apply(s1, op).inbox, sub)
      {
        NotifyTellsEachEntry(s1.inbox, s1.subscribers, OfflineNotice(op.session, op.timestamp, s1.latched), sub);
      }
    }
  }

  lemma HearNothing(dashboards: map<int, Dashboard>, s: Store, line: LineOf)
    ensures TellDashboards(dashboards, s, s, line) == dashboards
  {
    forall fd | fd in dashboards
      ensures Hears(dashboards[fd], s, s, line) == dashboards[fd]
    {
      assert News(s, s, dashboards[fd].sub) == [];
    }
  }

  lemma {:induction false} EnqueueLinesConcat(c: Connection.Conn, a: seq<Notice>, b: seq<Notice>, line: LineOf)
    ensures EnqueueLines(c, a + b, line) == EnqueueLines(EnqueueLines(c, a, line), b, line)
  {
    if b == [] {
      assert a + b == a;
    } else {
      assert (a + b)[..|a + b| - 1] == a + b[..|b| - 1];
      EnqueueLinesConcat(c, a, b[..|b| - 1], line);
    }
  }

  lemma NewsAddUp(a: Store, b: Store, c: Store, sub: Subscriber)
    requires Log(a.inbox, sub) <= Log(b.inbox, sub) <= Log(c.inbox, sub)
    ensures News(a, c, sub) == News(a, b, sub) + News(b, c, sub)
  {
  }

  lemma HearTwice(dashboards: map<int, Dashboard>, a: Store, b: Store, c: Store, line: LineOf)
    requires forall sub :: Log(a.inbox, sub) <= Log(b.inbox, sub)
    requires forall sub :: Log(b.inbox, sub) <= Log(c.inbox, sub)
    ensures TellDashboards(TellDashboards(dashboards, a, b, line), b, c, line) == TellDashboards(dashboards, a, c, line)
  {
    forall fd | fd in dashboards
      ensures Hears(Hears(dashboards[fd], a, b, line), b, c, line) == Hears(dashboards[fd], a, c, line)
    {
      var d := dashboards[fd];
      NewsAddUp(a, b, c, d.sub);
      EnqueueLinesConcat(d.conn, News(a, b, d.sub), News(b, c, d.sub), line);
    }
  }

  lemma LatchForRuns(s: Server, store: Store, ops: seq<Op>, fd: int, now: int)
    requires fd in s.devices && store == Run(s.store, ops)
    ensures var d := s.devices[fd];
            Run(s.store, ops + LatchFor(s, fd, now)) == if Gone(d, now) then Lost(store, d, now) else store
  {
    var more := LatchFor(s, fd, now);
    if more == [] {
      assert ops + more == ops;
    } else {
      StoreRuns.RunLast(s.store, ops, more[0]);
    }
  }

  // ---- What those runs do ----

  predicate OfflineOpen(s: Store, session: u16)
  {
    AlertsAt(s, session).offline.active
  }

  /** Some operation of the list latches for this session. */
  predicate Asked(ops: seq<Op>, session: u16)
  {
    exists i :: 0 <= i < |ops| && ops[i].DoLatchOffline? && ops[i].session == session
  }

  /** The record a latch operation leaves. */
  predicate LatchedBy(a: Alert, op: Op)
  {
    op.DoLatchOffline? && a == Alert(true, 0, op.timestamp, op.now, a.episode)
  }

  lemma LatchStep(s: Store, op: Op, session: u16)
    requires op.DoLatchOffline?
    ensures var s' := Apply(s, op);
            var a, b := AlertsAt(s, session), AlertsAt(s', session);
            && s'.history == s.history && s'.subscribers == s.subscribers && b.excursion == a.excursion
            && if op.session == session && !a.offline.active then LatchedBy(b.offline, op) else b.offline == a.offline
  {
  }

  /** A run of latches opens exactly the alerts asked for, and leaves those already open, and all
      others, as they were. */
  lemma {:induction false} LatchRun(s: Store, ops: seq<Op>, session: u16)
    requires forall i :: 0 <= i < |ops| ==> ops[i].DoLatchOffline?
    ensures var s' := Run(s, ops);
            var a, b := AlertsAt(s, session), AlertsAt(s', session);
            && s'.history == s.history && s'.subscribers == s.subscribers && b.excursion == a.excursion
            && if Asked(ops, session) && !a.offline.active
               then exists i :: 0 <= i < |ops| && ops[i].session == session && LatchedBy(b.offline, ops[i])
               else b.offline == a.offline
  {
    if ops != [] {
      var n := |ops| - 1;
      var front := ops[..n];
      LatchRun(s, front, session);
      LatchStep(Run(s, front), ops[n], session);
      assert forall i :: 0 <= i < n ==> front[i] == ops[i];
      if Asked(ops, session) && !AlertsAt(s, session).offline.active {
        var i :| 0 <= i < |ops| && ops[i].DoLatchOffline? && ops[i].session == session;
        if i < n {
          assert front[i].DoLatchOffline? && front[i].session == session;
        }
        if Asked(front, session) {
          var k :| 0 <= k < |front| && front[k].session == session && LatchedBy(AlertsAt(Run(s, front), session).offline, front[k]);
          assert LatchedBy(AlertsAt(Run(s, ops), session).offline, ops[k]);
        } else {
          assert LatchedBy(AlertsAt(Run(s, ops), session).offline, ops[n]);
        }
      }
    }
  }

  /** Drop every subscriber of a set. */
  function WithoutAll(subs: seq<Subscriber>, gone: set<Subscriber>): seq<Subscriber>
  {
    if subs == [] then []
    else
      var n := |subs| - 1;
      WithoutAll(subs[..n], gone) + if subs[n] in gone then [] else [subs[n]]
  }

  lemma {:induction false} WithoutNone(subs: seq<Subscriber>)
    ensures WithoutAll(subs, {}) == subs
  {
    if subs != [] {
      WithoutNone(subs[..|subs| - 1]);
      SplitLast(subs);
    }
  }

  lemma WithoutLast(subs: seq<Subscriber>, x: Subscriber, sub: Subscriber)
    ensures Without(subs + [x], sub) == Without(subs, sub) + if x == sub then [] else [x]
  {
    assert (subs + [x])[..|subs|] == subs;
  }

  lemma {:induction false} WithoutOneMore(subs: seq<Subscriber>, gone: set<Subscriber>, sub: Subscriber)
    ensures Without(WithoutAll(subs, gone), sub) == WithoutAll(subs, gone + {sub})
  {
    if subs != [] {
      var n := |subs| - 1;
      WithoutOneMore(subs[..n], gone, sub);
      if subs[n] !in gone {
        WithoutLast(WithoutAll(subs[..n], gone), subs[n], sub);
      } else {
        assert WithoutAll(subs, gone) == WithoutAll(subs[..n], gone);
      }
    }
  }

  function Removed(ops: seq<Op>): set<Subscriber>
  {
    set i | 0 <= i < |ops| && ops[i].DoRemoveSubscriber? :: ops[i].sub
  }

  /** A run of removals only takes subscribers off the list, keeping the order of the others. */
  lemma {:induction false} RemovalRun(s: Store, ops: seq<Op>)
    requires forall i :: 0 <= i < |ops| ==> ops[i].DoRemoveSubscriber?
    ensures Run(s, ops) == s.(subscribers := WithoutAll(s.subscribers, Removed(ops)))
  {
    if ops == [] {
      WithoutNone(s.subscribers);
      assert Removed(ops) == {};
    } else {
      var n := |ops| - 1;
      RemovalRun(s, ops[..n]);
      WithoutOneMore(s.subscribers, Removed(ops[..n]), ops[n].sub);
      assert Removed(ops) == Removed(ops[..n]) + {ops[n].sub};
    }
  }

  // ---- What a sweep achieves ----

  /** A device that goes had this session. */
  predicate Loses(s: Server, now: int, session: u16)
  {
    exists fd :: fd in s.devices && HadSession(s.devices[fd], now, session)
  }

  predicate HadSession(d: Device, now: int, session: u16)
  {
    Gone(d, now) && d.ingest.session.Some? && d.ingest.session.value.id == session
  }

  function ClosedSubs(s: Server): set<Subscriber>
  {
    set fd | fd in s.dashboards && s.dashboards[fd].conn.closed :: s.dashboards[fd].sub
  }

  lemma {:induction false} RemovalsAre(s: Server, order: seq<int>)
    requires forall i :: 0 <= i < |order| ==> order[i] in s.dashboards
    ensures var ops := Removals(s, order);
            && (forall i :: 0 <= i < |ops| ==> ops[i].DoRemoveSubscriber?)
            && Removed(ops) == set fd | fd in order && fd in s.dashboards && s.dashboards[fd].conn.closed :: s.dashboards[fd].sub
  {
    if order != [] {
      var n := |order| - 1;
      RemovalsAre(s, order[..n]);
      SplitLast(order);
      var before, fd := Removals(s, order[..n]), order[n];
      if s.dashboards[fd].conn.closed {
        RemovedAppend(before, s.dashboards[fd].sub);
      } else {
        assert Removals(s, order) == before;
      }
    }
  }

  lemma RemovedAppend(ops: seq<Op>, sub: Subscriber)
    ensures Removed(ops + [DoRemoveSubscriber(sub)]) == Removed(ops) + {sub}
  {
    var more := ops + [DoRemoveSubscriber(sub)];
    assert more[|ops|] == DoRemoveSubscriber(sub);
    assert forall i :: 0 <= i < |ops| ==> more[i] == ops[i];
  }

  /** The operation is the latch of some device of the walk. */
  predicate Caused(s: Server, order: seq<int>, now: int, op: Op)
  {
    exists fd :: fd in order && Causes(s, fd, now, op)
  }

  predicate Causes(s: Server, fd: int, now: int, op: Op)
  {
    fd in s.devices && LatchFor(s, fd, now) == [op]
  }

  lemma {:induction false} LatchesAre(s: Server, order: seq<int>, now: int, op: Op)
    ensures op in Latches(s, order, now) <==> Caused(s, order, now, op)
  {
    if order != [] {
      var front, fd := order[..|order| - 1], order[|order| - 1];
      LatchesAre(s, front, now, op);
      SplitLast(order);
      assert op in LatchFor(s, fd, now) <==> Causes(s, fd, now, op);
      assert forall x :: x in order <==> x in front || x == fd;
    }
  }

  lemma AskedExactly(s: Server, order: seq<int>, now: int, session: u16)
    requires Visits(order, s.devices)
    ensures Asked(Latches(s, order, now), session) <==> Loses(s, now, session)
  {
    var ops := Latches(s, order, now);
    if Loses(s, now, session) {
      var fd :| fd in s.devices && HadSession(s.devices[fd], now, session);
      var op := LatchFor(s, fd, now)[0];
      assert fd in order && Causes(s, fd, now, op);
      LatchesAre(s, order, now, op);
    }
    if Asked(ops, session) {
      var i :| 0 <= i < |ops| && ops[i].DoLatchOffline? && ops[i].session == session;
      LatchesAre(s, order, now, ops[i]);
      var fd :| fd in order && Causes(s, fd, now, ops[i]);
      assert HadSession(s.devices[fd], now, session);
    }
  }

  /** The alert is the one latched for the device's last known uptime, at this sweep. */
  predicate OfflineSince(a: Alert, d: Device, now: int)
  {
    d.ingest.session.Some? && a == Alert(true, 0, d.ingest.session.value.lastUptime, now, a.episode)
  }

  /** How a sweep leaves one session's alerts. */
  ghost predicate AlertsSwept(s: Server, r: Store, now: int, session: u16)
  {
    var a, b := AlertsAt(s.store, session), AlertsAt(r, session);
    && b.excursion == a.excursion
    && (OfflineOpen(r, session) <==> OfflineOpen(s.store, session) || Loses(s, now, session))
    && (OfflineOpen(s.store, session) || !Loses(s, now, session) ==> b.offline == a.offline)
    && (!OfflineOpen(s.store, session) && Loses(s, now, session) ==>
          exists fd :: fd in s.devices && HadSession(s.devices[fd], now, session) && OfflineSince(b.offline, s.devices[fd], now))
  }

  lemma LatchesSweepAlerts(s: Server, order: seq<int>, now: int, session: u16)
    requires Visits(order, s.devices)
    ensures var r := Run(s.store, Latches(s, order, now));
            AlertsSwept(s, r, now, session) && r.history == s.store.history && r.subscribers == s.store.subscribers
  {
    var ops := Latches(s, order, now);
    forall i | 0 <= i < |ops|
      ensures ops[i].DoLatchOffline?
    {
      LatchesAre(s, order, now, ops[i]);
      var fd :| fd in order && Causes(s, fd, now, ops[i]);
    }
    LatchRun(s.store, ops, session);
    AskedExactly(s, order, now, session);
    var b := AlertsAt(Run(s.store, ops), session).offline;
    if Loses(s, now, session) && !OfflineOpen(s.store, session) {
      var i :| 0 <= i < |ops| && ops[i].session == session && LatchedBy(b, ops[i]);
      LatchesAre(s, order, now, ops[i]);
      var fd :| fd in order && Causes(s, fd, now, ops[i]);
      assert HadSession(s.devices[fd], now, session) && OfflineSince(b, s.devices[fd], now);
    }
  }

  /** A sweep is a run of the store, so every property of the store's runs survives it. */
  lemma SweepIsStoreRun(s: Server, dashboards: seq<int>, devices: seq<int>, now: int, elapsed: nat, line: LineOf)
    requires Visits(dashboards, s.dashboards) && Visits(devices, s.devices)
    ensures Housekeep(s, dashboards, devices, now, elapsed, line).store
            == Run(Run(s.store, Removals(s, dashboards)), Latches(s, devices, now))
  {
    var s1 := TendDashboards(s, dashboards);
    VisitsAll(dashboards, s.dashboards);
    VisitsAll(devices, s.devices);
    TendDashboardsRuns(s, dashboards);
    TendDevicesRuns(s1, devices, AnyCongested(s), now, line);
    LatchesIgnoreStore(s, s1, devices, now);
  }

  lemma {:induction false} LatchesIgnoreStore(s: Server, s': Server, order: seq<int>, now: int)
    requires s'.devices == s.devices
    ensures Latches(s', order, now) == Latches(s, order, now)
  {
    if order != [] {
      LatchesIgnoreStore(s, s', order[..|order| - 1], now);
    }
  }

  // What a sweep does to one connection, written out.

  /** A dashboard that is still connected has 65536 bytes or more unsent. */
  predicate Backlog(s: Server)
  {
    exists fd :: fd in s.dashboards && !s.dashboards[fd].conn.closed && |s.dashboards[fd].conn.writeBuffer| >= 65536
  }

  /** The connection has `more` behind its output, and watches for room to send it. */
  predicate HasMore(c: Connection.Conn, c': Connection.Conn, more: seq<byte>)
  {
    && c'.sent == c.sent && c'.writeBuffer == c.writeBuffer + more
    && c'.readBuffer == c.readBuffer && c'.closed == c.closed
    && c'.watchOut && (c'.watchIn <==> |c'.writeBuffer| < 65536)
  }

  /** `f` is sent to the device, as its ingest and its connection see it. */
  predicate SentFrame(d: Device, d': Device, f: Frame)
  {
    Fits(f) && d'.ingest.sent == d.ingest.sent + FrameBytes(f) && HasMore(d.conn, d'.conn, FrameBytes(f))
  }

  /** The session is told to go at `rate`, and does so on the server's side. */
  ghost predicate ToldToGo(d: Device, d': Device, rate: byte)
    requires d.ingest.session.Some?
  {
    var x := d.ingest.session.value;
    && d'.ingest == d.ingest.(session := Some(x.(rate := rate)), sent := d'.ingest.sent)
    && exists f :: SentFrame(d, d', f) && Messages.ParseSlowDown(f) == Some(Messages.SlowDown(x.id, rate))
  }

  /** What a sweep does to a device that stays. */
  ghost predicate DeviceSwept(d: Device, d': Device, backlog: bool)
  {
    if backlog && d.ingest.session.Some? then
      ToldToGo(d, d', if d.ingest.session.value.rate < 2 then 1 else d.ingest.session.value.rate / 2)
    else d' == d
  }

  /** The lines of what a subscriber was told, in order. */
  function LinesOf(news: seq<Notice>, line: LineOf): seq<byte>
  {
    if news == [] then [] else LinesOf(news[..|news| - 1], line) + line(news[|news| - 1])
  }

  /** What a sweep does to a dashboard that stays: its subscriber has heard `news`, and its connection has the
      lines of it. */
  ghost predicate DashboardSwept(s: Server, r: Server, fd: int, line: LineOf)
    requires fd in s.dashboards && fd in r.dashboards
  {
    var d, d' := s.dashboards[fd], r.dashboards[fd];
    && d'.sub == d.sub
    && exists news :: LinesAdded(s.store, r.store, d, d', news, line)
  }

  predicate LinesAdded(before: Store, after: Store, d: Dashboard, d': Dashboard, news: seq<Notice>, line: LineOf)
  {
    && Log(after.inbox, d.sub) == Log(before.inbox, d.sub) + news
    && if news == [] then d' == d else HasMore(d.conn, d'.conn, LinesOf(news, line))
  }

  lemma SlowedDownSweeps(d: Device, congested: bool)
    ensures DeviceSwept(d, SlowedDown(d, congested), congested)
  {
    if congested && d.ingest.session.Some? {
      var x := d.ingest.session.value;
      var m := Messages.SlowDown(x.id, Halved(x.rate));
      Messages.SlowDownRoundTrip(m);
      assert SentFrame(d, SlowedDown(d, congested), Messages.SlowDownFrame(m));
    }
  }

  lemma {:induction false} EnqueueLinesAre(c: Connection.Conn, news: seq<Notice>, line: LineOf)
    requires news != []
    ensures HasMore(c, EnqueueLines(c, news, line), LinesOf(news, line))
  {
    var front, last := news[..|news| - 1], news[|news| - 1];
    if front == [] {
      assert [] + line(last) == line(last);
    } else {
      EnqueueLinesAre(c, front, line);
      Assoc(c.writeBuffer, LinesOf(front, line), line(last));
    }
  }

  lemma HearsSweeps(d: Dashboard, before: Store, after: Store, line: LineOf)
    requires Log(before.inbox, d.sub) <= Log(after.inbox, d.sub)
    ensures LinesAdded(before, after, d, Hears(d, before, after, line), News(before, after, d.sub), line)
  {
    var news := News(before, after, d.sub);
    if news != [] {
      EnqueueLinesAre(d.conn, news, line);
    }
  }

  lemma BacklogIsCongestion(s: Server)
    ensures Backlog(s) <==> AnyCongested(s)
  {
  }

  /** A sweep, in whatever order the tables are walked: exactly the devices that closed or fell silent are
      gone; every other device with a session is told to go at half its rate, but at least 1, exactly if a
      connected dashboard has a backlog; exactly the closed dashboards leave, and with them their entries in
      the store's list, and the others get the lines of what the store told them; an OFFLINE alert is open
      afterwards exactly if it was before or a device that goes had that session, and then it tells of that
      device; no other alert and no history changes; the next sweep is due in a second. */
  lemma SweepOutcome(s: Server, dashboards: seq<int>, devices: seq<int>, now: int, elapsed: nat, line: LineOf)
    requires Visits(dashboards, s.dashboards) && Visits(devices, s.devices)
    ensures var r := Housekeep(s, dashboards, devices, now, elapsed, line);
            && (forall fd :: fd in r.devices <==> fd in s.devices && !Gone(s.devices[fd], now))
            && (forall fd :: fd in r.devices ==> DeviceSwept(s.devices[fd], r.devices[fd], Backlog(s)))
            && (forall fd :: fd in r.dashboards <==> fd in s.dashboards && !s.dashboards[fd].conn.closed)
            && (forall fd :: fd in r.dashboards ==> DashboardSwept(s, r, fd, line))
            && r.timers == s.timers.(pending := s.timers.pending + [Timers.Timer(s.timers.nextId, now + elapsed + 1_000_000_000)],
                                     nextId := s.timers.nextId + 1)
            && r.store.subscribers == WithoutAll(s.store.subscribers, ClosedSubs(s))
            && r.store.history == s.store.history
            && (forall session :: AlertsSwept(s, r.store, now, session))
  {
    var r := Housekeep(s, dashboards, devices, now, elapsed, line);
    SweepComputes(s, dashboards, devices, now, elapsed, line);
    BacklogIsCongestion(s);
    forall fd | fd in r.devices
      ensures DeviceSwept(s.devices[fd], r.devices[fd], Backlog(s))
    {
      SlowedDownSweeps(s.devices[fd], AnyCongested(s));
    }
    SweptLogsGrow(s, dashboards, devices, now, r.store);
    forall fd | fd in r.dashboards
      ensures DashboardSwept(s, r, fd, line)
    {
      HearsSweeps(s.dashboards[fd], s.store, r.store, line);
    }
  }

  lemma SweptLogsGrow(s: Server, dashboards: seq<int>, devices: seq<int>, now: int, r: Store)
    requires Visits(dashboards, s.dashboards)
    requires r == Run(Run(s.store, Removals(s, dashboards)), Latches(s, devices, now))
    ensures forall sub :: Log(s.store.inbox, sub) <= Log(r.inbox, sub)
  {
    SubscribersSwept(s, dashboards, Run(s.store, Removals(s, dashboards)));
    LatchesAreLatches(s, devices, now);
    LogsGrow(Run(s.store, Removals(s, dashboards)), Latches(s, devices, now));
  }

  /** The same through the functions that compute it. */
  lemma SweepComputes(s: Server, dashboards: seq<int>, devices: seq<int>, now: int, elapsed: nat, line: LineOf)
    requires Visits(dashboards, s.dashboards) && Visits(devices, s.devices)
    ensures var r := Housekeep(s, dashboards, devices, now, elapsed, line);
            && (forall fd :: fd in r.devices <==> fd in s.devices && !Gone(s.devices[fd], now))
            && (forall fd :: fd in r.devices ==> r.devices[fd] == SlowedDown(s.devices[fd], AnyCongested(s)))
            && (forall fd :: fd in r.dashboards <==> fd in s.dashboards && !s.dashboards[fd].conn.closed)
            && (forall fd :: fd in r.dashboards ==> r.dashboards[fd] == Hears(s.dashboards[fd], s.store, r.store, line))
            && r.timers == Timers.AddTimer(s.timers, now + elapsed, INTERVAL)
            && r.store == Run(Run(s.store, Removals(s, dashboards)), Latches(s, devices, now))
            && r.store.subscribers == WithoutAll(s.store.subscribers, ClosedSubs(s))
            && r.store.history == s.store.history
            && (forall session :: AlertsSwept(s, r.store, now, session))
  {
    var s1, r := TendDashboards(s, dashboards), Housekeep(s, dashboards, devices, now, elapsed, line);
    VisitsAll(dashboards, s.dashboards);
    VisitsAll(devices, s.devices);
    TendDashboardsRuns(s, dashboards);
    TendDevicesRuns(s1, devices, AnyCongested(s), now, line);
    SubscribersSwept(s, dashboards, s1.store);
    SweepIsStoreRun(s, dashboards, devices, now, elapsed, line);
    DevicesSwept(s, s1, r, devices, AnyCongested(s), now);
    DashboardsSwept(s, s1, r, dashboards, line);
    StoreSwept(s, s1, devices, now, r.store);
  }

  /** The next sweep has been run by a call of the event loop at `at` exactly if that is a second or more after it
      was armed. */
  lemma NextSweepInASecond(s: Server, dashboards: seq<int>, devices: seq<int>, now: int, elapsed: nat, line: LineOf,
                           ops: seq<Timers.Op>, at: int, callbacks: Timers.Callbacks)
    requires Visits(dashboards, s.dashboards) && Visits(devices, s.devices)
    requires Timers.Inv(s.timers) && s.timers.clock <= now + elapsed
    requires Timers.Monotone(s.timers.clock, ops + [Timers.Fire(at, callbacks)])
    ensures var r := Housekeep(s, dashboards, devices, now, elapsed, line).timers;
            Timers.HasFired(Timers.RunFrom(r, ops + [Timers.Fire(at, callbacks)]), s.timers.nextId)
            <==> at - (now + elapsed) >= 1_000_000_000
  {
    SweepComputes(s, dashboards, devices, now, elapsed, line);
    NextFiresInASecond(s.timers, now + elapsed, Timers.AddTimer(s.timers, now + elapsed, INTERVAL), ops, at, callbacks);
  }

  lemma NextFiresInASecond(q: Timers.Queue, now: int, r: Timers.Queue, ops: seq<Timers.Op>, at: int, callbacks: Timers.Callbacks)
    requires Timers.Inv(q) && q.clock <= now && r == Timers.AddTimer(q, now, INTERVAL)
    requires Timers.Monotone(q.clock, ops + [Timers.Fire(at, callbacks)])
    ensures Timers.HasFired(Timers.RunFrom(r, ops + [Timers.Fire(at, callbacks)]), q.nextId) <==> at - now >= 1_000_000_000
  {
    Timers.AddKeepsInv(q, now, INTERVAL);
    var t := Timers.Timer(q.nextId, now + 1_000_000_000);
    assert r.pending[|q.pending|] == t;
    Timers.PendingFiresExactly(r, t, ops, at, callbacks);
  }

  lemma SubscribersSwept(s: Server, dashboards: seq<int>, r: Store)
    requires Visits(dashboards, s.dashboards) && r == Run(s.store, Removals(s, dashboards))
    ensures r == s.store.(subscribers := WithoutAll(s.store.subscribers, ClosedSubs(s)))
  {
    VisitsAll(dashboards, s.dashboards);
    RemovalsAre(s, dashboards);
    RemovalRun(s.store, Removals(s, dashboards));
    assert Removed(Removals(s, dashboards)) == ClosedSubs(s);
  }

  lemma DevicesSwept(s: Server, s1: Server, r: Server, devices: seq<int>, congested: bool, now: int)
    requires s1.devices == s.devices && Visits(devices, s.devices)
    requires DevicesTended(s1, r.(timers := s1.timers), ToSet(devices), congested, now)
    ensures forall fd :: fd in r.devices <==> fd in s.devices && !Gone(s.devices[fd], now)
    ensures forall fd :: fd in r.devices ==> r.devices[fd] == SlowedDown(s.devices[fd], congested)
  {
  }

  lemma DashboardsSwept(s: Server, s1: Server, r: Server, dashboards: seq<int>, line: LineOf)
    requires Visits(dashboards, s.dashboards) && DashboardsTended(s, s1, ToSet(dashboards))
    requires s1.store.inbox == s.store.inbox && r.dashboards == TellDashboards(s1.dashboards, s1.store, r.store, line)
    ensures forall fd :: fd in r.dashboards <==> fd in s.dashboards && !s.dashboards[fd].conn.closed
    ensures forall fd :: fd in r.dashboards ==> r.dashboards[fd] == Hears(s.dashboards[fd], s.store, r.store, line)
  {
    forall fd | fd in r.dashboards
      ensures r.dashboards[fd] == Hears(s.dashboards[fd], s.store, r.store, line)
    {
      assert News(s1.store, r.store, s.dashboards[fd].sub) == News(s.store, r.store, s.dashboards[fd].sub);
    }
  }

  lemma StoreSwept(s: Server, s1: Server, devices: seq<int>, now: int, r: Store)
    requires s1.devices == s.devices && Visits(devices, s.devices) && r == Run(s1.store, Latches(s1, devices, now))
    requires s1.store == s.store.(subscribers := s1.store.subscribers)
    ensures r.history == s.store.history && r.subscribers == s1.store.subscribers
    ensures forall session :: AlertsSwept(s, r, now, session)
  {
    LatchesSweepAlerts(s1, devices, now, 0);
    forall session
      ensures AlertsSwept(s, r, now, session)
    {
      LatchesSweepAlerts(s1, devices, now, session);
      AlertsSweptFrom(s, s1, r, now, session);
    }
  }

  lemma AlertsSweptFrom(s: Server, s': Server, r: Store, now: int, session: u16)
    requires s'.devices == s.devices && s'.store.alerts == s.store.alerts && AlertsSwept(s', r, now, session)
    ensures AlertsSwept(s, r, now, session)
  {
  }

  // ---- The loops ----

  class Housekeeper {
    var devices: map<int, Device>
    var dashboards: map<int, Dashboard>
    var store: Store
    var timers: Timers.Queue

    function Value(): Server
      reads this
    {
      Server(devices, dashboards, store, timers)
    }

    method SweepDashboards(order: seq<int>) returns (congested: bool)
      requires Visits(order, dashboards)
      modifies this`dashboards, this`store
      ensures Value() == TendDashboards(old(Value()), order)
      ensures congested == AnyCongested(old(Value()))
    {
      ghost var start := Value();
      congested := false;
      VisitsAll(order, dashboards);
      for i := 0 to |order|
        invariant Value() == TendDashboards(start, order[..i])
        invariant forall j :: i <= j < |order| ==> order[j] in dashboards && dashboards[order[j]] == start.dashboards[order[j]]
        invariant congested <==> exists j :: 0 <= j < i && CongestedAt(start, order[j])
      {
        assert order[..i + 1][..i] == order[..i];
        var fd := order[i];
        var d := dashboards[fd];
        if d.conn.closed {
          store := RemoveSubscriber(store, d.sub);
          dashboards := dashboards - {fd};
        } else if |d.conn.writeBuffer| >= Connection.HIGH_WATER_MARK {
          congested := true;
        }
      }
      assert order[..|order|] == order;
      CongestedInOrder(start, order);
    }

    method SweepDevices(order: seq<int>, congested: bool, now: int, line: LineOf)
      requires Visits(order, devices)
      modifies this`devices, this`dashboards, this`store
      ensures Value() == TendDevices(old(Value()), order, congested, now, line)
    {
      ghost var start := Value();
      VisitsAll(order, devices);
      for i := 0 to |order|
        invariant Value() == TendDevices(start, order[..i], congested, now, line)
        invariant forall j :: i <= j < |order| ==> order[j] in devices
      {
        assert order[..i + 1][..i] == order[..i];
        var fd := order[i];
        var d := devices[fd];
        if Gone(d, now) {
          var before := store;
          if d.ingest.session.Some? {
            var session := d.ingest.session.value;
            store := LatchOffline(store, session.id, session.lastUptime, now);
          }
          dashboards := TellDashboards(dashboards, before, store, line);
          devices := devices - {fd};
        } else {
          devices := devices[fd := SlowedDown(d, congested)];
        }
      }
      assert order[..|order|] == order;
    }

    /** The two table walks, whose orders are the hash maps' own, and the timer for the next sweep. */
    method Housekeeping(dashboardOrder: seq<int>, deviceOrder: seq<int>, now: int, elapsed: nat, line: LineOf)
      requires Visits(dashboardOrder, dashboards) && Visits(deviceOrder, devices)
      modifies this
      ensures Value() == Housekeep(old(Value()), dashboardOrder, deviceOrder, now, elapsed, line)
    {
      VisitsAll(dashboardOrder, dashboards);
      TendDashboardsRuns(Value(), dashboardOrder);
      var congested := SweepDashboards(dashboardOrder);
      SweepDevices(deviceOrder, congested, now, line);
      timers := Timers.AddTimer(timers, now + elapsed, INTERVAL);
    }
  }

  predicate CongestedAt(s: Server, fd: int)
  {
    fd in s.dashboards && !s.dashboards[fd].conn.closed && Connection.Congested(s.dashboards[fd].conn)
  }

  lemma CongestedInOrder(s: Server, order: seq<int>)
    requires Visits(order, s.dashboards)
    ensures AnyCongested(s) <==> exists j :: 0 <= j < |order| && CongestedAt(s, order[j])
  {
    if AnyCongested(s) {
      var fd :| fd in s.dashboards && !s.dashboards[fd].conn.closed && Connection.Congested(s.dashboards[fd].conn);
      assert fd in order;
      var j :| 0 <= j < |order| && order[j] == fd;
      assert CongestedAt(s, order[j]);
    }
  }
}
