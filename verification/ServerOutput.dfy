/** What the server's dashboards are sent, in every run. */
module ServerOutput {
  import opened Bits
  import Connection
  import opened Housekeeping
  import opened RateProtocol
  import opened Sequences
  import opened ServerRuns
  import opened StoreFanout
  import opened StoreModel

  /** What a happening puts on a dashboard's connection: the lines of what its subscriber was told by it, and what
      is enqueued directly, as replies to commands are. */
  function Adds(s: Server, s': Server, h: Happening, line: LineOf, fd: int): seq<byte>
  {
    if fd !in s.dashboards || fd !in s'.dashboards then []
    else
      var a, b := Log(s.store.inbox, s.dashboards[fd].sub), Log(s'.store.inbox, s.dashboards[fd].sub);
      LinesOf(if |a| <= |b| then b[|a|..] else [], line)
      + if h.DashboardIo? && h.fd == fd && h.io.Enqueue? then h.io.data else []
  }

  function SentTo(now: int, hs: seq<Happening>, line: LineOf, fd: int): seq<byte>
  {
    if hs == [] then []
    else
      var front, h := hs[..|hs| - 1], hs[|hs| - 1];
      var s, s' := RunServer(now, front, line), RunServer(now, hs, line);
      if h.AcceptDashboard? && h.fd == fd then LinesOf(Log(s'.store.inbox, h.sub), line)
      else SentTo(now, front, line, fd) + Adds(s, s', h, line, fd)
  }

  function Output(c: Connection.Conn): seq<byte>
  {
    c.sent + c.writeBuffer
  }

  lemma {:induction false} EnqueueLinesOut(c: Connection.Conn, news: seq<Notice>, line: LineOf)
    ensures Output(EnqueueLines(c, news, line)) == Output(c) + LinesOf(news, line)
  {
    if news == [] {
      assert Output(c) + [] == Output(c);
    } else {
      var front, last := news[..|news| - 1], news[|news| - 1];
      var c1 := EnqueueLines(c, front, line);
      EnqueueLinesOut(c, front, line);
      Assoc(c1.sent, c1.writeBuffer, line(last));
      Assoc(Output(c), LinesOf(front, line), line(last));
    }
  }

  lemma IoOut(c: Connection.Conn, io: Connection.Op)
    ensures Output(Connection.Apply(c, io)) == Output(c) + if io.Enqueue? then io.data else []
  {
    if io.Enqueue? {
      Assoc(c.sent, c.writeBuffer, io.data);
    } else {
      IoKeepsWhole(c, io);
      assert Output(c) + [] == Output(c);
    }
  }

  lemma HearsOut(d: Dashboard, before: Store, after: Store, line: LineOf)
    ensures Output(Hears(d, before, after, line).conn) == Output(d.conn) + LinesOf(News(before, after, d.sub), line)
  {
    EnqueueLinesOut(d.conn, News(before, after, d.sub), line);
  }

  /** The dashboard's entry after a happening that is not its own accept. */
  lemma DashboardStep(s: Server, h: Happening, line: LineOf, fd: int)
    requires Registered(s) && Possible(s, h) && fd in s.dashboards && fd in Happens(s, h, line).dashboards
    ensures var s' := Happens(s, h, line);
            var d, d' := s.dashboards[fd], s'.dashboards[fd];
            && d'.sub == d.sub
            && d' == (if h.DashboardIo? && h.fd == fd then d.(conn := Connection.Apply(d.conn, h.io)) else Hears(d, s.store, s'.store, line))
            && (h.DashboardIo? ==> s'.store == s.store)
  {
    var s' := Happens(s, h, line);
    var d := s.dashboards[fd];
    match h
    case SweepNow(dashboards, devices, t, elapsed) => SweepComputes(s, dashboards, devices, t, elapsed, line);
    case DeviceByte(g, b, t) =>
      if g !in s.devices {
        NothingNew(d, s.store, s'.store, line);
      }
    case AcceptDashboard(g, sub, order) =>
      assert IsSub(s, d.sub);
      NothingNew(d, s.store, s'.store, line);
    case _ => NothingNew(d, s.store, s'.store, line);
  }

  lemma NothingNew(d: Dashboard, before: Store, after: Store, line: LineOf)
    requires Log(after.inbox, d.sub) == Log(before.inbox, d.sub)
    ensures Hears(d, before, after, line) == d && News(before, after, d.sub) == []
  {
  }

  lemma DashboardAdds(s: Server, h: Happening, line: LineOf, fd: int)
    requires Registered(s) && Possible(s, h) && fd in s.dashboards && fd in Happens(s, h, line).dashboards
    ensures var s' := Happens(s, h, line);
            Output(s'.dashboards[fd].conn) == Output(s.dashboards[fd].conn) + Adds(s, s', h, line, fd)
  {
    var s', d := Happens(s, h, line), s.dashboards[fd];
    DashboardStep(s, h, line, fd);
    var news := News(s.store, s'.store, d.sub);
    if h.DashboardIo? && h.fd == fd {
      IoOut(d.conn, h.io);
      assert news == [];
      var data := if h.io.Enqueue? then h.io.data else [];
      assert LinesOf([], line) + data == data;
    } else {
      HearsOut(d, s.store, s'.store, line);
      assert LinesOf(news, line) + [] == LinesOf(news, line);
    }
  }

  lemma AcceptedOutput(s: Server, h: Happening, line: LineOf)
    requires h.AcceptDashboard?
    ensures var s' := Happens(s, h, line); Output(s'.dashboards[h.fd].conn) == LinesOf(Log(s'.store.inbox, h.sub), line)
  {
    var log := Log(Happens(s, h, line).store.inbox, h.sub);
    EnqueueLinesOut(Connection.NEW_CONN, log, line);
    assert [] + LinesOf(log, line) == LinesOf(log, line);
    assert Output(Connection.NEW_CONN) == [];
  }

  /** In every run of the server, for every connected dashboard: what its socket took, then what is buffered, is the
      line of everything its subscriber was told since it was accepted, in order, with its replies in between. */
  lemma {:induction false} DashboardOutputIsWhole(now: int, hs: seq<Happening>, line: LineOf, fd: int)
    requires PossibleRun(now, hs, line)
    ensures var s := RunServer(now, hs, line); fd in s.dashboards ==> Output(s.dashboards[fd].conn) == SentTo(now, hs, line, fd)
  {
    if hs != [] {
      var front, h := hs[..|hs| - 1], hs[|hs| - 1];
      var s, s' := RunServer(now, front, line), RunServer(now, hs, line);
      DashboardOutputIsWhole(now, front, line, fd);
      AlwaysRegistered(now, front, line);
      if h.AcceptDashboard? && h.fd == fd {
        AcceptedOutput(s, h, line);
      } else if fd in s'.dashboards {
        StaysConnected(s, h, line, fd);
        DashboardAdds(s, h, line, fd);
      }
    }
  }

  lemma StaysConnected(s: Server, h: Happening, line: LineOf, fd: int)
    requires Possible(s, h) && fd in Happens(s, h, line).dashboards && !(h.AcceptDashboard? && h.fd == fd)
    ensures fd in s.dashboards
  {
    match h
    case SweepNow(dashboards, devices, t, elapsed) => SweepComputes(s, dashboards, devices, t, elapsed, line);
    case _ =>
  }

  /** A dashboard that sends no commands has the lines of its whole log, and nothing else. */
  lemma {:induction false} QuietDashboardHasItsLog(now: int, hs: seq<Happening>, line: LineOf, fd: int)
    requires PossibleRun(now, hs, line) && fd in RunServer(now, hs, line).dashboards
    requires forall i :: 0 <= i < |hs| && hs[i].DashboardIo? && hs[i].fd == fd ==> !hs[i].io.Enqueue?
    ensures var s := RunServer(now, hs, line); Output(s.dashboards[fd].conn) == LinesOf(Log(s.store.inbox, s.dashboards[fd].sub), line)
  {
    var front, h := hs[..|hs| - 1], hs[|hs| - 1];
    var s, s' := RunServer(now, front, line), RunServer(now, hs, line);
    if h.AcceptDashboard? && h.fd == fd {
      AcceptedOutput(s, h, line);
    } else {
      StaysConnected(s, h, line, fd);
      QuietDashboardHasItsLog(now, front, line, fd);
      AlwaysRegistered(now, front, line);
      DashboardAdds(s, h, line, fd);
      DashboardStep(s, h, line, fd);
      LogGrows(s, h, line, fd);
      var sub := s.dashboards[fd].sub;
      var a, b := Log(s.store.inbox, sub), Log(s'.store.inbox, sub);
      LinesOfMore(a, b, line);
    }
  }

  lemma {:induction false} LinesOfConcat(a: seq<Notice>, b: seq<Notice>, line: LineOf)
    ensures LinesOf(a + b, line) == LinesOf(a, line) + LinesOf(b, line)
  {
    if b == [] {
      assert a + b == a;
    } else {
      assert (a + b)[..|a + b| - 1] == a + b[..|b| - 1];
      LinesOfConcat(a, b[..|b| - 1], line);
    }
  }

  lemma LinesOfMore(a: seq<Notice>, b: seq<Notice>, line: LineOf)
    requires a <= b
    ensures LinesOf(b, line) == LinesOf(a, line) + (LinesOf(b[|a|..], line) + [])
  {
    assert b == a + b[|a|..];
    LinesOfConcat(a, b[|a|..], line);
    assert LinesOf(b[|a|..], line) + [] == LinesOf(b[|a|..], line);
  }

  lemma LogGrows(s: Server, h: Happening, line: LineOf, fd: int)
    requires Registered(s) && Possible(s, h) && fd in s.dashboards && !(h.AcceptDashboard? && h.fd == fd)
    ensures Log(s.store.inbox, s.dashboards[fd].sub) <= Log(Happens(s, h, line).store.inbox, s.dashboards[fd].sub)
  {
    var sub := s.dashboards[fd].sub;
    match h
    case SweepNow(dashboards, devices, t, elapsed) =>
      SweepComputes(s, dashboards, devices, t, elapsed, line);
      SweptLogsGrow(s, dashboards, devices, t, Happens(s, h, line).store);
    case DeviceByte(g, b, t) =>
      if g in s.devices {
        ReceiveRecords(s.devices[g].ingest, b, t);
        RecordsGrowLog(s.store, Receive(s.devices[g].ingest, b, t).ops, sub);
      }
    case AcceptDashboard(g, x, order) =>
      assert IsSub(s, sub);
    case _ =>
  }

  lemma {:induction false} RecordsGrowLog(s: Store, ops: seq<Op>, sub: Subscriber)
    requires forall i :: 0 <= i < |ops| ==> ops[i].DoRecord?
    ensures Log(s.inbox, sub) <= Log(Run(s, ops).inbox, sub)
  {
    if ops != [] {
      var s1, op := Run(s, ops[..|ops| - 1]), ops[|ops| - 1];
      RecordsGrowLog(s, ops[..|ops| - 1], sub);
      RecordGrowsLog(s1, op, sub);
    }
  }

  lemma RecordGrowsLog(s: Store, op: Op, sub: Subscriber)
    requires op.DoRecord?
    ensures Log(s.inbox, sub) <= Log(Apply(s, op).inbox, sub)
  {
    var s1, n := RecordIs(s, op.session, op.metric, op.value, op.timestamp, op.now);
    NotifyTellsEachEntry(s.inbox, s.subscribers, Reading(op.session, op.metric, op.value, op.timestamp), sub);
    NotifyTellsEachEntry(s1.inbox, s.subscribers, n, sub);
  }
}
