/** In every run of the server each device is one end of a link, so the laws of `RateProtocol` hold of the server. */
module ServerLinks {
  import opened Housekeeping
  import opened RateProtocol
  import opened ServerRuns
  import opened StoreModel

  /** What a happening is to the device behind this descriptor: a fresh link, a byte read from it, a sweep that is
      congested exactly if a connected dashboard has a backlog, or nothing. */
  function EventsAfter(s: Server, h: Happening, fd: int, events: seq<Event>): seq<Event>
  {
    if h.AcceptDevice? && h.fd == fd then []
    else if h.DeviceByte? && h.fd == fd then events + [FromNode(h.b, h.now)]
    else if h.SweepNow? then events + [Swept(Backlog(s))]
    else events
  }

  /** What happened to it since it was accepted. */
  function LinkEvents(now: int, hs: seq<Happening>, line: LineOf, fd: int): seq<Event>
  {
    if hs == [] then []
    else
      var front, h := hs[..|hs| - 1], hs[|hs| - 1];
      EventsAfter(RunServer(now, front, line), h, fd, LinkEvents(now, front, line, fd))
  }

  /** The session id it was accepted with. */
  function IdOf(hs: seq<Happening>, fd: int): u16
  {
    if hs == [] then FIRST_SESSION
    else
      var h := hs[|hs| - 1];
      if h.AcceptDevice? && h.fd == fd then h.id else IdOf(hs[..|hs| - 1], fd)
  }

  lemma RunLinkMore(l: Link, events: seq<Event>, e: Event)
    ensures RunLink(l, events + [e]).server == Serve(RunLink(l, events).server, e)
  {
    var all := events + [e];
    assert all != [] && all[..|all| - 1] == events && all[|all| - 1] == e;
    AfterServes(RunLink(l, events), e);
  }

  lemma SlowedIsSwept(d: Device, congested: bool)
    ensures SlowedDown(d, congested).ingest == Serve(d.ingest, Swept(congested))
  {
  }

  lemma {:induction false} AllLinks(now: int, hs: seq<Happening>, line: LineOf, fd: int)
    requires PossibleRun(now, hs, line)
    ensures var s := RunServer(now, hs, line);
            fd in s.devices ==> s.devices[fd].ingest == RunLink(NewLink(IdOf(hs, fd)), LinkEvents(now, hs, line, fd)).server
  {
    if hs != [] {
      var front, h := hs[..|hs| - 1], hs[|hs| - 1];
      var s := RunServer(now, front, line);
      AllLinks(now, front, line, fd);
      if !(h.AcceptDevice? && h.fd == fd) {
        LinkStep(s, h, line, fd, IdOf(front, fd), LinkEvents(now, front, line, fd));
      }
    }
  }

  lemma LinkStep(s: Server, h: Happening, line: LineOf, fd: int, id: u16, events: seq<Event>)
    requires Possible(s, h) && (fd in s.devices ==> s.devices[fd].ingest == RunLink(NewLink(id), events).server)
    requires !(h.AcceptDevice? && h.fd == fd)
    ensures var s' := Happens(s, h, line);
            fd in s'.devices ==> s'.devices[fd].ingest == RunLink(NewLink(id), EventsAfter(s, h, fd, events)).server
  {
    if h.DeviceByte? && h.fd == fd {
      RunLinkMore(NewLink(id), events, FromNode(h.b, h.now));
    } else if h.SweepNow? {
      SweepComputes(s, h.dashboards, h.devices, h.at, h.elapsed, line);
      BacklogIsCongestion(s);
      RunLinkMore(NewLink(id), events, Swept(Backlog(s)));
      if fd in s.devices {
        SlowedIsSwept(s.devices[fd], Backlog(s));
      }
    }
  }

  /** In every run of the server, each device's ingest is the server end of a link whose events are the bytes read
      from that device and the sweeps, congested exactly if a connected dashboard had a backlog. So every law of
      the links holds of the server. */
  lemma DeviceIsLink(now: int, hs: seq<Happening>, line: LineOf, fd: int)
    requires PossibleRun(now, hs, line) && fd in RunServer(now, hs, line).devices
    ensures RunServer(now, hs, line).devices[fd].ingest
            == RunLink(NewLink(IdOf(hs, fd)), LinkEvents(now, hs, line, fd)).server
  {
    AllLinks(now, hs, line, fd);
  }

  lemma {:induction false} NothingDelivered(id: u16, events: seq<Event>)
    requires forall i :: 0 <= i < |events| ==> !events[i].ToNode?
    ensures var l := RunLink(NewLink(id), events); l.node == NewNode() && l.inFlight == l.server.sent
  {
    if events != [] {
      var front, e := events[..|events| - 1], events[|events| - 1];
      NothingDelivered(id, front);
      RateProtocol.RunKeepsInv(id, front);
      var f := ServeAnnounces(RunLink(NewLink(id), front).server, e);
    }
  }

  lemma {:induction false} NeverDelivers(now: int, hs: seq<Happening>, line: LineOf, fd: int)
    ensures forall i :: 0 <= i < |LinkEvents(now, hs, line, fd)| ==> !LinkEvents(now, hs, line, fd)[i].ToNode?
  {
    if hs != [] {
      NeverDelivers(now, hs[..|hs| - 1], line, fd);
    }
  }

  /** So in every run a node that has read everything its socket took and its buffer holds agrees with the server
      on session id and rate. */
  lemma EveryDeviceSettles(now: int, hs: seq<Happening>, line: LineOf, fd: int)
    requires PossibleRun(now, hs, line)
    requires var s := RunServer(now, hs, line); fd in s.devices && s.devices[fd].ingest.session.Some?
    ensures var d := RunServer(now, hs, line).devices[fd];
            var n, x := NodeBytes(NewNode(), d.conn.sent + d.conn.writeBuffer), d.ingest.session.value;
            n.connected && n.rate == x.rate <= 10 && n.sessionId == x.id == IdOf(hs, fd)
  {
    var events := LinkEvents(now, hs, line, fd);
    DeviceIsLink(now, hs, line, fd);
    DeviceOutputIsWhole(now, hs, line, fd);
    NeverDelivers(now, hs, line, fd);
    NothingDelivered(IdOf(hs, fd), events);
    RateAgreement(IdOf(hs, fd), events);
  }

  /** And once a device has a session, three sweeps that find a backlog bring it to rate 1, if it says no HELLO. */
  lemma ThreeBacklogsSuffice(now: int, hs: seq<Happening>, line: LineOf, fd: int, events: seq<Event>, more: seq<Event>)
    requires PossibleRun(now, hs, line) && fd in RunServer(now, hs, line).devices
    requires LinkEvents(now, hs, line, fd) == events + more
    requires var l := RunLink(NewLink(IdOf(hs, fd)), events); l.server.session.Some? && NoHello(l, more)
    requires CongestedSweeps(more) >= 3
    ensures HasRate(RunServer(now, hs, line).devices[fd].ingest.session, 1)
  {
    DeviceIsLink(now, hs, line, fd);
    ThreeSweepsSuffice(IdOf(hs, fd), events, more);
  }
}
