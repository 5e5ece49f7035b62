/** From the store's alerts to what an operator sees: the calls the store makes into a subscriber, the lines
    they become, and the items the client reads out of them. */
module Dashboards {
  import opened Bits
  import opened Decimal
  import opened Smoothing
  import opened Split
  import opened StoreFanout
  import opened StoreModel
  import opened TextProtocol
  import RateProtocol
  import FrameEncoder
  import Text = TextStream

  // ---- Calls as lines ----

  predicate FitsU32(n: int)
  {
    0 <= n <= MAX_U32
  }

  /** The numbers are those the line protocol is written for. */
  predicate NoticeFits(n: Notice)
  {
    FitsU32(n.timestamp) && (!n.OfflineNotice? ==> FitsI32(n.value))
  }

  predicate LogFits(log: seq<Notice>)
  {
    forall i :: 0 <= i < |log| ==> NoticeFits(log[i])
  }

  function UpdateOf(n: Notice): Update
    requires NoticeFits(n)
  {
    match n
    case Reading(session, metric, value, timestamp) => SampleUpdate(metric, session, timestamp, value)
    case ExcursionNotice(session, value, timestamp, _) => ExcursionUpdate(session, timestamp, value)
    case OfflineNotice(session, timestamp, _) => OfflineUpdate(session, timestamp)
  }

  function UpdatesOf(log: seq<Notice>): (r: seq<Update>)
    requires LogFits(log)
    ensures |r| == |log|
  {
    seq(|log|, i requires 0 <= i < |log| => UpdateOf(log[i]))
  }

  /** The calls into the subscriber, among the commands it gets. */
  function PublishedIn(events: seq<Text.SubEvent>): seq<Update>
  {
    if events == [] then []
    else
      var e := events[|events| - 1];
      PublishedIn(events[..|events| - 1]) + if e.Published? then [e.update] else []
  }

  /** The items of the alerts among these updates. */
  function AlertsOf(updates: seq<Update>): seq<Item>
  {
    if updates == [] then []
    else
      var u := updates[|updates| - 1];
      AlertsOf(updates[..|updates| - 1]) + if u.SampleUpdate? then [] else [ItemOf(u)]
  }

  function AlertItems(items: seq<Item>): seq<Item>
  {
    if items == [] then []
    else
      var x := items[|items| - 1];
      AlertItems(items[..|items| - 1]) + if x.AlertItem? then [x] else []
  }

  function AlertNotices(log: seq<Notice>): (r: seq<Notice>)
    ensures LogFits(log) ==> LogFits(r)
    ensures forall i :: 0 <= i < |r| ==> !r[i].Reading?
  {
    if log == [] then []
    else
      var n := log[|log| - 1];
      AlertNotices(log[..|log| - 1]) + if n.Reading? then [] else [n]
  }

  // ---- Lines as items ----

  lemma AlertsOfLast(updates: seq<Update>, u: Update)
    ensures AlertsOf(updates + [u]) == AlertsOf(updates) + if u.SampleUpdate? then [] else [ItemOf(u)]
  {
    assert (updates + [u])[..|updates|] == updates;
  }

  lemma EmitAlertItems(s: Text.Sub, e: Text.Emission)
    ensures AlertItems(Text.Items(Text.Emit(s, e).emitted))
            == AlertItems(Text.Items(s.emitted)) + if Text.EmissionItem(e).AlertItem? then [Text.EmissionItem(e)] else []
  {
    var es := Text.Emit(s, e).emitted;
    assert Text.Items(es)[..|es| - 1] == Text.Items(s.emitted);
  }

  lemma PublishAlertItems(s: Text.Sub, u: Update)
    ensures AlertItems(Text.Items(Text.Publish(s, u).emitted))
            == AlertItems(Text.Items(s.emitted)) + if u.SampleUpdate? then [] else [ItemOf(u)]
  {
    EmitAlertItems(s, Text.Told(u));
  }

  lemma CommandAlertItems(s: Text.Sub, line: string, ack: AckResult)
    requires Text.SubInv(s) && NEWLINE !in line
    ensures AlertItems(Text.Items(Text.HandleLine(s, line, ack).emitted)) == AlertItems(Text.Items(s.emitted))
  {
    var reply := Text.CommandEffect(s, line, ack);
    if reply.Some? {
      EmitAlertItems(s, reply.value);
    }
  }

  /** Whatever commands interleave, the alert items among the lines sent are those of the alerts published. */
  lemma {:induction false} AlertItemsOfRun(events: seq<Text.SubEvent>)
    requires forall i :: 0 <= i < |events| ==> Text.Wf(events[i])
    ensures AlertItems(Text.Items(Text.Run(events).emitted)) == AlertsOf(PublishedIn(events))
  {
    if events != [] {
      var front, e := events[..|events| - 1], events[|events| - 1];
      AlertItemsOfRun(front);
      Text.RunKeeps(front);
      assert Text.Wf(e);
      match e
      case Published(u) =>
        PublishAlertItems(Text.Run(front), u);
        AlertsOfLast(PublishedIn(front), u);
      case Commanded(line, ack) =>
        CommandAlertItems(Text.Run(front), line, ack);
        assert PublishedIn(events) == PublishedIn(front);
    }
  }

  function ItemsOf(notices: seq<Notice>): (r: seq<Item>)
    requires LogFits(notices)
    ensures |r| == |notices|
  {
    seq(|notices|, i requires 0 <= i < |notices| => ItemOf(UpdateOf(notices[i])))
  }

  lemma {:induction false} AlertsOfLog(log: seq<Notice>)
    requires LogFits(log)
    ensures AlertsOf(UpdatesOf(log)) == ItemsOf(AlertNotices(log))
  {
    if log != [] {
      var front, n := log[..|log| - 1], log[|log| - 1];
      AlertsOfLog(front);
      assert UpdatesOf(log) == UpdatesOf(front) + [UpdateOf(n)];
      AlertsOfLast(UpdatesOf(front), UpdateOf(n));
      if n.Reading? {
        assert AlertNotices(log) == AlertNotices(front);
      } else {
        assert ItemsOf(AlertNotices(front) + [n]) == ItemsOf(AlertNotices(front)) + [ItemOf(UpdateOf(n))];
      }
    }
  }

  /** What the operator is to read for a notice. */
  function Expected(n: Notice): Item
  {
    match n
    case Reading(session, metric, value, timestamp) =>
      SampleItem(if metric == 0 then "temp" else if metric == 1 then "pressure" else "metric" + NatText(metric as nat),
                 session as nat, if timestamp < 0 then 0 else timestamp, value)
    case ExcursionNotice(session, value, timestamp, _) =>
      AlertItem("EXCURSION", session as nat, if timestamp < 0 then 0 else timestamp, value)
    case OfflineNotice(session, timestamp, _) =>
      AlertItem("OFFLINE", session as nat, if timestamp < 0 then 0 else timestamp, 0)
  }

  lemma ExpectedIs(n: Notice)
    requires NoticeFits(n)
    ensures ItemOf(UpdateOf(n)) == Expected(n)
  {
  }

  // ---- One line of an episode is one notice ----

  /** `n` is at `i`, and nothing else is about its episode. */
  predicate OnlyAt(notices: seq<Notice>, i: nat, n: Notice)
    requires i < |notices| && forall j :: 0 <= j < |notices| ==> !notices[j].Reading?
    requires !n.Reading?
  {
    notices[i] == n && forall j :: 0 <= j < |notices| && notices[j].episode == n.episode ==> j == i
  }

  lemma {:induction false} NoLineNoNotice(log: seq<Notice>, episode: nat, j: nat)
    requires EpisodeLines(log, episode) == [] && j < |AlertNotices(log)|
    ensures AlertNotices(log)[j].episode != episode
  {
    var front := log[..|log| - 1];
    if j < |AlertNotices(front)| {
      NoLineNoNotice(front, episode, j);
    }
  }

  lemma {:induction false} OneLineOneNotice(log: seq<Notice>, n: Notice) returns (i: nat)
    requires !n.Reading? && EpisodeLines(log, n.episode) == [n]
    ensures i < |AlertNotices(log)| && OnlyAt(AlertNotices(log), i, n)
  {
    var front, last := log[..|log| - 1], log[|log| - 1];
    var before := AlertNotices(front);
    if !last.Reading? && last.episode == n.episode {
      LastLine(EpisodeLines(front, n.episode), last, n);
      i := |before|;
      forall j | 0 <= j < |before|
        ensures before[j].episode != n.episode
      {
        NoLineNoNotice(front, n.episode, j);
      }
    } else {
      i := OneLineOneNotice(front, n);
    }
  }

  lemma LastLine(lines: seq<Notice>, last: Notice, n: Notice)
    requires lines + [last] == [n]
    ensures lines == [] && last == n
  {
    assert |lines + [last]| == 1;
    assert (lines + [last])[0] == last;
  }

  // ---- What the store says fits ----

  /** The operation's numbers are 32-bit ones, as every frame from a device carries. */
  predicate OpFits(op: Op)
  {
    && (op.DoRecord? ==> FitsI32(op.value) && FitsU32(op.timestamp))
    && (op.DoLatchOffline? ==> FitsU32(op.timestamp))
  }

  lemma DispatchedFits(ing: RateProtocol.Ingest, f: FrameEncoder.Frame, now: int)
    ensures forall op :: op in RateProtocol.Dispatch(ing, f, now).ops ==> OpFits(op)
  {
  }

  predicate AlertsFit(a: Alerts)
  {
    && FitsI32(a.excursion.value) && FitsU32(a.excursion.timestamp)
    && FitsU32(a.offline.timestamp)
  }

  ghost predicate StoreFits(s: Store)
  {
    && (forall key: nat :: FitsI32(RingAt(s, key).average))
    && (forall session: u16 :: AlertsFit(AlertsAt(s, session)))
  }

  lemma SmoothFits(average: int, value: int)
    requires FitsI32(average) && FitsI32(value)
    ensures FitsI32(Smooth(average, value))
  {
  }

  lemma RecordRingFits(h: Ring, x: Sample)
    requires FitsI32(h.average) && FitsI32(x.value)
    ensures FitsI32(RecordRing(h, x).average)
  {
    SmoothFits(h.average, x.value);
  }

  lemma ApplyFits(s: Store, op: Op)
    requires StoreFits(s) && OpFits(op)
    ensures StoreFits(Apply(s, op))
  {
    var s' := Apply(s, op);
    if op.DoRecord? {
      RecordRingFits(RingAt(s, MakeKey(op.session, op.metric)), Sample(op.timestamp, op.value));
    }
    forall key: nat
      ensures FitsI32(RingAt(s', key).average)
    {
      assert FitsI32(RingAt(s, key).average);
    }
    forall session: u16
      ensures AlertsFit(AlertsAt(s', session))
    {
      assert AlertsFit(AlertsAt(s, session));
    }
  }

  lemma {:induction false} ReplayFits(s: Store, order: seq<u16>)
    requires StoreFits(s)
    ensures LogFits(Replay(s, order))
  {
    if order != [] {
      ReplayFits(s, order[..|order| - 1]);
    }
  }

  lemma NotifyFits(inbox: map<Subscriber, seq<Notice>>, subs: seq<Subscriber>, n: Notice, sub: Subscriber)
    requires LogFits(Log(inbox, sub)) && NoticeFits(n)
    ensures LogFits(Log(Notify(inbox, subs, n), sub))
  {
    NotifyTellsEachEntry(inbox, subs, n, sub);
  }

  lemma RecordLogFits(s: Store, session: u16, metric: byte, value: int, timestamp: int, now: int, sub: Subscriber)
    requires StoreFits(s) && FitsI32(value) && FitsU32(timestamp) && LogFits(Log(s.inbox, sub))
    ensures LogFits(Log(Record(s, session, metric, value, timestamp, now).inbox, sub))
  {
    var reading := Reading(session, metric, value, timestamp);
    var h := RecordRing(RingAt(s, MakeKey(session, metric)), Sample(timestamp, value));
    RecordRingFits(RingAt(s, MakeKey(session, metric)), Sample(timestamp, value));
    NotifyFits(s.inbox, s.subscribers, reading, sub);
    NotifyFits(Notify(s.inbox, s.subscribers, reading), s.subscribers,
               ExcursionNotice(session, h.average, timestamp, s.latched), sub);
  }

  lemma ApplyLogFits(s: Store, op: Op, sub: Subscriber)
    requires StoreFits(s) && OpFits(op) && LogFits(Log(s.inbox, sub))
    ensures LogFits(Log(Apply(s, op).inbox, sub))
  {
    match op {
      case DoRecord(session, metric, value, timestamp, now) =>
        RecordLogFits(s, session, metric, value, timestamp, now, sub);
      case DoLatchOffline(session, timestamp, _) =>
        NotifyFits(s.inbox, s.subscribers, OfflineNotice(session, timestamp, s.latched), sub);
      case DoAddSubscriber(_, order) =>
        ReplayFits(s, order);
      case DoAck(_, _) =>
      case DoRemoveSubscriber(_) =>
    }
  }

  /** In every run over 32-bit readings, everything the store tells anyone fits the line protocol. */
  lemma {:induction false} RunFits(ops: seq<Op>, sub: Subscriber)
    requires forall i :: 0 <= i < |ops| ==> OpFits(ops[i])
    ensures var s := Run(EMPTY_STORE, ops); StoreFits(s) && LogFits(Log(s.inbox, sub))
  {
    if ops != [] {
      var n := |ops| - 1;
      RunFits(ops[..n], sub);
      ApplyFits(Run(EMPTY_STORE, ops[..n]), ops[n]);
      ApplyLogFits(Run(EMPTY_STORE, ops[..n]), ops[n], sub);
    }
  }

  // ---- End to end ----

  /** A dashboard's events are what the store told this subscriber, in order, among any commands. */
  predicate Connected(events: seq<Text.SubEvent>, log: seq<Notice>)
  {
    && (forall i :: 0 <= i < |events| ==> Text.Wf(events[i]))
    && LogFits(log) && PublishedIn(events) == UpdatesOf(log)
  }

  /** The client's alert items are exactly the alerts the store told its subscriber, one for one and in order,
      whatever commands the dashboard sends and however the bytes are cut. */
  lemma ClientSeesAlerts(log: seq<Notice>, events: seq<Text.SubEvent>, chunks: seq<string>)
    requires Connected(events, log) && Joined(chunks) == Text.OutText(Text.Run(events).emitted)
    ensures AlertItems(Text.ReceiveAll(chunks).out) == ItemsOf(AlertNotices(log))
  {
    Text.RunKeeps(events);
    AlertItemsOfRun(events);
    AlertsOfLog(log);
    var es := Text.Run(events).emitted;
    assert Text.OutText(es) + "" == Text.OutText(es);
    Text.TextRoundTrip(es, "", chunks);
  }

  /** From the store to the operator: in every run, the client of a registered dashboard has read exactly
      one alert item for each open alert episode, and it is that alert's. What the store tells always fits
      (`RunFits`). */
  lemma OperatorSeesEachAlertOnce(ops: seq<Op>, sub: Subscriber, n: Notice, events: seq<Text.SubEvent>, chunks: seq<string>)
    requires ReplaysWhole(ops) && RegistersOnce(ops)
    requires sub in Run(EMPTY_STORE, ops).subscribers && IsOpen(Run(EMPTY_STORE, ops), n)
    requires Connected(events, Log(Run(EMPTY_STORE, ops).inbox, sub))
    requires Joined(chunks) == Text.OutText(Text.Run(events).emitted)
    ensures var told, items := AlertNotices(Log(Run(EMPTY_STORE, ops).inbox, sub)), AlertItems(Text.ReceiveAll(chunks).out);
            && NoticeFits(n) && |items| == |told|
            && exists i :: 0 <= i < |told| && OnlyAt(told, i, n) && items[i] == Expected(n)
  {
    var log := Log(Run(EMPTY_STORE, ops).inbox, sub);
    ExactlyOneLinePerOpenAlert(ops, sub, n);
    ClientSeesAlerts(log, events, chunks);
    var i := OneLineOneNotice(log, n);
    assert OnlyAt(AlertNotices(log), i, n);
    assert ItemsOf(AlertNotices(log))[i] == ItemOf(UpdateOf(n));
    ExpectedIs(n);
  }
}
