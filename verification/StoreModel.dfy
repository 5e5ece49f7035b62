/** The server's data hub (server/store.hpp, server/store.cpp) as a value: bounded history, smoothed
    readings, latched alerts and fan-out to subscribers. Readings and clocks are unbounded integers
    here; `StoreRuns.RunsStayIn32Bits` says exactly for which readings the 32-bit subtraction agrees. */
module StoreModel {
  import opened Bits
  import opened Sequences
  import opened Smoothing

  newtype u16 = x: int | 0 <= x < 0x1_0000

  const HISTORY: nat := 64
  const HIGH_THRESHOLD: int := 5500
  const TEMP_METRIC: byte := 0
  const NANOS_PER_MILLI: int := 1_000_000

  // ---- History of one (session, metric) ----

  datatype Sample = Sample(timestamp: int, value: int)

  datatype RingData = RingData(entries: seq<Sample>, count: nat, next: nat, haveAverage: bool, average: int)

  function Blank(n: nat): (r: seq<Sample>)
    ensures |r| == n
  {
    seq(n, _ => Sample(0, 0))
  }

  const EMPTY_RING := RingData(Blank(HISTORY), 0, 0, false, 0)

  type Ring = r: RingData | |r.entries| == HISTORY && r.count <= HISTORY && r.next < HISTORY witness EMPTY_RING

  /** `(session_id << 8) | metric_id`: the metric fits the eight bits shifted in. */
  function MakeKey(session: u16, metric: byte): nat
  {
    session as nat * 256 + metric as nat
  }

  lemma KeysAreDistinct(s: u16, m: byte, s': u16, m': byte)
    requires MakeKey(s, m) == MakeKey(s', m')
    ensures s == s' && m == m'
  {
  }

  /** The ring and average part of `record`. */
  function RecordRing(h: Ring, x: Sample): Ring
  {
    RingData(h.entries[h.next := x], if h.count < HISTORY then h.count + 1 else h.count, (h.next + 1) % HISTORY,
             true, if h.haveAverage then Smooth(h.average, x.value) else x.value)
  }

  /** What `history` returns. */
  function RingSamples(h: Ring): (r: seq<Sample>)
    ensures |r| == h.count
  {
    var oldest := if h.count < HISTORY then 0 else h.next;
    seq(h.count, i requires 0 <= i < h.count => h.entries[(oldest + i) % HISTORY])
  }

  // ---- Alerts ----

  /** A latched alert. `episode` numbers the alerts in the order they latched; it is not part of the
      program's state and never reaches a decision. */
  datatype Alert = Alert(active: bool, value: int, timestamp: int, triggeredAt: int, episode: nat)

  datatype Alerts = Alerts(excursion: Alert, offline: Alert)

  const NO_ALERT := Alert(false, 0, 0, 0, 0)
  const NO_ALERTS := Alerts(NO_ALERT, NO_ALERT)

  datatype AckResult = AckResult(hadExcursion: bool, excursionMs: int, excursionStillActive: bool,
                                 hadOffline: bool, offlineMs: int)

  /** `duration_cast<milliseconds>` of a nanosecond difference: rounds towards zero. */
  function Millis(nanos: int): int
  {
    if nanos >= 0 then nanos / NANOS_PER_MILLI else -((-nanos) / NANOS_PER_MILLI)
  }

  /** A call from the store into a subscriber: `publish`, `publish_excursion_alert` or
      `publish_offline_alert`. */
  datatype Notice =
    | Reading(session: u16, metric: byte, value: int, timestamp: int)
    | ExcursionNotice(session: u16, value: int, timestamp: int, episode: nat)
    | OfflineNotice(session: u16, timestamp: int, episode: nat)

  type Subscriber = nat

  // ---- The store ----

  /** `inbox` holds what each subscriber was told since its latest registration; `latched` counts alerts. */
  datatype Store = Store(history: map<nat, Ring>, alerts: map<u16, Alerts>, subscribers: seq<Subscriber>,
                         inbox: map<Subscriber, seq<Notice>>, latched: nat)

  const EMPTY_STORE := Store(map[], map[], [], map[], 0)

  function RingAt(s: Store, key: nat): Ring
  {
    if key in s.history then s.history[key] else EMPTY_RING
  }

  function AlertsAt(s: Store, session: u16): Alerts
  {
    if session in s.alerts then s.alerts[session] else NO_ALERTS
  }

  function Log(inbox: map<Subscriber, seq<Notice>>, sub: Subscriber): seq<Notice>
  {
    if sub in inbox then inbox[sub] else []
  }

  /** Tell every entry of the subscriber list, in order. */
  function Notify(inbox: map<Subscriber, seq<Notice>>, subs: seq<Subscriber>, n: Notice): map<Subscriber, seq<Notice>>
  {
    if subs == [] then inbox
    else
      var before := Notify(inbox, subs[..|subs| - 1], n);
      var sub := subs[|subs| - 1];
      before[sub := Log(before, sub) + [n]]
  }

  function Record(s: Store, session: u16, metric: byte, value: int, timestamp: int, now: int): Store
  {
    var key := MakeKey(session, metric);
    var h := RecordRing(RingAt(s, key), Sample(timestamp, value));
    var s1 := s.(history := s.history[key := h],
                 inbox := Notify(s.inbox, s.subscribers, Reading(session, metric, value, timestamp)));
    if metric != TEMP_METRIC || h.average <= HIGH_THRESHOLD then s1
    else
      var a := AlertsAt(s1, session);
      if a.excursion.active then s1
      else
        s1.(alerts := s1.alerts[session := a.(excursion := Alert(true, h.average, timestamp, now, s.latched))],
            inbox := Notify(s1.inbox, s.subscribers, ExcursionNotice(session, h.average, timestamp, s.latched)),
            latched := s.latched + 1)
  }

  function LatchOffline(s: Store, session: u16, timestamp: int, now: int): Store
  {
    var a := AlertsAt(s, session);
    if a.offline.active then s
    else
      s.(alerts := s.alerts[session := a.(offline := Alert(true, 0, timestamp, now, s.latched))],
         inbox := Notify(s.inbox, s.subscribers, OfflineNotice(session, timestamp, s.latched)),
         latched := s.latched + 1)
  }

  /** The check `ack` makes before it closes an excursion. */
  predicate Recovered(s: Store, session: u16)
  {
    var key := MakeKey(session, TEMP_METRIC);
    key in s.history && s.history[key].average <= HIGH_THRESHOLD
  }

  function Ack(s: Store, session: u16): Store
  {
    if session !in s.alerts then s
    else
      var a := s.alerts[session];
      var stays := a.excursion.active && !Recovered(s, session);
      s.(alerts := s.alerts[session := Alerts(a.excursion.(active := stays), a.offline.(active := false))])
  }

  function AckReport(s: Store, session: u16, now: int): AckResult
  {
    var a := AlertsAt(s, session);
    AckResult(a.excursion.active,
              if a.excursion.active then Millis(now - a.excursion.triggeredAt) else 0,
              a.excursion.active && !Recovered(s, session),
              a.offline.active,
              if a.offline.active then Millis(now - a.offline.triggeredAt) else 0)
  }

  function OpenNotices(session: u16, a: Alerts): seq<Notice>
  {
    (if a.excursion.active
     then [ExcursionNotice(session, a.excursion.value, a.excursion.timestamp, a.excursion.episode)] else [])
    + (if a.offline.active then [OfflineNotice(session, a.offline.timestamp, a.offline.episode)] else [])
  }

  /** The open alerts of the sessions in `order`, as `add_subscriber` replays them. The order is the
      hash map's and stays unspecified. */
  function Replay(s: Store, order: seq<u16>): seq<Notice>
  {
    if order == [] then []
    else
      var n := |order| - 1;
      Replay(s, order[..n]) + OpenNotices(order[n], AlertsAt(s, order[n]))
  }

  /** An iteration over the alert map visits every key once. */
  predicate IsIteration(s: Store, order: seq<u16>)
  {
    && Distinct(order)
    && (forall session :: session in order <==> session in s.alerts)
  }

  function AddSubscriber(s: Store, sub: Subscriber, order: seq<u16>): Store
  {
    s.(subscribers := s.subscribers + [sub], inbox := s.inbox[sub := Replay(s, order)])
  }

  /** `std::remove` drops every occurrence. */
  function Without(subs: seq<Subscriber>, sub: Subscriber): seq<Subscriber>
  {
    if subs == [] then []
    else
      var n := |subs| - 1;
      if subs[n] == sub then Without(subs[..n], sub) else Without(subs[..n], sub) + [subs[n]]
  }

  function RemoveSubscriber(s: Store, sub: Subscriber): Store
  {
    s.(subscribers := Without(s.subscribers, sub))
  }

  // ---- Runs ----

  datatype Op =
    | DoRecord(session: u16, metric: byte, value: int, timestamp: int, now: int)
    | DoLatchOffline(session: u16, timestamp: int, now: int)
    | DoAck(session: u16, now: int)
    | DoAddSubscriber(sub: Subscriber, order: seq<u16>)
    | DoRemoveSubscriber(sub: Subscriber)

  function Apply(s: Store, op: Op): Store
  {
    match op
    case DoRecord(session, metric, value, timestamp, now) => Record(s, session, metric, value, timestamp, now)
    case DoLatchOffline(session, timestamp, now) => LatchOffline(s, session, timestamp, now)
    case DoAck(session, _) => Ack(s, session)
    case DoAddSubscriber(sub, order) => AddSubscriber(s, sub, order)
    case DoRemoveSubscriber(sub) => RemoveSubscriber(s, sub)
  }

  function Run(s: Store, ops: seq<Op>): Store
  {
    if ops == [] then s else Apply(Run(s, ops[..|ops| - 1]), ops[|ops| - 1])
  }
}
