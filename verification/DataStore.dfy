/** The store object: its methods update the maps and the subscriber list in place, and compute the
    functions of `StoreModel`. */
module DataStore {
  import opened Bits
  import opened Smoothing
  import opened StoreModel

  class DataStore {
    var history: map<nat, Ring>
    var alerts: map<u16, Alerts>
    var subscribers: seq<Subscriber>
    var inbox: map<Subscriber, seq<Notice>>
    var latched: nat

    function Value(): Store
      reads this
    {
      Store(history, alerts, subscribers, inbox, latched)
    }

    constructor ()
      ensures Value() == EMPTY_STORE
    {
      history, alerts, subscribers, inbox, latched := map[], map[], [], map[], 0;
    }

    /** The loops over the subscriber list in `record`, `notify_excursion` and `notify_offline`. */
    method Tell(n: Notice)
      modifies this`inbox
      ensures inbox == Notify(old(inbox), subscribers, n)
    {
      for i := 0 to |subscribers|
        invariant inbox == Notify(old(inbox), subscribers[..i], n)
      {
        var sub := subscribers[i];
        assert subscribers[..i + 1][..i] == subscribers[..i];
        inbox := inbox[sub := Log(inbox, sub) + [n]];
      }
      assert subscribers[..|subscribers|] == subscribers;
    }

    method AddSubscriber(sub: Subscriber, order: seq<u16>)
      modifies this
      ensures Value() == StoreModel.AddSubscriber(old(Value()), sub, order)
    {
      subscribers := subscribers + [sub];
      var lines: seq<Notice> := [];
      for i := 0 to |order|
        invariant lines == Replay(old(Value()), order[..i])
      {
        assert order[..i + 1][..i] == order[..i];
        var session := order[i];
        var a := if session in alerts then alerts[session] else NO_ALERTS;
        lines := lines + OpenNotices(session, a);
      }
      assert order[..|order|] == order;
      inbox := inbox[sub := lines];
    }

    method RemoveSubscriber(sub: Subscriber)
      modifies this`subscribers
      ensures Value() == StoreModel.RemoveSubscriber(old(Value()), sub)
    {
      var kept: seq<Subscriber> := [];
      for i := 0 to |subscribers|
        invariant kept == Without(subscribers[..i], sub)
      {
        assert subscribers[..i + 1][..i] == subscribers[..i];
        if subscribers[i] != sub {
          kept := kept + [subscribers[i]];
        }
      }
      assert subscribers[..|subscribers|] == subscribers;
      subscribers := kept;
    }

    /** The history and average part of `record`. */
    method UpdateHistory(key: nat, x: Sample) returns (average: int)
      modifies this`history
      ensures history == old(history)[key := RecordRing(RingAt(old(Value()), key), x)]
      ensures average == history[key].average
    {
      var h := if key in history then history[key] else EMPTY_RING;
      average := if h.haveAverage then Smooth(h.average, x.value) else x.value;
      var next := (h.next + 1) % HISTORY;
      var count := if h.count < HISTORY then h.count + 1 else h.count;
      h := RingData(h.entries[h.next := x], count, next, true, average);
      history := history[key := h];
    }

    method Record(session: u16, metric: byte, value: int, timestamp: int, now: int)
      modifies this
      ensures Value() == StoreModel.Record(old(Value()), session, metric, value, timestamp, now)
    {
      var average := UpdateHistory(MakeKey(session, metric), Sample(timestamp, value));
      Tell(Reading(session, metric, value, timestamp));
      if metric != TEMP_METRIC || average <= HIGH_THRESHOLD {
        return;
      }
      var a := if session in alerts then alerts[session] else NO_ALERTS;
      if a.excursion.active {
        return;
      }
      alerts := alerts[session := a.(excursion := Alert(true, average, timestamp, now, latched))];
      Tell(ExcursionNotice(session, average, timestamp, latched));
      latched := latched + 1;
    }

    method LatchOffline(session: u16, timestamp: int, now: int)
      modifies this
      ensures Value() == StoreModel.LatchOffline(old(Value()), session, timestamp, now)
    {
      var a := if session in alerts then alerts[session] else NO_ALERTS;
      if a.offline.active {
        return;
      }
      alerts := alerts[session := a.(offline := Alert(true, 0, timestamp, now, latched))];
      Tell(OfflineNotice(session, timestamp, latched));
      latched := latched + 1;
    }

    method Ack(session: u16, now: int) returns (result: AckResult)
      modifies this`alerts
      ensures Value() == StoreModel.Ack(old(Value()), session)
      ensures result == AckReport(old(Value()), session, now)
    {
      result := AckResult(false, 0, false, false, 0);
      if session !in alerts {
        return;
      }
      var a := alerts[session];
      if a.offline.active {
        result := result.(hadOffline := true, offlineMs := Millis(now - a.offline.triggeredAt));
        a := a.(offline := a.offline.(active := false));
      }
      if a.excursion.active {
        result := result.(hadExcursion := true, excursionMs := Millis(now - a.excursion.triggeredAt));
        var key := MakeKey(session, TEMP_METRIC);
        if key in history && history[key].average <= HIGH_THRESHOLD {
          a := a.(excursion := a.excursion.(active := false));
        } else {
          result := result.(excursionStillActive := true);
        }
      }
      alerts := alerts[session := a];
    }

    method History(session: u16, metric: byte) returns (result: seq<Sample>)
      ensures result == RingSamples(RingAt(Value(), MakeKey(session, metric)))
    {
      var key := MakeKey(session, metric);
      if key !in history {
        return [];
      }
      var h := history[key];
      result := [];
      var oldest := if h.count < HISTORY then 0 else h.next;
      for i := 0 to h.count
        invariant result == RingSamples(h)[..i]
      {
        result := result + [h.entries[(oldest + i) % HISTORY]];
      }
    }
  }
}
