/** What holds of the store in every run: history, alert latching, and who was told what. */
module StoreRuns {
  import opened Bits
  import opened Common
  import opened Smoothing
  import opened StoreModel

  /** A device's time and the server's. */
  datatype Tick = Tick(timestamp: int, now: int)

  // ---- History and average ----

  /** The samples a run recorded for one (session, metric), in order. */
  function Recorded(ops: seq<Op>, session: u16, metric: byte): seq<Sample>
  {
    if ops == [] then []
    else
      var n := |ops| - 1;
      var before := Recorded(ops[..n], session, metric);
      match ops[n]
      case DoRecord(s, m, value, timestamp, _) =>
        if s == session && m == metric then before + [Sample(timestamp, value)] else before
      case _ => before
  }

  function Values(samples: seq<Sample>): (r: seq<int>)
    ensures |r| == |samples|
  {
    seq(|samples|, i requires 0 <= i < |samples| => samples[i].value)
  }

  function Latest<T>(s: seq<T>, n: nat): seq<T>
  {
    if |s| <= n then s else s[|s| - n..]
  }

  /** The slot of the `i`-th sample recorded holds it. */
  predicate Holds(h: Ring, samples: seq<Sample>, i: nat)
    requires i < |samples|
  {
    h.entries[i % HISTORY] == samples[i]
  }

  ghost predicate CountTracks(h: Ring, samples: seq<Sample>)
  {
    h.count == |Latest(samples, HISTORY)| && h.next == |samples| % HISTORY
  }

  ghost predicate AverageTracks(h: Ring, samples: seq<Sample>)
  {
    && (h.haveAverage <==> samples != [])
    && (samples != [] ==> h.average == Average(Values(samples)))
  }

  /** The ring holds the latest samples of `samples`, and the average of all of them. */
  ghost predicate Tracks(h: Ring, samples: seq<Sample>)
  {
    && CountTracks(h, samples)
    && (forall i :: |samples| - h.count <= i < |samples| ==> Holds(h, samples, i))
    && AverageTracks(h, samples)
  }

  lemma ModApart(i: nat, n: nat)
    requires i < n < i + HISTORY
    ensures i % HISTORY != n % HISTORY
  {
  }

  lemma ModShift(n: nat, i: nat)
    requires HISTORY <= n
    ensures (n % HISTORY + i) % HISTORY == (n - HISTORY + i) % HISTORY
  {
  }

  lemma RecordRingHolds(h: Ring, samples: seq<Sample>, x: Sample, i: nat)
    requires h.next == |samples| % HISTORY && i <= |samples| < i + HISTORY
    requires i < |samples| ==> Holds(h, samples, i)
    ensures Holds(RecordRing(h, x), samples + [x], i)
  {
    if i < |samples| {
      ModApart(i, |samples|);
    }
  }

  lemma ValuesAppend(samples: seq<Sample>, x: Sample)
    ensures Values(samples + [x]) == Values(samples) + [x.value]
  {
  }

  lemma AverageAppend(values: seq<int>, v: int)
    ensures Average(values + [v]) == if values == [] then v else Smooth(Average(values), v)
  {
    assert (values + [v])[..|values|] == values;
  }

  lemma RecordRingCount(h: Ring, samples: seq<Sample>, x: Sample)
    requires CountTracks(h, samples)
    ensures CountTracks(RecordRing(h, x), samples + [x])
  {
    ModNext(|samples|);
    assert |samples + [x]| == |samples| + 1;
  }

  lemma ModNext(n: nat)
    ensures (n % HISTORY + 1) % HISTORY == (n + 1) % HISTORY
  {
  }

  lemma RecordRingAverage(h: Ring, samples: seq<Sample>, x: Sample)
    requires AverageTracks(h, samples)
    ensures AverageTracks(RecordRing(h, x), samples + [x])
  {
    ValuesAppend(samples, x);
    AverageAppend(Values(samples), x.value);
  }

  lemma RecordRingTracks(h: Ring, samples: seq<Sample>, x: Sample)
    requires Tracks(h, samples)
    ensures Tracks(RecordRing(h, x), samples + [x])
  {
    RecordRingCount(h, samples, x);
    RecordRingAverage(h, samples, x);
    var n := |samples| + 1;
    forall i | n - RecordRing(h, x).count <= i < n
      ensures Holds(RecordRing(h, x), samples + [x], i)
    {
      RecordRingHolds(h, samples, x, i);
    }
  }

  lemma TracksReturnsLatest(h: Ring, samples: seq<Sample>)
    requires Tracks(h, samples)
    ensures RingSamples(h) == Latest(samples, HISTORY)
  {
    var n := |samples|;
    forall i | 0 <= i < h.count
      ensures RingSamples(h)[i] == Latest(samples, HISTORY)[i]
    {
      assert Holds(h, samples, n - h.count + i);
      if h.count == HISTORY {
        ModShift(n, i);
      }
    }
  }

  /** An operation touches the ring of (session, metric) only if it records a sample for them. */
  lemma ApplyRing(s: Store, op: Op, session: u16, metric: byte)
    ensures var key := MakeKey(session, metric);
            var mine := op.DoRecord? && op.session == session && op.metric == metric;
            && RingAt(Apply(s, op), key)
               == (if mine then RecordRing(RingAt(s, key), Sample(op.timestamp, op.value)) else RingAt(s, key))
            && (key in Apply(s, op).history <==> key in s.history || mine)
  {
    if op.DoRecord? && MakeKey(op.session, op.metric) == MakeKey(session, metric) {
      KeysAreDistinct(op.session, op.metric, session, metric);
    }
  }

  lemma {:induction false} RunTracks(ops: seq<Op>, session: u16, metric: byte)
    ensures var s, key := Run(EMPTY_STORE, ops), MakeKey(session, metric);
            && Tracks(RingAt(s, key), Recorded(ops, session, metric))
            && (key in s.history <==> Recorded(ops, session, metric) != [])
  {
    if ops != [] {
      var n := |ops| - 1;
      RunTracks(ops[..n], session, metric);
      var s, op := Run(EMPTY_STORE, ops[..n]), ops[n];
      ApplyRing(s, op, session, metric);
      if op.DoRecord? && op.session == session && op.metric == metric {
        RecordRingTracks(RingAt(s, MakeKey(session, metric)), Recorded(ops[..n], session, metric),
                         Sample(op.timestamp, op.value));
      }
    }
  }

  /** `history` returns the last 64 samples of that session and metric, oldest first, whatever was
      recorded for others and however often the ring wrapped. */
  lemma HistoryReturnsLatest(ops: seq<Op>, session: u16, metric: byte)
    ensures RingSamples(RingAt(Run(EMPTY_STORE, ops), MakeKey(session, metric)))
            == Latest(Recorded(ops, session, metric), 64)
  {
    RunTracks(ops, session, metric);
    TracksReturnsLatest(RingAt(Run(EMPTY_STORE, ops), MakeKey(session, metric)), Recorded(ops, session, metric));
  }

  /** The smoothed reading lies between the smallest and the largest sample recorded. */
  lemma AverageStaysInRange(ops: seq<Op>, session: u16, metric: byte, lo: int, hi: int)
    requires Recorded(ops, session, metric) != []
    requires Within(Values(Recorded(ops, session, metric)), lo, hi)
    ensures lo <= RingAt(Run(EMPTY_STORE, ops), MakeKey(session, metric)).average <= hi
  {
    RunTracks(ops, session, metric);
    AverageWithin(Values(Recorded(ops, session, metric)), lo, hi);
  }

  /** In every run, whatever happens in between: the first sample of a session and metric is its average, and
      each further one moves the stored average by exactly the floor of a quarter of the difference. */
  lemma EachSampleMovesAQuarter(ops: seq<Op>, op: Op)
    requires op.DoRecord?
    ensures var key := MakeKey(op.session, op.metric);
            var before, after := Run(EMPTY_STORE, ops), Run(EMPTY_STORE, ops + [op]);
            && key in after.history
            && (key !in before.history ==> after.history[key].average == op.value)
            && (key in before.history ==> QuarterStep(before.history[key].average, op.value, after.history[key].average))
  {
    var s, key := Run(EMPTY_STORE, ops), MakeKey(op.session, op.metric);
    RunLast(EMPTY_STORE, ops, op);
    RunTracks(ops, op.session, op.metric);
    ApplyRing(s, op, op.session, op.metric);
    MovesAQuarter(RingAt(s, key).average, op.value, Smooth(RingAt(s, key).average, op.value));
  }

  /** No other operation, and no sample of another session or metric, touches it. */
  lemma AverageOnlyMovesBySamples(s: Store, op: Op, session: u16, metric: byte)
    requires !(op.DoRecord? && op.session == session && op.metric == metric)
    ensures RingAt(Apply(s, op), MakeKey(session, metric)) == RingAt(s, MakeKey(session, metric))
  {
    ApplyRing(s, op, session, metric);
  }

  // ---- 32-bit arithmetic ----

  predicate RecordsFor(op: Op, session: u16, metric: byte)
  {
    op.DoRecord? && op.session == session && op.metric == metric
  }

  /** The smoothing subtraction of this operation leaves 32 bits. */
  predicate Overflows(s: Store, op: Op)
  {
    op.DoRecord? && var h := RingAt(s, MakeKey(op.session, op.metric)); h.haveAverage && !FitsI32(op.value - h.average)
  }

  /** No sample of this session and metric overflows anywhere in the run. */
  predicate NoOverflowIn(ops: seq<Op>, session: u16, metric: byte)
  {
    ops == [] ||
    var n := |ops| - 1;
    NoOverflowIn(ops[..n], session, metric)
    && (RecordsFor(ops[n], session, metric) ==> !Overflows(Run(EMPTY_STORE, ops[..n]), ops[n]))
  }

  lemma {:induction false} NarrowRunFits(ops: seq<Op>, session: u16, metric: byte, lo: int, hi: int)
    requires Within(Values(Recorded(ops, session, metric)), lo, hi) && hi - lo < 0x8000_0000
    ensures NoOverflowIn(ops, session, metric)
  {
    if ops != [] {
      var n := |ops| - 1;
      var op, before := ops[n], Recorded(ops[..n], session, metric);
      if RecordsFor(op, session, metric) {
        ValuesAppend(before, Sample(op.timestamp, op.value));
        WithinFront(Values(before), op.value, lo, hi);
        NarrowRunFits(ops[..n], session, metric, lo, hi);
        RunTracks(ops[..n], session, metric);
        if before != [] {
          NoOverflow(Values(before), op.value, lo, hi);
        }
      } else {
        NarrowRunFits(ops[..n], session, metric, lo, hi);
      }
    }
  }

  lemma WithinFront(values: seq<int>, v: int, lo: int, hi: int)
    requires Within(values + [v], lo, hi)
    ensures Within(values, lo, hi)
  {
    assert forall i :: 0 <= i < |values| ==> (values + [v])[i] == values[i];
  }

  /** The smallest overflowing run: a second reading 2^31 or more above the first. */
  lemma WideStepOverflows(a: Op, b: Op, session: u16, metric: byte)
    requires RecordsFor(a, session, metric) && RecordsFor(b, session, metric) && b.value - a.value >= 0x8000_0000
    ensures Values(Recorded([a, b], session, metric)) == [a.value, b.value] && !NoOverflowIn([a, b], session, metric)
  {
    assert [a, b][..1] == [a] && [a][..0] == [];
    assert Run(EMPTY_STORE, [a]) == Apply(Run(EMPTY_STORE, []), a);
    assert Recorded([a], session, metric) == Recorded([], session, metric) + [Sample(a.timestamp, a.value)];
    ApplyRing(EMPTY_STORE, a, session, metric);
  }

  /** In every run, whatever else it records, the samples of one session and metric stay within 32-bit
      arithmetic as long as they span less than 2^31; and no wider range is safe. */
  lemma RunsStayIn32Bits(session: u16, metric: byte, lo: int, hi: int)
    requires lo <= hi
    ensures (forall ops :: Within(Values(Recorded(ops, session, metric)), lo, hi) ==> NoOverflowIn(ops, session, metric))
            <==> hi - lo < 0x8000_0000
  {
    if hi - lo < 0x8000_0000 {
      forall ops | Within(Values(Recorded(ops, session, metric)), lo, hi)
        ensures NoOverflowIn(ops, session, metric)
      {
        NarrowRunFits(ops, session, metric, lo, hi);
      }
    } else {
      var a, b := DoRecord(session, metric, lo, 0, 0), DoRecord(session, metric, hi, 0, 0);
      WideStepOverflows(a, b, session, metric);
      assert Within(Values(Recorded([a, b], session, metric)), lo, hi);
    }
  }

  // ---- Excursions ----

  predicate Hot(s: Store, session: u16)
  {
    var key := MakeKey(session, TEMP_METRIC);
    key in s.history && s.history[key].average > HIGH_THRESHOLD
  }

  /** Too warm implies an open alert, and an open alert belongs to a session with readings. */
  predicate SessionOk(s: Store, session: u16)
  {
    var active := AlertsAt(s, session).excursion.active;
    && (Hot(s, session) ==> active)
    && (active ==> MakeKey(session, TEMP_METRIC) in s.history)
  }

  lemma ApplyKeepsSessionOk(s: Store, op: Op, session: u16)
    requires SessionOk(s, session)
    ensures SessionOk(Apply(s, op), session)
  {
    if op.DoRecord? && MakeKey(op.session, op.metric) == MakeKey(session, TEMP_METRIC) {
      KeysAreDistinct(op.session, op.metric, session, TEMP_METRIC);
    }
  }

  /** In every reachable state a session whose smoothed temperature exceeds the threshold has an open
      excursion alert. */
  lemma {:induction false} HotIsAlerted(ops: seq<Op>, session: u16)
    ensures SessionOk(Run(EMPTY_STORE, ops), session)
  {
    if ops != [] {
      HotIsAlerted(ops[..|ops| - 1], session);
      ApplyKeepsSessionOk(Run(EMPTY_STORE, ops[..|ops| - 1]), ops[|ops| - 1], session);
    }
  }

  /** An acknowledgement that finds the session back within limits. */
  predicate Closes(s: Store, op: Op, session: u16)
  {
    op.DoAck? && op.session == session && !Hot(s, session)
  }

  lemma OpenStep(s: Store, op: Op, session: u16)
    requires SessionOk(s, session) && AlertsAt(s, session).excursion.active
    ensures var a, b := AlertsAt(s, session).excursion, AlertsAt(Apply(s, op), session).excursion;
            b == a.(active := !Closes(s, op, session))
  {
  }

  /** An excursion alert opens only when a temperature sample lifts the smoothed reading over the
      threshold, and then at once; it records that reading and the sample's time. */
  lemma OnlyHotSampleOpens(s: Store, op: Op, session: u16)
    requires !AlertsAt(s, session).excursion.active
    ensures var s' := Apply(s, op);
            var b := AlertsAt(s', session).excursion;
            && (b.active <==> op.DoRecord? && op.session == session && op.metric == TEMP_METRIC && Hot(s', session))
            && (b.active ==> b == Alert(true, s'.history[MakeKey(session, TEMP_METRIC)].average, op.timestamp, op.now, s.latched))
  {
  }

  // ---- Episodes and reported durations ----

  /** Over any run, a session's excursion record is either the same record or belongs to a later episode. */
  lemma {:induction false} RecordFixedWithinEpisode(s: Store, ops: seq<Op>, session: u16)
    ensures var s' := Run(s, ops);
            var a, b := AlertsAt(s, session).excursion, AlertsAt(s', session).excursion;
            && s.latched <= s'.latched
            && (b == a.(active := b.active) || s.latched <= b.episode)
  {
    if ops != [] {
      RecordFixedWithinEpisode(s, ops[..|ops| - 1], session);
      EpisodeStep(Run(s, ops[..|ops| - 1]), ops[|ops| - 1], session);
    }
  }

  lemma EpisodeStep(s: Store, op: Op, session: u16)
    ensures var s' := Apply(s, op);
            var a, b := AlertsAt(s, session).excursion, AlertsAt(s', session).excursion;
            && s.latched <= s'.latched
            && (b == a.(active := b.active) || s.latched == b.episode)
  {
  }

  lemma {:induction false} EpisodesAreNumbered(ops: seq<Op>, session: u16)
    ensures var s := Run(EMPTY_STORE, ops);
            AlertsAt(s, session).excursion.active ==> AlertsAt(s, session).excursion.episode < s.latched
  {
    if ops != [] {
      var s, op := Run(EMPTY_STORE, ops[..|ops| - 1]), ops[|ops| - 1];
      EpisodesAreNumbered(ops[..|ops| - 1], session);
      EpisodeStep(s, op, session);
      if !AlertsAt(s, session).excursion.active && AlertsAt(Apply(s, op), session).excursion.active {
        OpeningCounts(s, op, session);
      }
    }
  }

  lemma OpeningCounts(s: Store, op: Op, session: u16)
    requires !AlertsAt(s, session).excursion.active && AlertsAt(Apply(s, op), session).excursion.active
    ensures Apply(s, op).latched == s.latched + 1 && AlertsAt(Apply(s, op), session).excursion.episode == s.latched
  {
  }

  lemma MillisMonotone(a: int, b: int)
    requires a <= b
    ensures Millis(a) <= Millis(b)
  {
  }

  lemma RunLast(s: Store, ops: seq<Op>, op: Op)
    ensures Run(s, ops + [op]) == Apply(Run(s, ops), op)
  {
    assert (ops + [op])[..|ops|] == ops;
  }

  lemma {:induction false} RunConcat(s: Store, a: seq<Op>, b: seq<Op>)
    ensures Run(s, a + b) == Run(Run(s, a), b)
  {
    if b == [] {
      assert a + b == a;
    } else {
      assert (a + b)[..|a + b| - 1] == a + b[..|b| - 1];
      RunConcat(s, a, b[..|b| - 1]);
    }
  }

  /** No operation of the run acknowledges the session while it is within limits. */
  predicate NeverCloses(s: Store, ops: seq<Op>, session: u16)
  {
    ops == [] ||
    (NeverCloses(s, ops[..|ops| - 1], session) && !Closes(Run(s, ops[..|ops| - 1]), ops[|ops| - 1], session))
  }

  lemma {:induction false} RunKeepsSessionOk(s: Store, ops: seq<Op>, session: u16)
    requires SessionOk(s, session)
    ensures SessionOk(Run(s, ops), session)
  {
    if ops != [] {
      RunKeepsSessionOk(s, ops[..|ops| - 1], session);
      ApplyKeepsSessionOk(Run(s, ops[..|ops| - 1]), ops[|ops| - 1], session);
    }
  }

  lemma {:induction false} OpenWhileNotClosed(s: Store, ops: seq<Op>, session: u16)
    requires SessionOk(s, session) && AlertsAt(s, session).excursion.active
    requires AlertsAt(s, session).excursion.episode < s.latched
    ensures var a, b := AlertsAt(s, session).excursion, AlertsAt(Run(s, ops), session).excursion;
            NeverCloses(s, ops, session) <==> b.active && b.episode == a.episode
  {
    if ops != [] {
      var front, op := ops[..|ops| - 1], ops[|ops| - 1];
      OpenWhileNotClosed(s, front, session);
      RecordFixedWithinEpisode(s, front, session);
      RecordFixedWithinEpisode(s, ops, session);
      RunKeepsSessionOk(s, front, session);
      EpisodeStep(Run(s, front), op, session);
      if AlertsAt(Run(s, front), session).excursion.active {
        OpenStep(Run(s, front), op, session);
      } else {
        OnlyHotSampleOpens(Run(s, front), op, session);
      }
    }
  }

  /** From any reachable state and over any further run, an open excursion alert is still open, in the
      same episode, if and only if no acknowledgement of that session came while its smoothed
      temperature was at most the threshold; and while open nothing recorded in it changes. */
  lemma OpenUntilAcknowledged(ops: seq<Op>, more: seq<Op>, session: u16)
    requires AlertsAt(Run(EMPTY_STORE, ops), session).excursion.active
    ensures var s := Run(EMPTY_STORE, ops);
            var a, b := AlertsAt(s, session).excursion, AlertsAt(Run(s, more), session).excursion;
            && (NeverCloses(s, more, session) <==> b.active && b.episode == a.episode)
            && (NeverCloses(s, more, session) ==> b == a)
  {
    HotIsAlerted(ops, session);
    EpisodesAreNumbered(ops, session);
    OpenWhileNotClosed(Run(EMPTY_STORE, ops), more, session);
    RecordFixedWithinEpisode(Run(EMPTY_STORE, ops), more, session);
  }

  lemma LaterReportIsLonger(s: Store, s': Store, session: u16, now: int, later: int)
    requires AlertsAt(s, session).excursion == AlertsAt(s', session).excursion && now <= later
    ensures AckReport(s, session, now).excursionMs <= AckReport(s', session, later).excursionMs
  {
    var t := AlertsAt(s, session).excursion.triggeredAt;
    MillisMonotone(now - t, later - t);
  }

  /** Two acknowledgements within one episode, whatever happens in between: the second reports at
      least the duration of the first as long as the clock does not go back. */
  lemma RepeatedAcksReportMore(ops: seq<Op>, more: seq<Op>, session: u16, now: int, later: int)
    requires now <= later
    requires var s := Run(EMPTY_STORE, ops);
             var a, b := AlertsAt(s, session).excursion, AlertsAt(Run(s, more), session).excursion;
             a.active && b.active && a.episode == b.episode
    ensures var s := Run(EMPTY_STORE, ops);
            && AlertsAt(s, session).excursion == AlertsAt(Run(s, more), session).excursion
            && AckReport(s, session, now).excursionMs <= AckReport(Run(s, more), session, later).excursionMs
  {
    var s := Run(EMPTY_STORE, ops);
    EpisodesAreNumbered(ops, session);
    RecordFixedWithinEpisode(s, more, session);
    LaterReportIsLonger(s, Run(s, more), session, now, later);
  }

  /** An average of exactly the threshold counts as recovered: these two readings latch an alert and then
      bring the average to 5500, and the acknowledgement closes it. */
  lemma ClosesAtThreshold(session: u16, now: int)
    ensures var s := Run(EMPTY_STORE, [DoRecord(session, TEMP_METRIC, 5600, 0, now), DoRecord(session, TEMP_METRIC, 5200, 0, now)]);
            && TempRing(s, session).average == 5500
            && AlertsAt(s, session).excursion.active && !AlertsAt(Ack(s, session), session).excursion.active
  {
    var a, b := DoRecord(session, TEMP_METRIC, 5600, 0, now), DoRecord(session, TEMP_METRIC, 5200, 0, now);
    assert [a, b][..1] == [a] && [a][..0] == [];
    var s1 := Apply(EMPTY_STORE, a);
    assert Run(EMPTY_STORE, [a]) == Apply(Run(EMPTY_STORE, []), a);
    ApplyRing(EMPTY_STORE, a, session, TEMP_METRIC);
    ApplyRing(s1, b, session, TEMP_METRIC);
  }

  // ---- What an acknowledgement reports ----

  /** So many whole milliseconds in a difference of nanoseconds, rounded towards zero. */
  predicate InMillis(nanos: int, ms: int)
  {
    if nanos >= 0 then ms * 1_000_000 <= nanos < (ms + 1) * 1_000_000
    else (ms - 1) * 1_000_000 < nanos <= ms * 1_000_000
  }

  lemma MillisAre(nanos: int, ms: int)
    ensures ms == Millis(nanos) <==> InMillis(nanos, ms)
  {
  }

  /** The temperatures recorded so far average over 5500. */
  predicate TooWarm(ops: seq<Op>, session: u16)
  {
    var samples := Recorded(ops, session, 0);
    samples != [] && Average(Values(samples)) > 5500
  }

  /** Since when a session is out of range, from the operations alone: the first temperature sample that brought
      the average over 5500 since an acknowledgement found it back within. */
  function ExcursionSince(ops: seq<Op>, session: u16): Option<Tick>
  {
    if ops == [] then None
    else
      var front, op := ops[..|ops| - 1], ops[|ops| - 1];
      var before := ExcursionSince(front, session);
      if RecordsFor(op, session, 0) && before.None? && TooWarm(ops, session) then Some(Tick(op.timestamp, op.now))
      else if op.DoAck? && op.session == session && !TooWarm(front, session) then None
      else before
  }

  lemma HotIsTooWarm(ops: seq<Op>, session: u16)
    ensures Hot(Run(EMPTY_STORE, ops), session) <==> TooWarm(ops, session)
  {
    RunTracks(ops, session, TEMP_METRIC);
  }

  /** The alert is open since that tick, or not open. */
  predicate OpenSince(a: Alert, since: Option<Tick>)
  {
    (a.active <==> since.Some?) && (since.Some? ==> a.timestamp == since.value.timestamp && a.triggeredAt == since.value.now)
  }

  lemma {:induction false} ExcursionFollowsRun(ops: seq<Op>, session: u16)
    ensures OpenSince(AlertsAt(Run(EMPTY_STORE, ops), session).excursion, ExcursionSince(ops, session))
  {
    if ops != [] {
      var front, op := ops[..|ops| - 1], ops[|ops| - 1];
      ExcursionFollowsRun(front, session);
      HotIsTooWarm(front, session);
      HotIsTooWarm(ops, session);
      HotIsAlerted(front, session);
      ExcursionFollowsStep(Run(EMPTY_STORE, front), op, session, ExcursionSince(front, session));
    }
  }

  lemma ExcursionFollowsStep(s: Store, op: Op, session: u16, since: Option<Tick>)
    requires SessionOk(s, session) && OpenSince(AlertsAt(s, session).excursion, since)
    ensures var a, s' := AlertsAt(Apply(s, op), session).excursion, Apply(s, op);
            OpenSince(a, if RecordsFor(op, session, 0) && since.None? && Hot(s', session) then Some(Tick(op.timestamp, op.now))
                         else if op.DoAck? && op.session == session && !Hot(s, session) then None
                         else since)
  {
    if AlertsAt(s, session).excursion.active {
      OpenStep(s, op, session);
    } else {
      OnlyHotSampleOpens(s, op, session);
    }
  }

  /** In every run an acknowledgement reports an excursion exactly if one is open; says that it is still active
      exactly if it stays open, which is if the average is still over 5500; and gives the whole milliseconds since
      the sample that opened it. */
  lemma AckReportsExcursion(ops: seq<Op>, session: u16, now: int)
    ensures var s, since := Run(EMPTY_STORE, ops), ExcursionSince(ops, session);
            var r := AckReport(s, session, now);
            && (r.hadExcursion <==> since.Some?)
            && (r.excursionStillActive <==> since.Some? && TooWarm(ops, session))
            && (r.excursionStillActive <==> AlertsAt(Apply(s, DoAck(session, now)), session).excursion.active)
            && (if since.Some? then InMillis(now - since.value.now, r.excursionMs) else r.excursionMs == 0)
  {
    var s := Run(EMPTY_STORE, ops);
    ExcursionFollowsRun(ops, session);
    HotIsTooWarm(ops, session);
    HotIsAlerted(ops, session);
    var a := AlertsAt(s, session).excursion;
    if a.active {
      OpenStep(s, DoAck(session, now), session);
      MillisAre(now - a.triggeredAt, Millis(now - a.triggeredAt));
    } else {
      OnlyHotSampleOpens(s, DoAck(session, now), session);
    }
  }

  // ---- Offline alerts ----

  /** Since when a session is offline: the first latch since its last acknowledgement. */
  function OfflineSince(ops: seq<Op>, session: u16): Option<Tick>
  {
    if ops == [] then None
    else
      var n := |ops| - 1;
      var before := OfflineSince(ops[..n], session);
      match ops[n]
      case DoLatchOffline(id, timestamp, now) => if id == session && before.None? then Some(Tick(timestamp, now)) else before
      case DoAck(id, _) => if id == session then None else before
      case _ => before
  }

  lemma OfflineStep(s: Store, op: Op, session: u16)
    ensures var s' := Apply(s, op);
            var a, b := AlertsAt(s, session).offline, AlertsAt(s', session).offline;
            && s.latched <= s'.latched
            && if op.DoLatchOffline? && op.session == session && !a.active then b == Alert(true, 0, op.timestamp, op.now, s.latched)
               else b == a.(active := a.active && !(op.DoAck? && op.session == session))
  {
  }

  /** In every run an OFFLINE alert is open exactly if a latch came since the last acknowledgement of that
      session; it keeps the times of the first such latch, and an acknowledgement reports the time since. */
  lemma {:induction false} OfflineSinceFirstLatch(ops: seq<Op>, session: u16, now: int)
    ensures var s, since := Run(EMPTY_STORE, ops), OfflineSince(ops, session);
            var a, r := AlertsAt(s, session).offline, AckReport(s, session, now);
            && (a.active <==> since.Some?) && (r.hadOffline <==> since.Some?)
            && (since.Some? ==> a.timestamp == since.value.timestamp && a.triggeredAt == since.value.now
                                && InMillis(now - since.value.now, r.offlineMs) && a.episode < s.latched)
            && (since.None? ==> r.offlineMs == 0)
  {
    if ops != [] {
      OfflineSinceFirstLatch(ops[..|ops| - 1], session, now);
      OfflineStep(Run(EMPTY_STORE, ops[..|ops| - 1]), ops[|ops| - 1], session);
    }
    var t := AlertsAt(Run(EMPTY_STORE, ops), session).offline.triggeredAt;
    MillisAre(now - t, Millis(now - t));
  }

  predicate NeverAcked(ops: seq<Op>, session: u16)
  {
    ops == [] ||
    (NeverAcked(ops[..|ops| - 1], session) && !(ops[|ops| - 1].DoAck? && ops[|ops| - 1].session == session))
  }

  lemma {:induction false} OfflineWhileNotAcked(s: Store, ops: seq<Op>, session: u16)
    requires AlertsAt(s, session).offline.active && AlertsAt(s, session).offline.episode < s.latched
    ensures var a, b := AlertsAt(s, session).offline, AlertsAt(Run(s, ops), session).offline;
            && s.latched <= Run(s, ops).latched
            && (NeverAcked(ops, session) ==> b == a)
            && (!NeverAcked(ops, session) ==> !b.active || s.latched <= b.episode)
  {
    if ops != [] {
      OfflineWhileNotAcked(s, ops[..|ops| - 1], session);
      OfflineStep(Run(s, ops[..|ops| - 1]), ops[|ops| - 1], session);
    }
  }

  /** From any reachable state and over any further run, an open OFFLINE alert is still open in the same
      episode, with nothing recorded in it changed, if and only if the session was not acknowledged. */
  lemma OfflineUntilAcknowledged(ops: seq<Op>, more: seq<Op>, session: u16)
    requires AlertsAt(Run(EMPTY_STORE, ops), session).offline.active
    ensures var s := Run(EMPTY_STORE, ops);
            var a, b := AlertsAt(s, session).offline, AlertsAt(Run(s, more), session).offline;
            && (NeverAcked(more, session) <==> b.active && b.episode == a.episode)
            && (NeverAcked(more, session) ==> b == a)
  {
    OfflineSinceFirstLatch(ops, session, 0);
    OfflineWhileNotAcked(Run(EMPTY_STORE, ops), more, session);
  }

  // ---- Constant input ----

  /** Temperature samples of one value, one per tick. */
  function SteadyOps(session: u16, value: int, ticks: seq<Tick>): (r: seq<Op>)
    ensures |r| == |ticks|
  {
    seq(|ticks|, i requires 0 <= i < |ticks| =>
      DoRecord(session, TEMP_METRIC, value, ticks[i].timestamp, ticks[i].now))
  }

  function TempRing(s: Store, session: u16): Ring
  {
    RingAt(s, MakeKey(session, TEMP_METRIC))
  }

  lemma {:induction false} SteadyRun(s: Store, session: u16, value: int, ticks: seq<Tick>)
    requires TempRing(s, session).haveAverage
    ensures var h := TempRing(Run(s, SteadyOps(session, value, ticks)), session);
            h.haveAverage && h.average == Steady(TempRing(s, session).average, value, |ticks|)
  {
    if ticks != [] {
      var n := |ticks| - 1;
      SteadyRun(s, session, value, ticks[..n]);
      assert SteadyOps(session, value, ticks)[..n] == SteadyOps(session, value, ticks[..n]);
    }
  }

  /** Steady input at or below the threshold lets an acknowledgement close the alert once enough
      samples have come in; steady input four above it latches. */
  lemma SteadyInputDecides(ops: seq<Op>, session: u16, value: int, ticks: seq<Tick>)
    requires var h := TempRing(Run(EMPTY_STORE, ops), session);
             h.haveAverage && |ticks| >= Distance(h.average, SteadyLimit(h.average, value))
    ensures var s := Run(EMPTY_STORE, ops + SteadyOps(session, value, ticks));
            && (value <= HIGH_THRESHOLD ==> !AlertsAt(Ack(s, session), session).excursion.active)
            && (value >= HIGH_THRESHOLD + 4 ==> AlertsAt(s, session).excursion.active)
  {
    var more := SteadyOps(session, value, ticks);
    var s0 := Run(EMPTY_STORE, ops);
    RunConcat(EMPTY_STORE, ops, more);
    SteadyRun(s0, session, value, ticks);
    SteadyReachesLimit(TempRing(s0, session).average, value, |ticks|);
    HotIsAlerted(ops + more, session);
    RunTracks(ops + more, session, TEMP_METRIC);
  }

  /** From a quiet state at or below the threshold, no amount of steady input up to three above it
      ever latches. */
  lemma {:induction false} JustAboveNeverLatches(s: Store, session: u16, value: int, ticks: seq<Tick>)
    requires TempRing(s, session).haveAverage && TempRing(s, session).average <= HIGH_THRESHOLD
    requires !AlertsAt(s, session).excursion.active && value <= HIGH_THRESHOLD + 3
    ensures !AlertsAt(Run(s, SteadyOps(session, value, ticks)), session).excursion.active
    decreases |ticks|
  {
    if ticks != [] {
      var n := |ticks| - 1;
      var ops := SteadyOps(session, value, ticks);
      assert ops[..n] == SteadyOps(session, value, ticks[..n]);
      JustAboveNeverLatches(s, session, value, ticks[..n]);
      SteadyRun(s, session, value, ticks);
      SteadyProgress(TempRing(s, session).average, value, |ticks|);
      CoolSampleOpensNothing(Run(s, ops[..n]), ops[n]);
    }
  }

  lemma CoolSampleOpensNothing(s: Store, op: Op)
    requires op.DoRecord? && op.metric == TEMP_METRIC
    requires TempRing(Apply(s, op), op.session).average <= HIGH_THRESHOLD
    ensures Apply(s, op).alerts == s.alerts
  {
  }

  /** Steady input latches a quiet session exactly when it is at least four above the threshold. */
  lemma SteadyLatchesIff(ops: seq<Op>, session: u16, value: int)
    requires var s := Run(EMPTY_STORE, ops);
             && TempRing(s, session).haveAverage && TempRing(s, session).average <= HIGH_THRESHOLD
             && !AlertsAt(s, session).excursion.active
    ensures (exists ticks :: AlertsAt(Run(EMPTY_STORE, ops + SteadyOps(session, value, ticks)), session).excursion.active)
            <==> value >= HIGH_THRESHOLD + 4
  {
    var s := Run(EMPTY_STORE, ops);
    var a := TempRing(s, session).average;
    if value >= HIGH_THRESHOLD + 4 {
      var ticks := seq(Distance(a, SteadyLimit(a, value)), _ => Tick(0, 0));
      SteadyInputDecides(ops, session, value, ticks);
    } else {
      forall ticks
        ensures !AlertsAt(Run(EMPTY_STORE, ops + SteadyOps(session, value, ticks)), session).excursion.active
      {
        RunConcat(EMPTY_STORE, ops, SteadyOps(session, value, ticks));
        JustAboveNeverLatches(s, session, value, ticks);
      }
    }
  }
}
