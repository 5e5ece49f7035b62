/** Who has been told about which alert: in every run, how many lines a subscriber has received for each alert
    episode that is open, live or by replay; exactly one if it registers once at a time. */
module StoreFanout {
  import opened Bits
  import opened Sequences
  import opened StoreModel

  /** The lines about one alert episode. */
  function EpisodeLines(log: seq<Notice>, episode: nat): seq<Notice>
  {
    if log == [] then []
    else
      var n := |log| - 1;
      EpisodeLines(log[..n], episode)
      + if !log[n].Reading? && log[n].episode == episode then [log[n]] else []
  }

  lemma {:induction false} EpisodeLinesConcat(a: seq<Notice>, b: seq<Notice>, episode: nat)
    ensures EpisodeLines(a + b, episode) == EpisodeLines(a, episode) + EpisodeLines(b, episode)
  {
    if b == [] {
      assert a + b == a;
    } else {
      assert (a + b)[..|a + b| - 1] == a + b[..|b| - 1];
      EpisodeLinesConcat(a, b[..|b| - 1], episode);
    }
  }

  lemma EpisodeLinesOne(n: Notice, episode: nat)
    ensures EpisodeLines([n], episode) == if !n.Reading? && n.episode == episode then [n] else []
  {
    assert [n][..0] == [];
  }

  /** No line in the log is about an episode numbered `latched` or later. */
  predicate LogBelow(log: seq<Notice>, latched: nat)
  {
    forall i :: 0 <= i < |log| ==> log[i].Reading? || log[i].episode < latched
  }

  lemma {:induction false} NothingAboutTheFuture(log: seq<Notice>, episode: nat)
    requires LogBelow(log, episode)
    ensures EpisodeLines(log, episode) == []
  {
    if log != [] {
      NothingAboutTheFuture(log[..|log| - 1], episode);
    }
  }

  // ---- Telling the list ----

  function Times(n: Notice, k: nat): seq<Notice>
  {
    seq(k, _ => n)
  }

  /** Each subscriber is told as often as it is listed, and nobody else is. */
  lemma {:induction false} NotifyTellsEachEntry(inbox: map<Subscriber, seq<Notice>>, subs: seq<Subscriber>, n: Notice, sub: Subscriber)
    ensures Log(Notify(inbox, subs, n), sub) == Log(inbox, sub) + Times(n, multiset(subs)[sub])
  {
    if subs != [] {
      var front: seq<Subscriber>, last := subs[..|subs| - 1], subs[|subs| - 1];
      NotifyTellsEachEntry(inbox, front, n, sub);
      SplitLast(subs);
      assert multiset(subs)[sub] == multiset(front)[sub] + if last == sub then 1 else 0;
      TimesMore(Log(inbox, sub), n, multiset(front)[sub]);
    }
  }

  lemma TimesMore(log: seq<Notice>, n: Notice, k: nat)
    ensures log + Times(n, k) + [n] == log + Times(n, k + 1)
  {
  }

  lemma {:induction false} TimesLines(n: Notice, k: nat, episode: nat)
    ensures EpisodeLines(Times(n, k), episode) == if !n.Reading? && n.episode == episode then Times(n, k) else []
  {
    if k > 0 {
      var more := Times(n, k);
      assert more[..k - 1] == Times(n, k - 1);
      TimesLines(n, k - 1, episode);
      SplitLast(more);
    }
  }

  /** What telling the list adds to the lines about one episode. */
  lemma NotifyLines(inbox: map<Subscriber, seq<Notice>>, subs: seq<Subscriber>, n: Notice, sub: Subscriber, episode: nat)
    ensures EpisodeLines(Log(Notify(inbox, subs, n), sub), episode)
            == EpisodeLines(Log(inbox, sub), episode)
               + if !n.Reading? && n.episode == episode then Times(n, multiset(subs)[sub]) else []
  {
    NotifyTellsEachEntry(inbox, subs, n, sub);
    EpisodeLinesConcat(Log(inbox, sub), Times(n, multiset(subs)[sub]), episode);
    TimesLines(n, multiset(subs)[sub], episode);
  }

  lemma NotifyBelow(inbox: map<Subscriber, seq<Notice>>, subs: seq<Subscriber>, n: Notice, sub: Subscriber, latched: nat)
    requires LogBelow(Log(inbox, sub), latched) && (n.Reading? || n.episode < latched)
    ensures LogBelow(Log(Notify(inbox, subs, n), sub), latched)
  {
    NotifyTellsEachEntry(inbox, subs, n, sub);
  }

  lemma {:induction false} ListedOnce(subs: seq<Subscriber>, sub: Subscriber)
    requires Distinct(subs)
    ensures multiset(subs)[sub] == if sub in subs then 1 else 0
  {
    if subs != [] {
      var k := |subs| - 1;
      ListedOnce(subs[..k], sub);
      assert subs == subs[..k] + [subs[k]];
    }
  }

  // ---- Open alerts ----

  /** `n` is the line for an alert that is open. */
  predicate IsOpen(s: Store, n: Notice)
  {
    n in OpenNotices(n.session, AlertsAt(s, n.session))
  }

  ghost predicate EpisodesWf(s: Store)
  {
    && (forall n :: IsOpen(s, n) ==> n.episode < s.latched)
    && (forall n, n' :: IsOpen(s, n) && IsOpen(s, n') && n.episode == n'.episode ==> n == n')
  }

  /** The subscriber has had `due(episode)` lines for each open alert, all of them that alert's line. */
  ghost predicate Told(s: Store, sub: Subscriber, due: nat -> nat)
  {
    && EpisodesWf(s)
    && LogBelow(Log(s.inbox, sub), s.latched)
    && (forall n :: IsOpen(s, n) ==> EpisodeLines(Log(s.inbox, sub), n.episode) == Times(n, due(n.episode)))
  }

  // ---- Steps ----

  /** What a step that registers nobody makes due: a new episode's line once per listing, and nothing else. */
  ghost predicate DueAfter(s: Store, s': Store, sub: Subscriber, due: nat -> nat, due': nat -> nat)
  {
    && (forall episode: nat :: episode < s.latched ==> due'(episode) == due(episode))
    && (s.latched < s'.latched ==> due'(s.latched) == multiset(s.subscribers)[sub])
  }

  lemma SameDue(s: Store, sub: Subscriber, due: nat -> nat, due': nat -> nat)
    requires Told(s, sub, due) && forall episode: nat :: episode < s.latched ==> due'(episode) == due(episode)
    ensures Told(s, sub, due')
  {
  }

  /** A step that only hands out readings and changes no alert. */
  lemma ReadingKeepsTold(s: Store, s': Store, n: Notice, sub: Subscriber, due: nat -> nat)
    requires Told(s, sub, due) && n.Reading?
    requires s'.alerts == s.alerts && s'.latched == s.latched && s'.inbox == Notify(s.inbox, s.subscribers, n)
    ensures Told(s', sub, due)
  {
    SameAlerts(s, s');
    NotifyBelow(s.inbox, s.subscribers, n, sub, s.latched);
    var log := Log(s'.inbox, sub);
    forall m | IsOpen(s', m)
      ensures EpisodeLines(log, m.episode) == Times(m, due(m.episode))
    {
      ReadingAddsNothing(s.inbox, s.subscribers, n, sub, m.episode, log);
    }
  }

  lemma SameAlerts(s: Store, s': Store)
    requires s'.alerts == s.alerts
    ensures forall m :: IsOpen(s', m) <==> IsOpen(s, m)
  {
  }

  lemma ReadingAddsNothing(inbox: map<Subscriber, seq<Notice>>, subs: seq<Subscriber>, n: Notice, sub: Subscriber, episode: nat,
                           log: seq<Notice>)
    requires n.Reading? && log == Log(Notify(inbox, subs, n), sub)
    ensures EpisodeLines(log, episode) == EpisodeLines(Log(inbox, sub), episode)
  {
    NotifyLines(inbox, subs, n, sub, episode);
    var lines := EpisodeLines(Log(inbox, sub), episode);
    assert lines + [] == lines;
  }

  /** A step that opens one alert, with the next number, and tells the list. */
  lemma LatchKeepsTold(s: Store, s': Store, n: Notice, sub: Subscriber, due: nat -> nat, due': nat -> nat)
    requires Told(s, sub, due) && !n.Reading? && n.episode == s.latched
    requires forall m :: IsOpen(s', m) <==> IsOpen(s, m) || m == n
    requires s'.latched == s.latched + 1 && s'.inbox == Notify(s.inbox, s.subscribers, n)
    requires DueAfter(s, s', sub, due, due')
    ensures Told(s', sub, due')
  {
    NotifyBelow(s.inbox, s.subscribers, n, sub, s'.latched);
    forall m | IsOpen(s', m)
      ensures EpisodeLines(Log(s'.inbox, sub), m.episode) == Times(m, due'(m.episode))
    {
      LatchLines(s, n, sub, due, m);
    }
  }

  /** After telling the list of a new alert: the old lines for an old alert, and a line per listing for it. */
  lemma LatchLines(s: Store, n: Notice, sub: Subscriber, due: nat -> nat, m: Notice)
    requires Told(s, sub, due) && !n.Reading? && n.episode == s.latched && (IsOpen(s, m) || m == n)
    ensures EpisodeLines(Log(Notify(s.inbox, s.subscribers, n), sub), m.episode)
            == Times(m, if m == n then multiset(s.subscribers)[sub] else due(m.episode))
  {
    NotifyLines(s.inbox, s.subscribers, n, sub, m.episode);
    if m == n {
      NothingAboutTheFuture(Log(s.inbox, sub), s.latched);
    }
  }

  /** A step that closes alerts at most. */
  lemma CloseKeepsTold(s: Store, s': Store, sub: Subscriber, due: nat -> nat)
    requires Told(s, sub, due)
    requires forall m :: IsOpen(s', m) ==> IsOpen(s, m)
    requires s'.latched == s.latched && Log(s'.inbox, sub) == Log(s.inbox, sub)
    ensures Told(s', sub, due)
  {
  }

  lemma {:induction false} ReplayLines(s: Store, order: seq<u16>, n: Notice)
    requires EpisodesWf(s) && IsOpen(s, n) && Distinct(order)
    ensures EpisodeLines(Replay(s, order), n.episode) == if n.session in order then [n] else []
  {
    if order != [] {
      var front, last := order[..|order| - 1], order[|order| - 1];
      SplitLast(order);
      InOrder(order, n.session);
      ReplayLines(s, front, n);
      ReplayOneMore(s, front, last, n);
      PickOne(EpisodeLines(Replay(s, front), n.episode), n.session in front, n.session == last, n);
    }
  }

  lemma InOrder(order: seq<u16>, session: u16)
    requires order != [] && Distinct(order)
    ensures var front, last := order[..|order| - 1], order[|order| - 1];
            && Distinct(front) && (session in order <==> session in front || session == last)
            && !(session in front && session == last)
  {
    DistinctLast(order);
    SplitLast(order);
  }

  lemma PickOne(lines: seq<Notice>, before: bool, last: bool, n: Notice)
    requires lines == (if before then [n] else []) && !(before && last)
    ensures lines + (if last then [n] else []) == if before || last then [n] else []
  {
  }

  lemma ReplayOneMore(s: Store, front: seq<u16>, last: u16, n: Notice)
    requires EpisodesWf(s) && IsOpen(s, n)
    ensures EpisodeLines(Replay(s, front + [last]), n.episode)
            == EpisodeLines(Replay(s, front), n.episode) + if n.session == last then [n] else []
  {
    assert (front + [last])[..|front|] == front;
    EpisodeLinesConcat(Replay(s, front), OpenNotices(last, AlertsAt(s, last)), n.episode);
    OpenNoticesLines(s, last, n);
  }

  lemma LinesOfOne(log: seq<Notice>, n: Notice)
    requires |log| <= 1 && !n.Reading?
    requires forall i :: 0 <= i < |log| ==> !log[i].Reading? && (log[i].episode == n.episode <==> log[i] == n)
    ensures EpisodeLines(log, n.episode) == if n in log then [n] else []
  {
    if log != [] {
      assert log == [log[0]];
      EpisodeLinesOne(log[0], n.episode);
    }
  }

  /** Among at most two different notices, an episode picks the right one. */
  lemma PickNotice(es: seq<Notice>, os: seq<Notice>, n: Notice)
    requires |es| <= 1 && |os| <= 1 && !n.Reading?
    requires forall i :: 0 <= i < |es| ==> !es[i].Reading? && (es[i].episode == n.episode <==> es[i] == n)
    requires forall i :: 0 <= i < |os| ==> !os[i].Reading? && (os[i].episode == n.episode <==> os[i] == n)
    requires n in es ==> n !in os
    ensures EpisodeLines(es + os, n.episode) == if n in es || n in os then [n] else []
  {
    EpisodeLinesConcat(es, os, n.episode);
    LinesOfOne(es, n);
    LinesOfOne(os, n);
  }

  lemma OpenNoticesLines(s: Store, session: u16, n: Notice)
    requires EpisodesWf(s) && IsOpen(s, n)
    ensures EpisodeLines(OpenNotices(session, AlertsAt(s, session)), n.episode) == if n.session == session then [n] else []
  {
    var a := AlertsAt(s, session);
    var e := ExcursionNotice(session, a.excursion.value, a.excursion.timestamp, a.excursion.episode);
    var o := OfflineNotice(session, a.offline.timestamp, a.offline.episode);
    assert a.excursion.active ==> IsOpen(s, e);
    assert a.offline.active ==> IsOpen(s, o);
    PickNotice(if a.excursion.active then [e] else [], if a.offline.active then [o] else [], n);
  }

  lemma {:induction false} ReplayBelow(s: Store, order: seq<u16>)
    requires EpisodesWf(s)
    ensures LogBelow(Replay(s, order), s.latched)
  {
    if order != [] {
      var k := |order| - 1;
      ReplayBelow(s, order[..k]);
      var more := OpenNotices(order[k], AlertsAt(s, order[k]));
      assert forall i :: 0 <= i < |more| ==> IsOpen(s, more[i]);
    }
  }

  lemma ReplayTells(s: Store, order: seq<u16>, n: Notice)
    requires EpisodesWf(s) && IsIteration(s, order) && IsOpen(s, n)
    ensures EpisodeLines(Replay(s, order), n.episode) == Times(n, 1)
  {
    ReplayLines(s, order, n);
    assert n.session in s.alerts;
    OneTime(n);
  }

  lemma OneTime(n: Notice)
    ensures Times(n, 1) == [n]
  {
  }

  lemma AddTells(s: Store, sub: Subscriber, order: seq<u16>, s': Store, due': nat -> nat)
    requires EpisodesWf(s) && IsIteration(s, order)
    requires s'.alerts == s.alerts && s'.latched == s.latched && Log(s'.inbox, sub) == Replay(s, order)
    requires forall episode: nat :: episode < s.latched ==> due'(episode) == 1
    ensures Told(s', sub, due')
  {
    assert forall m :: IsOpen(s', m) <==> IsOpen(s, m);
    ReplayBelow(s, order);
    forall m | IsOpen(s, m)
      ensures EpisodeLines(Log(s'.inbox, sub), m.episode) == Times(m, due'(m.episode))
    {
      ReplayTells(s, order, m);
    }
  }

  lemma OpenAfterExcursion(s: Store, s': Store, now: int, n: Notice)
    requires n.ExcursionNotice? && !AlertsAt(s, n.session).excursion.active
    requires s'.alerts == s.alerts[n.session := AlertsAt(s, n.session).(excursion := Alert(true, n.value, n.timestamp, now, n.episode))]
    ensures forall m :: IsOpen(s', m) <==> IsOpen(s, m) || m == n
  {
  }

  lemma OpenAfterOffline(s: Store, s': Store, now: int, n: Notice)
    requires n.OfflineNotice? && !AlertsAt(s, n.session).offline.active
    requires s'.alerts == s.alerts[n.session := AlertsAt(s, n.session).(offline := Alert(true, 0, n.timestamp, now, n.episode))]
    ensures forall m :: IsOpen(s', m) <==> IsOpen(s, m) || m == n
  {
  }

  /** A sample is a reading told to the list, then possibly an excursion latched and told. */
  lemma RecordIs(s: Store, session: u16, metric: byte, value: int, timestamp: int, now: int) returns (s1: Store, n: Notice)
    ensures var s' := Record(s, session, metric, value, timestamp, now);
            && s1.alerts == s.alerts && s1.latched == s.latched && s1.subscribers == s.subscribers
            && s1.inbox == Notify(s.inbox, s.subscribers, Reading(session, metric, value, timestamp))
            && n.ExcursionNotice? && n.session == session && n.episode == s.latched
            && (s' == s1 ||
                (&& !AlertsAt(s1, session).excursion.active && s'.latched == s.latched + 1
                 && s'.inbox == Notify(s1.inbox, s.subscribers, n)
                 && s'.alerts == s1.alerts[session := AlertsAt(s1, session).(excursion := Alert(true, n.value, n.timestamp, now, n.episode))]))
  {
    var s' := Record(s, session, metric, value, timestamp, now);
    s1 := s.(history := s'.history, inbox := Notify(s.inbox, s.subscribers, Reading(session, metric, value, timestamp)));
    n := ExcursionNotice(session, RingAt(s', MakeKey(session, metric)).average, timestamp, s.latched);
  }

  lemma RecordTells(s: Store, session: u16, metric: byte, value: int, timestamp: int, now: int, s': Store,
                    sub: Subscriber, due: nat -> nat, due': nat -> nat)
    requires s' == Record(s, session, metric, value, timestamp, now)
    requires Told(s, sub, due) && DueAfter(s, s', sub, due, due')
    ensures Told(s', sub, due')
  {
    var s1, n := RecordIs(s, session, metric, value, timestamp, now);
    ReadingKeepsTold(s, s1, Reading(session, metric, value, timestamp), sub, due);
    if s' == s1 {
      SameDue(s1, sub, due, due');
    } else {
      OpenAfterExcursion(s1, s', now, n);
      LatchKeepsTold(s1, s', n, sub, due, due');
    }
  }

  lemma LatchOfflineTells(s: Store, session: u16, timestamp: int, now: int, s': Store,
                          sub: Subscriber, due: nat -> nat, due': nat -> nat)
    requires s' == LatchOffline(s, session, timestamp, now)
    requires Told(s, sub, due) && DueAfter(s, s', sub, due, due')
    ensures Told(s', sub, due')
  {
    if s' == s {
      SameDue(s, sub, due, due');
    } else {
      var n := OfflineNotice(session, timestamp, s.latched);
      OpenAfterOffline(s, s', now, n);
      LatchKeepsTold(s, s', n, sub, due, due');
    }
  }

  // ---- Runs ----

  /** Every replay visits every session that has alerts once. */
  predicate ReplaysWhole(ops: seq<Op>)
  {
    ops == [] ||
    var n := |ops| - 1;
    ReplaysWhole(ops[..n]) && (ops[n].DoAddSubscriber? ==> IsIteration(Run(EMPTY_STORE, ops[..n]), ops[n].order))
  }

  /** The lines a subscriber should have had about an episode since it last registered: one, by replay, if
      the episode is older than that registration; otherwise one for each time it was listed when the
      alert latched. */
  function LinesDue(ops: seq<Op>, sub: Subscriber, episode: nat): nat
  {
    if ops == [] then 0
    else
      var n := |ops| - 1;
      var s, s' := Run(EMPTY_STORE, ops[..n]), Run(EMPTY_STORE, ops);
      if s.latched <= episode < s'.latched then multiset(s.subscribers)[sub]
      else if ops[n].DoAddSubscriber? && ops[n].sub == sub then 1
      else LinesDue(ops[..n], sub, episode)
  }

  function DueIn(ops: seq<Op>, sub: Subscriber): nat -> nat
  {
    episode => LinesDue(ops, sub, episode)
  }

  lemma ApplyTells(s: Store, op: Op, s': Store, sub: Subscriber, due: nat -> nat, due': nat -> nat)
    requires s' == Apply(s, op)
    requires Told(s, sub, due) && (op.DoAddSubscriber? ==> IsIteration(s, op.order))
    requires if op.DoAddSubscriber? && op.sub == sub then forall episode: nat :: episode < s.latched ==> due'(episode) == 1
             else DueAfter(s, s', sub, due, due')
    ensures Told(s', sub, due')
  {
    match op {
      case DoRecord(session, metric, value, timestamp, now) =>
        RecordTells(s, session, metric, value, timestamp, now, s', sub, due, due');
      case DoLatchOffline(session, timestamp, now) =>
        LatchOfflineTells(s, session, timestamp, now, s', sub, due, due');
      case DoAddSubscriber(x, order) =>
        if x == sub {
          AddTells(s, sub, order, s', due');
        } else {
          QuietKeepsTold(s, op, s', sub, due, due');
        }
      case _ =>
        QuietKeepsTold(s, op, s', sub, due, due');
    }
  }

  /** Acknowledging, and registering or removing somebody else, tells this subscriber nothing. */
  lemma QuietKeepsTold(s: Store, op: Op, s': Store, sub: Subscriber, due: nat -> nat, due': nat -> nat)
    requires s' == Apply(s, op) && !op.DoRecord? && !op.DoLatchOffline? && !(op.DoAddSubscriber? && op.sub == sub)
    requires Told(s, sub, due) && DueAfter(s, s', sub, due, due')
    ensures Told(s', sub, due')
  {
    OpensNothing(s, op);
    CloseKeepsTold(s, s', sub, due);
    SameDue(s', sub, due, due');
  }

  lemma OpensNothing(s: Store, op: Op)
    requires !op.DoRecord? && !op.DoLatchOffline?
    ensures forall m :: IsOpen(Apply(s, op), m) ==> IsOpen(s, m)
  {
  }

  lemma LatchedStep(s: Store, op: Op)
    ensures s.latched <= Apply(s, op).latched <= s.latched + 1
    ensures !op.DoRecord? && !op.DoLatchOffline? ==> Apply(s, op).latched == s.latched
  {
  }

  lemma {:induction false} RunTells(ops: seq<Op>, sub: Subscriber)
    requires ReplaysWhole(ops)
    ensures Told(Run(EMPTY_STORE, ops), sub, DueIn(ops, sub))
  {
    if ops != [] {
      var n := |ops| - 1;
      var s := Run(EMPTY_STORE, ops[..n]);
      RunTells(ops[..n], sub);
      LatchedStep(s, ops[n]);
      ApplyTells(s, ops[n], Run(EMPTY_STORE, ops), sub, DueIn(ops[..n], sub), DueIn(ops, sub));
    }
  }

  /** In every run, however often subscribers register: for each open alert a subscriber has received
      exactly the lines due, each of them that alert's line. */
  lemma LinesPerOpenAlert(ops: seq<Op>, sub: Subscriber, n: Notice)
    requires ReplaysWhole(ops) && IsOpen(Run(EMPTY_STORE, ops), n)
    ensures EpisodeLines(Log(Run(EMPTY_STORE, ops).inbox, sub), n.episode) == Times(n, LinesDue(ops, sub, n.episode))
  {
    RunTells(ops, sub);
  }

  // ---- One registration at a time ----

  lemma {:induction false} WithoutKeeps(subs: seq<Subscriber>, sub: Subscriber)
    requires Distinct(subs)
    ensures Distinct(Without(subs, sub))
    ensures forall x :: x in Without(subs, sub) <==> x in subs && x != sub
  {
    if subs != [] {
      var k := |subs| - 1;
      WithoutKeeps(subs[..k], sub);
      assert subs == subs[..k] + [subs[k]];
      assert subs[k] !in subs[..k];
      assert subs[k] !in Without(subs[..k], sub);
    }
  }

  /** Callers register a subscriber only while it is not registered. */
  predicate RegistersOnce(ops: seq<Op>)
  {
    ops == [] ||
    var n := |ops| - 1;
    RegistersOnce(ops[..n]) && (ops[n].DoAddSubscriber? ==> ops[n].sub !in Run(EMPTY_STORE, ops[..n]).subscribers)
  }

  lemma ApplyList(s: Store, op: Op)
    requires Distinct(s.subscribers) && (op.DoAddSubscriber? ==> op.sub !in s.subscribers)
    ensures Distinct(Apply(s, op).subscribers)
    ensures forall x :: x in Apply(s, op).subscribers ==> x in s.subscribers || (op.DoAddSubscriber? && op.sub == x)
  {
    if op.DoRemoveSubscriber? {
      WithoutKeeps(s.subscribers, op.sub);
    }
  }

  lemma {:induction false} OneLineDue(ops: seq<Op>, sub: Subscriber, episode: nat)
    requires RegistersOnce(ops)
    ensures var s := Run(EMPTY_STORE, ops);
            Distinct(s.subscribers) && (sub in s.subscribers && episode < s.latched ==> LinesDue(ops, sub, episode) == 1)
  {
    if ops != [] {
      var n := |ops| - 1;
      var s := Run(EMPTY_STORE, ops[..n]);
      OneLineDue(ops[..n], sub, episode);
      ApplyList(s, ops[n]);
      LatchedStep(s, ops[n]);
      ListedOnce(s.subscribers, sub);
    }
  }

  /** In every run whose callers, like `accept_subscribers`, register a subscriber once at a time: a
      registered subscriber has received exactly one line for each open alert episode since it registered,
      and that line is the alert's. */
  lemma ExactlyOneLinePerOpenAlert(ops: seq<Op>, sub: Subscriber, n: Notice)
    requires ReplaysWhole(ops) && RegistersOnce(ops)
    requires var s := Run(EMPTY_STORE, ops); sub in s.subscribers && IsOpen(s, n)
    ensures EpisodeLines(Log(Run(EMPTY_STORE, ops).inbox, sub), n.episode) == [n]
  {
    RunTells(ops, sub);
    OneLineDue(ops, sub, n.episode);
    OneTime(n);
  }

  /** A new alert, of either kind, is told to a subscriber exactly as often as it is listed. */
  lemma LatchTellsPerListing(s: Store, op: Op, sub: Subscriber)
    requires s.latched < Apply(s, op).latched && LogBelow(Log(s.inbox, sub), s.latched)
    ensures |EpisodeLines(Log(Apply(s, op).inbox, sub), s.latched)| == multiset(s.subscribers)[sub]
  {
    NothingAboutTheFuture(Log(s.inbox, sub), s.latched);
    match op {
      case DoLatchOffline(session, timestamp, now) =>
        NotifyLines(s.inbox, s.subscribers, OfflineNotice(session, timestamp, s.latched), sub, s.latched);
      case DoRecord(session, metric, value, timestamp, now) =>
        var reading := Reading(session, metric, value, timestamp);
        var average := RecordRing(RingAt(s, MakeKey(session, metric)), Sample(timestamp, value)).average;
        NotifyLines(s.inbox, s.subscribers, reading, sub, s.latched);
        NotifyLines(Notify(s.inbox, s.subscribers, reading), s.subscribers,
                    ExcursionNotice(session, average, timestamp, s.latched), sub, s.latched);
    }
  }

  /** Registering twice breaks "exactly one line": this run tells its only subscriber twice. */
  lemma RegisteredTwiceToldTwice(sub: Subscriber, session: u16, timestamp: int, now: int)
    ensures var ops := [DoAddSubscriber(sub, []), DoAddSubscriber(sub, []), DoLatchOffline(session, timestamp, now)];
            var s, n := Run(EMPTY_STORE, ops), OfflineNotice(session, timestamp, 0);
            && ReplaysWhole(ops) && sub in s.subscribers && IsOpen(s, n)
            && EpisodeLines(Log(s.inbox, sub), 0) == [n, n]
  {
    var a, b := DoAddSubscriber(sub, []), DoLatchOffline(session, timestamp, now);
    var ops, n := [a, a, b], OfflineNotice(session, timestamp, 0);
    TwoRegistrations(sub);
    assert ops[..2] == [a, a];
    LinesPerOpenAlert(ops, sub, n);
    assert Times(n, 2) == [n, n];
  }

  lemma TwoRegistrations(sub: Subscriber)
    ensures var a := DoAddSubscriber(sub, []);
            var s := Run(EMPTY_STORE, [a, a]);
            && ReplaysWhole([a, a]) && s.subscribers == [sub, sub] && multiset(s.subscribers)[sub] == 2
            && s.latched == 0 && s.alerts == map[]
  {
    var a := DoAddSubscriber(sub, []);
    assert [a, a][..1] == [a] && [a][..0] == [];
    var s0 := Run(EMPTY_STORE, []);
    assert IsIteration(s0, []) && ReplaysWhole([]);
    var s1 := Run(EMPTY_STORE, [a]);
    assert s1 == Apply(s0, a) && IsIteration(s1, []);
    assert ReplaysWhole([a]);
    assert Run(EMPTY_STORE, [a, a]) == Apply(s1, a);
  }

  // ---- Readings ----

  /** How often a subscriber is on the list, from the operations alone. */
  function Listed(ops: seq<Op>, sub: Subscriber): nat
  {
    if ops == [] then 0
    else
      var before, op := Listed(ops[..|ops| - 1], sub), ops[|ops| - 1];
      if op.DoAddSubscriber? && op.sub == sub then before + 1
      else if op.DoRemoveSubscriber? && op.sub == sub then 0
      else before
  }

  /** The readings a subscriber should have been handed since it last registered, in order: each one recorded, as
      often as it was listed then. */
  function ReadingsDue(ops: seq<Op>, sub: Subscriber): seq<Notice>
  {
    if ops == [] then []
    else
      var front, op := ops[..|ops| - 1], ops[|ops| - 1];
      if op.DoAddSubscriber? && op.sub == sub then []
      else if op.DoRecord? then
        ReadingsDue(front, sub) + Times(Reading(op.session, op.metric, op.value, op.timestamp), Listed(front, sub))
      else ReadingsDue(front, sub)
  }

  function ReadingLines(log: seq<Notice>): seq<Notice>
  {
    if log == [] then [] else ReadingLines(log[..|log| - 1]) + if log[|log| - 1].Reading? then [log[|log| - 1]] else []
  }

  lemma {:induction false} ReadingLinesConcat(a: seq<Notice>, b: seq<Notice>)
    ensures ReadingLines(a + b) == ReadingLines(a) + ReadingLines(b)
  {
    if b == [] {
      assert a + b == a;
    } else {
      assert (a + b)[..|a + b| - 1] == a + b[..|b| - 1];
      ReadingLinesConcat(a, b[..|b| - 1]);
    }
  }

  lemma {:induction false} ReadingLinesTimes(n: Notice, k: nat)
    ensures ReadingLines(Times(n, k)) == if n.Reading? then Times(n, k) else []
  {
    if k > 0 {
      var more := Times(n, k);
      assert more[..k - 1] == Times(n, k - 1);
      ReadingLinesTimes(n, k - 1);
      SplitLast(more);
    }
  }

  lemma NotifyReadings(inbox: map<Subscriber, seq<Notice>>, subs: seq<Subscriber>, n: Notice, sub: Subscriber)
    ensures ReadingLines(Log(Notify(inbox, subs, n), sub))
            == ReadingLines(Log(inbox, sub)) + if n.Reading? then Times(n, multiset(subs)[sub]) else []
  {
    NotifyTellsEachEntry(inbox, subs, n, sub);
    ReadingLinesConcat(Log(inbox, sub), Times(n, multiset(subs)[sub]));
    ReadingLinesTimes(n, multiset(subs)[sub]);
  }

  lemma {:induction false} ReplayHasNoReadings(s: Store, order: seq<u16>)
    ensures ReadingLines(Replay(s, order)) == []
  {
    if order != [] {
      var n := |order| - 1;
      var more := OpenNotices(order[n], AlertsAt(s, order[n]));
      ReplayHasNoReadings(s, order[..n]);
      ReadingLinesConcat(Replay(s, order[..n]), more);
      NoReadings(more);
    }
  }

  lemma {:induction false} NoReadings(log: seq<Notice>)
    requires forall i :: 0 <= i < |log| ==> !log[i].Reading?
    ensures ReadingLines(log) == []
  {
    if log != [] {
      NoReadings(log[..|log| - 1]);
    }
  }

  lemma {:induction false} WithoutCounts(subs: seq<Subscriber>, x: Subscriber, sub: Subscriber)
    ensures multiset(Without(subs, x))[sub] == if sub == x then 0 else multiset(subs)[sub]
  {
    if subs != [] {
      var front: seq<Subscriber>, last := subs[..|subs| - 1], subs[|subs| - 1];
      WithoutCounts(front, x, sub);
      SplitLast(subs);
    }
  }

  lemma RecordTellsReading(s: Store, op: Op, sub: Subscriber)
    requires op.DoRecord?
    ensures ReadingLines(Log(Apply(s, op).inbox, sub))
            == ReadingLines(Log(s.inbox, sub)) + Times(Reading(op.session, op.metric, op.value, op.timestamp), multiset(s.subscribers)[sub])
    ensures Apply(s, op).subscribers == s.subscribers
  {
    var reading := Reading(op.session, op.metric, op.value, op.timestamp);
    var s1, n := RecordIs(s, op.session, op.metric, op.value, op.timestamp, op.now);
    NotifyReadings(s.inbox, s.subscribers, reading, sub);
    NotifyReadings(s1.inbox, s.subscribers, n, sub);
    var lines := ReadingLines(Log(s1.inbox, sub));
    assert lines + [] == lines;
  }

  lemma OtherTellsNoReading(s: Store, op: Op, sub: Subscriber)
    requires !op.DoRecord? && !(op.DoAddSubscriber? && op.sub == sub)
    ensures ReadingLines(Log(Apply(s, op).inbox, sub)) == ReadingLines(Log(s.inbox, sub))
  {
    if op.DoLatchOffline? {
      NotifyReadings(s.inbox, s.subscribers, OfflineNotice(op.session, op.timestamp, s.latched), sub);
      var lines := ReadingLines(Log(s.inbox, sub));
      assert lines + [] == lines;
    }
  }

  lemma ListStep(s: Store, op: Op, sub: Subscriber, before: nat)
    requires multiset(s.subscribers)[sub] == before
    ensures multiset(Apply(s, op).subscribers)[sub]
            == if op.DoAddSubscriber? && op.sub == sub then before + 1
               else if op.DoRemoveSubscriber? && op.sub == sub then 0
               else before
  {
    if op.DoRemoveSubscriber? {
      WithoutCounts(s.subscribers, op.sub, sub);
    }
  }

  /** In every run the readings a subscriber has been handed since it last registered are exactly those recorded
      since, in order, each as often as it was listed. */
  lemma {:induction false} ReadingsToldExactly(ops: seq<Op>, sub: Subscriber)
    ensures var s := Run(EMPTY_STORE, ops);
            && multiset(s.subscribers)[sub] == Listed(ops, sub)
            && ReadingLines(Log(s.inbox, sub)) == ReadingsDue(ops, sub)
  {
    if ops != [] {
      var s, op := Run(EMPTY_STORE, ops[..|ops| - 1]), ops[|ops| - 1];
      ReadingsToldExactly(ops[..|ops| - 1], sub);
      ListStep(s, op, sub, Listed(ops[..|ops| - 1], sub));
      if op.DoRecord? {
        RecordTellsReading(s, op, sub);
      } else if op.DoAddSubscriber? && op.sub == sub {
        ReplayHasNoReadings(s, op.order);
      } else {
        OtherTellsNoReading(s, op, sub);
      }
    }
  }

  /** One sample hands out its reading first, and then, if it opens an excursion, the alert. */
  lemma RecordTellsInOrder(s: Store, op: Op, sub: Subscriber)
    requires op.DoRecord?
    ensures var s', k := Apply(s, op), multiset(s.subscribers)[sub];
            var a := AlertsAt(s', op.session).excursion;
            Log(s'.inbox, sub)
            == Log(s.inbox, sub) + Times(Reading(op.session, op.metric, op.value, op.timestamp), k)
               + if s.latched < s'.latched then Times(ExcursionNotice(op.session, a.value, a.timestamp, s.latched), k) else []
  {
    var s1, n := RecordIs(s, op.session, op.metric, op.value, op.timestamp, op.now);
    NotifyTellsEachEntry(s.inbox, s.subscribers, Reading(op.session, op.metric, op.value, op.timestamp), sub);
    NotifyTellsEachEntry(s1.inbox, s.subscribers, n, sub);
    var log := Log(s1.inbox, sub);
    assert log + [] == log;
  }

  lemma {:induction false} ReplayConcat(s: Store, a: seq<u16>, b: seq<u16>)
    ensures Replay(s, a + b) == Replay(s, a) + Replay(s, b)
  {
    if b == [] {
      assert a + b == a;
    } else {
      var n := |b| - 1;
      assert (a + b)[..|a| + n] == a + b[..n];
      ReplayConcat(s, a, b[..n]);
    }
  }

  /** A new subscriber is told session by session, in the order they are visited, and of each session the
      excursion right before OFFLINE. */
  lemma ReplaysInOrder(s: Store, sub: Subscriber, order: seq<u16>, i: nat)
    requires i < |order|
    requires AlertsAt(s, order[i]).excursion.active && AlertsAt(s, order[i]).offline.active
    ensures var e, o := AlertsAt(s, order[i]).excursion, AlertsAt(s, order[i]).offline;
            Log(AddSubscriber(s, sub, order).inbox, sub)
            == Replay(s, order[..i])
               + [ExcursionNotice(order[i], e.value, e.timestamp, e.episode), OfflineNotice(order[i], o.timestamp, o.episode)]
               + Replay(s, order[i + 1..])
  {
    var front, back := order[..i + 1], order[i + 1..];
    assert order == front + back;
    ReplayConcat(s, front, back);
    ReplayedLast(s, front);
    assert front[..i] == order[..i];
  }

  lemma ReplayedLast(s: Store, order: seq<u16>)
    requires order != []
    requires var a := AlertsAt(s, order[|order| - 1]); a.excursion.active && a.offline.active
    ensures var n := |order| - 1;
            var e, o := AlertsAt(s, order[n]).excursion, AlertsAt(s, order[n]).offline;
            Replay(s, order) == Replay(s, order[..n])
                                + [ExcursionNotice(order[n], e.value, e.timestamp, e.episode), OfflineNotice(order[n], o.timestamp, o.episode)]
  {
  }

  /** What it means for an alert to be open, field by field. */
  lemma OpenExactly(s: Store, n: Notice)
    ensures IsOpen(s, n) <==>
              match n
              case Reading(_, _, _, _) => false
              case ExcursionNotice(session, value, timestamp, episode) =>
                var a := AlertsAt(s, session).excursion;
                a.active && a.value == value && a.timestamp == timestamp && a.episode == episode
              case OfflineNotice(session, timestamp, episode) =>
                var a := AlertsAt(s, session).offline;
                a.active && a.timestamp == timestamp && a.episode == episode
  {
  }
}
