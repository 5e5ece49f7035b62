/** The event loop's timer queue (server/event_loop.cpp). The priority queue is a sequence of which the
    earliest deadline is taken; callbacks are a parameter saying which timers each of them adds. */
module Timers {
  import opened Common

  datatype Timer = Timer(id: nat, deadline: int)

  /** A timer and the `now` of the call that fired it. */
  datatype Fired = Fired(timer: Timer, at: int)

  /** A call of `add_timer`: how long after the start of the current call, and the delay asked for. */
  datatype Add = Add(elapsed: nat, delay: Positive)

  /** What the callback of a timer adds. */
  type Callbacks = Timer -> seq<Add>

  /** The queue, what has fired so far in order, and the latest time read from the clock. */
  datatype Queue = Queue(pending: seq<Timer>, fired: seq<Fired>, nextId: nat, clock: int)

  function AddTimer(q: Queue, now: int, delay: Positive): Queue
  {
    q.(pending := q.pending + [Timer(q.nextId, now + delay)], nextId := q.nextId + 1)
  }

  function AddAll(q: Queue, now: int, adds: seq<Add>): Queue
  {
    if adds == [] then q
    else
      var n := |adds| - 1;
      AddTimer(AddAll(q, now, adds[..n]), now + adds[n].elapsed, adds[n].delay)
  }

  /** `top()`: the position of an earliest deadline. */
  function Earliest(pending: seq<Timer>): (i: nat)
    requires pending != []
    ensures i < |pending| && forall j :: 0 <= j < |pending| ==> pending[i].deadline <= pending[j].deadline
  {
    var n := |pending| - 1;
    if n == 0 then 0
    else
      var i := Earliest(pending[..n]);
      if pending[..n][i].deadline <= pending[n].deadline then i else n
  }

  function Without(pending: seq<Timer>, i: nat): seq<Timer>
    requires i < |pending|
  {
    pending[..i] + pending[i + 1..]
  }

  function Taken(q: Queue, now: int, i: nat): Queue
    requires i < |q.pending|
  {
    q.(pending := Without(q.pending, i), fired := q.fired + [Fired(q.pending[i], now)])
  }

  /** Take the earliest timer out, then run its callback. */
  function FireOne(q: Queue, now: int, callbacks: Callbacks): Queue
    requires q.pending != []
  {
    var i := Earliest(q.pending);
    var due := q.pending[i];
    AddAll(Taken(q, now, i), now, callbacks(due))
  }

  predicate HasDue(q: Queue, now: int)
  {
    q.pending != [] && q.pending[Earliest(q.pending)].deadline <= now
  }

  function DueCount(pending: seq<Timer>, now: int): nat
  {
    if pending == [] then 0
    else DueCount(pending[..|pending| - 1], now) + if pending[|pending| - 1].deadline <= now then 1 else 0
  }

  lemma {:induction false} DueCountConcat(a: seq<Timer>, b: seq<Timer>, now: int)
    ensures DueCount(a + b, now) == DueCount(a, now) + DueCount(b, now)
  {
    if b == [] {
      assert a + b == a;
    } else {
      assert (a + b)[..|a + b| - 1] == a + b[..|b| - 1];
      DueCountConcat(a, b[..|b| - 1], now);
    }
  }

  lemma DueCountWithout(pending: seq<Timer>, i: nat, now: int)
    requires i < |pending|
    ensures DueCount(pending, now) == DueCount(Without(pending, i), now) + if pending[i].deadline <= now then 1 else 0
  {
    assert pending == pending[..i] + ([pending[i]] + pending[i + 1..]);
    DueCountConcat(pending[..i], [pending[i]] + pending[i + 1..], now);
    DueCountConcat([pending[i]], pending[i + 1..], now);
    DueCountConcat(pending[..i], pending[i + 1..], now);
    assert [pending[i]][..0] == [];
  }

  /** Timers added by a callback are not due in the same call. */
  lemma {:induction false} AddAllKeepsDueCount(q: Queue, now: int, adds: seq<Add>)
    ensures DueCount(AddAll(q, now, adds).pending, now) == DueCount(q.pending, now)
  {
    if adds != [] {
      var n := |adds| - 1;
      var r := AddAll(q, now, adds[..n]);
      AddAllKeepsDueCount(q, now, adds[..n]);
      var p := AddAll(q, now, adds).pending;
      assert p[..|p| - 1] == r.pending;
    }
  }

  /** Each firing leaves one due timer fewer, which is why a call terminates. */
  lemma FiringMakesProgress(q: Queue, now: int, callbacks: Callbacks)
    requires HasDue(q, now)
    ensures DueCount(FireOne(q, now, callbacks).pending, now) == DueCount(q.pending, now) - 1
  {
    var i := Earliest(q.pending);
    var due := q.pending[i];
    DueCountWithout(q.pending, i, now);
    AddAllKeepsDueCount(Taken(q, now, i), now, callbacks(due));
  }

  function FireLoop(q: Queue, now: int, callbacks: Callbacks): Queue
    decreases DueCount(q.pending, now)
  {
    if !HasDue(q, now) then q
    else
      FiringMakesProgress(q, now, callbacks);
      FireLoop(FireOne(q, now, callbacks), now, callbacks)
  }

  /** `fire_due_timers`. */
  function FireDueTimers(q: Queue, now: int, callbacks: Callbacks): Queue
  {
    FireLoop(q.(clock := now), now, callbacks)
  }

  // ---- Runs ----

  datatype Op = Schedule(now: int, delay: Positive) | Fire(at: int, callbacks: Callbacks)

  function Time(op: Op): int
  {
    match op case Schedule(now, _) => now case Fire(at, _) => at
  }

  function Apply(q: Queue, op: Op): Queue
  {
    match op
    case Schedule(now, delay) => AddTimer(q.(clock := now), now, delay)
    case Fire(at, callbacks) => FireDueTimers(q, at, callbacks)
  }

  function Run(start: int, ops: seq<Op>): Queue
  {
    if ops == [] then Queue([], [], 0, start) else Apply(Run(start, ops[..|ops| - 1]), ops[|ops| - 1])
  }

  /** The clock never goes back. */
  predicate Monotone(start: int, ops: seq<Op>)
  {
    && (forall i :: 0 <= i < |ops| ==> start <= Time(ops[i]))
    && (forall i, j :: 0 <= i < j < |ops| ==> Time(ops[i]) <= Time(ops[j]))
  }

  // ---- The invariant ----

  /** Numbers are given out once, and every timer ever added is either pending or has fired. */
  ghost predicate IdsOk(q: Queue)
  {
    && |q.pending| + |q.fired| == q.nextId
    && (forall i :: 0 <= i < |q.pending| ==> q.pending[i].id < q.nextId)
    && (forall i :: 0 <= i < |q.fired| ==> q.fired[i].timer.id < q.nextId)
    && (forall i, j :: 0 <= i < j < |q.pending| ==> q.pending[i].id != q.pending[j].id)
    && (forall i, j :: 0 <= i < j < |q.fired| ==> q.fired[i].timer.id != q.fired[j].timer.id)
    && (forall i, j :: 0 <= i < |q.pending| && 0 <= j < |q.fired| ==> q.pending[i].id != q.fired[j].timer.id)
  }

  /** Nothing fired early, firing followed the deadlines, and everything pending is no earlier than what fired. */
  ghost predicate OrderOk(q: Queue)
  {
    && (forall i :: 0 <= i < |q.fired| ==> q.fired[i].timer.deadline <= q.fired[i].at <= q.clock)
    && (forall i, j :: 0 <= i < j < |q.fired| ==> q.fired[i].timer.deadline <= q.fired[j].timer.deadline)
    && (forall i, j :: 0 <= i < |q.fired| && 0 <= j < |q.pending| ==> q.fired[i].timer.deadline <= q.pending[j].deadline)
  }

  ghost predicate Inv(q: Queue)
  {
    IdsOk(q) && OrderOk(q)
  }

  lemma AddKeepsInv(q: Queue, now: int, delay: Positive)
    requires Inv(q) && q.clock <= now
    ensures Inv(AddTimer(q, now, delay))
  {
  }

  lemma {:induction false} AddAllKeepsInv(q: Queue, now: int, adds: seq<Add>)
    requires Inv(q) && q.clock <= now
    ensures Inv(AddAll(q, now, adds)) && AddAll(q, now, adds).clock == q.clock
    ensures AddAll(q, now, adds).fired == q.fired
  {
    if adds != [] {
      var n := |adds| - 1;
      AddAllKeepsInv(q, now, adds[..n]);
      var r := AddAll(q, now, adds[..n]);
      AddKeepsInv(r, now + adds[n].elapsed, adds[n].delay);
      assert AddAll(q, now, adds) == AddTimer(r, now + adds[n].elapsed, adds[n].delay);
    }
  }

  lemma WithoutAt(pending: seq<Timer>, i: nat, j: nat)
    requires i < |pending| && j < |Without(pending, i)|
    ensures Without(pending, i)[j] == pending[if j < i then j else j + 1]
  {
  }

  lemma TakeKeepsIds(q: Queue, now: int, i: nat)
    requires IdsOk(q) && i < |q.pending|
    ensures IdsOk(Taken(q, now, i))
  {
    var w := Without(q.pending, i);
    assert forall j :: 0 <= j < |w| ==> w[j] == q.pending[if j < i then j else j + 1];
  }

  lemma TakeKeepsOrder(q: Queue, now: int, i: nat)
    requires OrderOk(q) && q.clock == now && i < |q.pending| && q.pending[i].deadline <= now
    requires forall j :: 0 <= j < |q.pending| ==> q.pending[i].deadline <= q.pending[j].deadline
    ensures OrderOk(Taken(q, now, i))
  {
    forall j | 0 <= j < |Without(q.pending, i)|
      ensures Without(q.pending, i)[j] in q.pending
    {
      WithoutAt(q.pending, i, j);
    }
  }

  lemma FireOneKeepsInv(q: Queue, now: int, callbacks: Callbacks)
    requires Inv(q) && q.clock == now && HasDue(q, now)
    ensures var r := FireOne(q, now, callbacks);
            Inv(r) && r.clock == now && q.fired <= r.fired
  {
    var i := Earliest(q.pending);
    TakeKeepsIds(q, now, i);
    TakeKeepsOrder(q, now, i);
    AddAllKeepsInv(Taken(q, now, i), now, callbacks(q.pending[i]));
  }

  lemma {:induction false} FireLoopKeepsInv(q: Queue, now: int, callbacks: Callbacks)
    requires Inv(q) && q.clock == now
    ensures var r := FireLoop(q, now, callbacks);
            && Inv(r) && r.clock == now && q.fired <= r.fired
            && (forall i :: 0 <= i < |r.pending| ==> r.pending[i].deadline > now)
    decreases DueCount(q.pending, now)
  {
    if HasDue(q, now) {
      FireOneKeepsInv(q, now, callbacks);
      FiringMakesProgress(q, now, callbacks);
      FireLoopKeepsInv(FireOne(q, now, callbacks), now, callbacks);
    }
  }

  lemma {:induction false} AddAllKeepsPending(q: Queue, now: int, adds: seq<Add>)
    ensures q.pending <= AddAll(q, now, adds).pending && AddAll(q, now, adds).fired == q.fired
  {
    if adds != [] {
      AddAllKeepsPending(q, now, adds[..|adds| - 1]);
    }
  }

  lemma OneFires(q: Queue, now: int, callbacks: Callbacks, t: Timer)
    requires HasDue(q, now) && t in q.pending
    ensures var r := FireOne(q, now, callbacks);
            q.fired <= r.fired && (t in r.pending || (t.deadline <= now && Fired(t, now) in r.fired))
  {
    var i := Earliest(q.pending);
    AddAllKeepsPending(Taken(q, now, i), now, callbacks(q.pending[i]));
    var r := FireOne(q, now, callbacks);
    if t == q.pending[i] {
      assert r.fired[|q.fired|] == Fired(t, now);
    } else {
      var j :| 0 <= j < |q.pending| && q.pending[j] == t;
      WithoutAt(q.pending, i, if j < i then j else j - 1);
      assert t in Without(q.pending, i);
    }
  }

  /** A call fires exactly the timers that are due: each of them with its own deadline, and the others
      stay. */
  lemma {:induction false} DueTimersFire(q: Queue, now: int, callbacks: Callbacks, t: Timer)
    requires Inv(q) && q.clock == now && t in q.pending
    ensures var r := FireLoop(q, now, callbacks);
            && (t.deadline <= now <==> Fired(t, now) in r.fired)
            && (t.deadline > now <==> t in r.pending)
    decreases DueCount(q.pending, now)
  {
    FireLoopKeepsInv(q, now, callbacks);
    FireLoopKeeps(q, now, callbacks, t);
  }

  lemma {:induction false} FireLoopKeeps(q: Queue, now: int, callbacks: Callbacks, t: Timer)
    requires Inv(q) && q.clock == now && (t in q.pending || Fired(t, now) in q.fired)
    ensures var r := FireLoop(q, now, callbacks); t in r.pending || Fired(t, now) in r.fired
    decreases DueCount(q.pending, now)
  {
    if HasDue(q, now) {
      FireOneKeepsInv(q, now, callbacks);
      FiringMakesProgress(q, now, callbacks);
      if t in q.pending {
        OneFires(q, now, callbacks, t);
      }
      FireLoopKeeps(FireOne(q, now, callbacks), now, callbacks, t);
    }
  }

  lemma ClockForward(q: Queue, now: int)
    requires Inv(q) && q.clock <= now
    ensures Inv(q.(clock := now))
  {
  }

  lemma {:induction false} RunKeepsInv(start: int, ops: seq<Op>)
    requires Monotone(start, ops)
    ensures Inv(Run(start, ops))
    ensures Run(start, ops).clock == if ops == [] then start else Time(ops[|ops| - 1])
  {
    if ops != [] {
      var n := |ops| - 1;
      RunKeepsInv(start, ops[..n]);
      var q := Run(start, ops[..n]);
      ClockForward(q, Time(ops[n]));
      match ops[n]
      case Schedule(now, delay) => AddKeepsInv(q.(clock := now), now, delay);
      case Fire(at, callbacks) => FireLoopKeepsInv(q.(clock := at), at, callbacks);
    }
  }

  /** Over a whole run with a clock that never goes back and positive delays, whatever callbacks add: no
      timer fires before its deadline or twice, and deadlines fire in non-decreasing order. */
  lemma TimersFireInOrder(start: int, ops: seq<Op>)
    requires Monotone(start, ops)
    ensures var q := Run(start, ops);
            && (forall i :: 0 <= i < |q.fired| ==> q.fired[i].timer.deadline <= q.fired[i].at <= q.clock)
            && (forall i, j :: 0 <= i < j < |q.fired| ==>
                  q.fired[i].timer.id != q.fired[j].timer.id && q.fired[i].timer.deadline <= q.fired[j].timer.deadline)
  {
    RunKeepsInv(start, ops);
  }

  // ---- When a timer fires, from the operations alone ----

  function RunFrom(q: Queue, ops: seq<Op>): Queue
  {
    if ops == [] then q else Apply(RunFrom(q, ops[..|ops| - 1]), ops[|ops| - 1])
  }

  lemma {:induction false} RunSplits(start: int, a: seq<Op>, b: seq<Op>)
    ensures Run(start, a + b) == RunFrom(Run(start, a), b)
  {
    if b == [] {
      assert a + b == a;
    } else {
      assert (a + b)[..|a + b| - 1] == a + b[..|b| - 1];
      RunSplits(start, a, b[..|b| - 1]);
    }
  }

  ghost predicate HasFired(q: Queue, id: nat)
  {
    exists f :: f in q.fired && f.timer.id == id
  }

  /** The timer is still pending, or has fired. */
  ghost predicate Accounted(q: Queue, t: Timer)
  {
    t in q.pending || exists f :: f in q.fired && f.timer == t
  }

  lemma StepAccounts(q: Queue, op: Op, t: Timer)
    requires Inv(q) && q.clock <= Time(op) && Accounted(q, t)
    ensures var r := Apply(q, op); Inv(r) && r.clock == Time(op) && q.fired <= r.fired && Accounted(r, t)
  {
    ClockForward(q, Time(op));
    match op
    case Schedule(now, delay) =>
      AddKeepsInv(q.(clock := now), now, delay);
    case Fire(at, callbacks) =>
      var p := q.(clock := at);
      FireLoopKeepsInv(p, at, callbacks);
      if t in p.pending {
        FireLoopKeeps(p, at, callbacks, t);
        assert Fired(t, at) in Apply(q, op).fired ==> Accounted(Apply(q, op), t);
      }
  }

  lemma {:induction false} RunAccounts(q: Queue, ops: seq<Op>, t: Timer)
    requires Inv(q) && Monotone(q.clock, ops) && Accounted(q, t)
    ensures var r := RunFrom(q, ops);
            && Inv(r) && r.clock == (if ops == [] then q.clock else Time(ops[|ops| - 1])) && Accounted(r, t)
  {
    if ops != [] {
      RunAccounts(q, ops[..|ops| - 1], t);
      StepAccounts(RunFrom(q, ops[..|ops| - 1]), ops[|ops| - 1], t);
    }
  }

  /** A pending timer has fired by a call at `at`, whatever came before, exactly if its deadline is not later. */
  lemma PendingFiresExactly(q: Queue, t: Timer, ops: seq<Op>, at: int, callbacks: Callbacks)
    requires Inv(q) && t in q.pending && Monotone(q.clock, ops + [Fire(at, callbacks)])
    ensures HasFired(RunFrom(q, ops + [Fire(at, callbacks)]), t.id) <==> t.deadline <= at
  {
    var all := ops + [Fire(at, callbacks)];
    assert all[..|all| - 1] == ops && all[|all| - 1] == Fire(at, callbacks);
    assert forall i :: 0 <= i < |ops| ==> all[i] == ops[i];
    RunAccounts(q, ops, t);
    var r := RunFrom(q, ops);
    if ops != [] {
      assert Time(all[|ops| - 1]) <= Time(all[|ops|]);
    }
    CallDecides(r, t, at, callbacks);
  }

  lemma CallDecides(r: Queue, t: Timer, at: int, callbacks: Callbacks)
    requires Inv(r) && r.clock <= at && Accounted(r, t)
    ensures HasFired(Apply(r, Fire(at, callbacks)), t.id) <==> t.deadline <= at
  {
    var p, r' := r.(clock := at), Apply(r, Fire(at, callbacks));
    ClockForward(r, at);
    FireLoopKeepsInv(p, at, callbacks);
    if t in r.pending {
      DueTimersFire(p, at, callbacks, t);
      if t.deadline <= at {
        assert Fired(t, at) in r'.fired;
      } else {
        assert t in r'.pending;
      }
    } else {
      var f :| f in r.fired && f.timer == t;
      assert f in r'.fired;
    }
  }

  /** A timer armed at `now` with `delay` has fired by a later call at `at` if and only if the delay has passed by
      then, whatever else is scheduled and fired in between. */
  lemma ScheduledFiresExactly(start: int, ops: seq<Op>, now: int, delay: Positive, more: seq<Op>, at: int, callbacks: Callbacks)
    requires Monotone(start, ops + [Schedule(now, delay)]) && Monotone(now, more + [Fire(at, callbacks)])
    ensures var id := Run(start, ops).nextId;
            HasFired(Run(start, (ops + [Schedule(now, delay)]) + (more + [Fire(at, callbacks)])), id) <==> at - now >= delay
  {
    var armed, rest := ops + [Schedule(now, delay)], more + [Fire(at, callbacks)];
    assert armed[..|armed| - 1] == ops && armed[|armed| - 1] == Schedule(now, delay);
    RunKeepsInv(start, armed);
    RunSplits(start, armed, rest);
    var q, t := Run(start, armed), Timer(Run(start, ops).nextId, now + delay);
    assert q.pending[|q.pending| - 1] == t;
    PendingFiresExactly(q, t, more, at, callbacks);
  }

  // ---- Timers that callbacks arm ----

  /** What a list of additions leaves in the queue. */
  lemma {:induction false} AddAllArms(q: Queue, now: int, adds: seq<Add>, j: nat)
    requires j < |adds|
    ensures var r := AddAll(q, now, adds);
            && |r.pending| == |q.pending| + |adds| && r.nextId == q.nextId + |adds|
            && r.pending[|q.pending| + j] == Timer(q.nextId + j, now + adds[j].elapsed + adds[j].delay)
  {
    var n := |adds| - 1;
    AddAllCounts(q, now, adds[..n]);
    AddAllNumbers(q, now, adds[..n]);
    if j < n {
      AddAllArms(q, now, adds[..n], j);
    }
  }

  lemma {:induction false} AddAllNumbers(q: Queue, now: int, adds: seq<Add>)
    ensures AddAll(q, now, adds).nextId == q.nextId + |adds|
  {
    if adds != [] {
      AddAllNumbers(q, now, adds[..|adds| - 1]);
    }
  }

  /** The queue after `n` turns of the loop. */
  function FireTimes(q: Queue, now: int, callbacks: Callbacks, n: nat): Queue
  {
    if n == 0 then q
    else
      var p := FireTimes(q, now, callbacks, n - 1);
      if HasDue(p, now) then FireOne(p, now, callbacks) else p
  }

  lemma {:induction false} LoopGoesOn(q: Queue, now: int, callbacks: Callbacks, n: nat, p: Queue)
    requires Inv(q) && q.clock == now && p == FireTimes(q, now, callbacks, n)
    ensures Inv(p) && p.clock == now && FireLoop(q, now, callbacks) == FireLoop(p, now, callbacks)
  {
    if n > 0 {
      var o := FireTimes(q, now, callbacks, n - 1);
      LoopGoesOn(q, now, callbacks, n - 1, o);
      if HasDue(o, now) {
        LoopTurnKeeps(o, now, callbacks, p);
      }
    }
  }

  lemma LoopTurnKeeps(p: Queue, now: int, callbacks: Callbacks, r: Queue)
    requires Inv(p) && p.clock == now && HasDue(p, now) && r == FireOne(p, now, callbacks)
    ensures Inv(r) && r.clock == now && FireLoop(p, now, callbacks) == FireLoop(r, now, callbacks)
  {
    FireOneKeepsInv(p, now, callbacks);
    LoopTurn(p, now, callbacks, r);
  }

  lemma LoopTurn(p: Queue, now: int, callbacks: Callbacks, r: Queue)
    requires HasDue(p, now) && r == FireOne(p, now, callbacks)
    ensures FireLoop(p, now, callbacks) == FireLoop(r, now, callbacks)
  {
    FiringMakesProgress(p, now, callbacks);
  }

  lemma ArmedInTurn(p: Queue, now: int, callbacks: Callbacks, j: nat, adds: seq<Add>, r: Queue)
    requires HasDue(p, now) && adds == callbacks(p.pending[Earliest(p.pending)]) && j < |adds| && r == FireOne(p, now, callbacks)
    ensures Timer(p.nextId + j, now + adds[j].elapsed + adds[j].delay) in r.pending
  {
    var q := Taken(p, now, Earliest(p.pending));
    AddAllArms(q, now, adds, j);
    assert r.pending[|q.pending| + j] == Timer(p.nextId + j, now + adds[j].elapsed + adds[j].delay);
  }

  lemma CallbackArms(p: Queue, now: int, callbacks: Callbacks, j: nat, adds: seq<Add>, t: Timer)
    requires Inv(p) && p.clock == now && HasDue(p, now) && adds == callbacks(p.pending[Earliest(p.pending)]) && j < |adds|
    requires t == Timer(p.nextId + j, now + adds[j].elapsed + adds[j].delay)
    ensures t in FireLoop(p, now, callbacks).pending
  {
    var r := FireOne(p, now, callbacks);
    FireOneKeepsInv(p, now, callbacks);
    ArmedInTurn(p, now, callbacks, j, adds, r);
    LoopTurn(p, now, callbacks, r);
    NotDueStays(r, now, callbacks, t);
  }

  lemma NotDueStays(r: Queue, now: int, callbacks: Callbacks, t: Timer)
    requires Inv(r) && r.clock == now && t in r.pending && t.deadline > now
    ensures t in FireLoop(r, now, callbacks).pending
  {
    DueTimersFire(r, now, callbacks, t);
  }

  /** The same for a timer that the callback of the n-th timer fired in a call arms `elapsed` after the call
      started: `p` is the queue as that timer is taken, `adds` what its callback adds. */
  lemma CallbackTimerFiresExactly(start: int, ops: seq<Op>, now: int, callbacks: Callbacks, n: nat, j: nat, p: Queue, adds: seq<Add>,
                                  more: seq<Op>, at: int, callbacks': Callbacks)
    requires Monotone(start, ops + [Fire(now, callbacks)]) && Monotone(now, more + [Fire(at, callbacks')])
    requires p == FireTimes(Run(start, ops).(clock := now), now, callbacks, n) && HasDue(p, now)
    requires adds == callbacks(p.pending[Earliest(p.pending)]) && j < |adds|
    ensures HasFired(Run(start, (ops + [Fire(now, callbacks)]) + (more + [Fire(at, callbacks')])), p.nextId + j)
            <==> at - (now + adds[j].elapsed) >= adds[j].delay
  {
    var called, rest := ops + [Fire(now, callbacks)], more + [Fire(at, callbacks')];
    var t := Timer(p.nextId + j, now + adds[j].elapsed + adds[j].delay);
    CalledState(start, ops, now, callbacks, n, p);
    CallbackArms(p, now, callbacks, j, adds, t);
    RunSplits(start, called, rest);
    PendingFiresExactly(Run(start, called), t, more, at, callbacks');
  }

  lemma CalledState(start: int, ops: seq<Op>, now: int, callbacks: Callbacks, n: nat, p: Queue)
    requires Monotone(start, ops + [Fire(now, callbacks)])
    requires p == FireTimes(Run(start, ops).(clock := now), now, callbacks, n)
    ensures Inv(p) && p.clock == now
    ensures var r := Run(start, ops + [Fire(now, callbacks)]); Inv(r) && r.clock == now && r == FireLoop(p, now, callbacks)
  {
    var called := ops + [Fire(now, callbacks)];
    assert called[..|called| - 1] == ops && called[|called| - 1] == Fire(now, callbacks);
    MonotonePrefix(start, ops, Fire(now, callbacks));
    RunKeepsInv(start, ops);
    RunKeepsInv(start, called);
    ClockForward(Run(start, ops), now);
    LoopGoesOn(Run(start, ops).(clock := now), now, callbacks, n, p);
  }

  lemma MonotonePrefix(start: int, ops: seq<Op>, op: Op)
    requires Monotone(start, ops + [op])
    ensures Monotone(start, ops) && start <= Time(op) && (ops != [] ==> Time(ops[|ops| - 1]) <= Time(op))
  {
    var all := ops + [op];
    assert forall i :: 0 <= i < |ops| ==> all[i] == ops[i];
    assert all[|ops|] == op;
    if ops != [] {
      assert Time(all[|ops| - 1]) <= Time(all[|ops|]);
    }
  }

  // ---- Nothing is lost ----

  ghost predicate Known(q: Queue, id: nat)
  {
    (exists t :: t in q.pending && t.id == id) || (exists f :: f in q.fired && f.timer.id == id)
  }

  lemma AddKnows(q: Queue, now: int, delay: Positive)
    ensures var r := AddTimer(q, now, delay);
            forall id :: 0 <= id < r.nextId ==> id == q.nextId || Known(q, id) ==> Known(r, id)
  {
    var r := AddTimer(q, now, delay);
    assert r.pending[|q.pending|] == Timer(q.nextId, now + delay);
    assert forall t :: t in q.pending ==> t in r.pending;
  }

  lemma {:induction false} AddAllKnows(q: Queue, now: int, adds: seq<Add>, id: nat)
    requires id < q.nextId ==> Known(q, id)
    ensures var r := AddAll(q, now, adds); q.nextId <= r.nextId && (id < r.nextId ==> Known(r, id))
  {
    if adds != [] {
      var n := |adds| - 1;
      AddAllKnows(q, now, adds[..n], id);
      AddKnows(AddAll(q, now, adds[..n]), now + adds[n].elapsed, adds[n].delay);
    }
  }

  lemma TakeKnows(q: Queue, now: int, i: nat, id: nat)
    requires i < |q.pending| && Known(q, id)
    ensures Known(Taken(q, now, i), id)
  {
    var r := Taken(q, now, i);
    assert r.fired[|q.fired|].timer == q.pending[i];
    assert forall f :: f in q.fired ==> f in r.fired;
    if t :| t in q.pending && t.id == id {
      var j :| 0 <= j < |q.pending| && q.pending[j] == t;
      if j != i {
        WithoutAt(q.pending, i, if j < i then j else j - 1);
        assert t in r.pending;
      }
    }
  }

  lemma {:induction false} FireLoopKnows(q: Queue, now: int, callbacks: Callbacks, id: nat)
    requires id < q.nextId ==> Known(q, id)
    ensures var r := FireLoop(q, now, callbacks); id < r.nextId ==> Known(r, id)
    decreases DueCount(q.pending, now)
  {
    if HasDue(q, now) {
      var i := Earliest(q.pending);
      FiringMakesProgress(q, now, callbacks);
      if id < q.nextId {
        TakeKnows(q, now, i, id);
      }
      AddAllKnows(Taken(q, now, i), now, callbacks(q.pending[i]), id);
      FireLoopKnows(FireOne(q, now, callbacks), now, callbacks, id);
    }
  }

  /** In every run each timer ever added is pending or has fired, and not both. */
  lemma {:induction false} NoTimerIsLost(start: int, ops: seq<Op>, id: nat)
    requires Monotone(start, ops) && id < Run(start, ops).nextId
    ensures var q := Run(start, ops);
            (exists t :: t in q.pending && t.id == id) <==> !(exists f :: f in q.fired && f.timer.id == id)
  {
    RunKnows(start, ops, id);
    RunKeepsInv(start, ops);
  }

  lemma {:induction false} RunKnows(start: int, ops: seq<Op>, id: nat)
    ensures var q := Run(start, ops); id < q.nextId ==> Known(q, id)
  {
    if ops != [] {
      var n := |ops| - 1;
      RunKnows(start, ops[..n], id);
      var q := Run(start, ops[..n]);
      match ops[n]
      case Schedule(now, delay) =>
        ClockKeepsKnown(q, now, id);
        AddKnows(q.(clock := now), now, delay);
      case Fire(at, callbacks) =>
        ClockKeepsKnown(q, at, id);
        FireLoopKnows(q.(clock := at), at, callbacks, id);
    }
  }

  lemma ClockKeepsKnown(q: Queue, now: int, id: nat)
    ensures Known(q.(clock := now), id) == Known(q, id)
  {
  }

  /** A call leaves nothing due behind, and undoes nothing that fired earlier. */
  lemma NothingDueRemains(start: int, ops: seq<Op>, at: int, callbacks: Callbacks)
    requires Monotone(start, ops) && Run(start, ops).clock <= at
    ensures var q := Run(start, ops);
            var r := FireDueTimers(q, at, callbacks);
            q.fired <= r.fired && forall i :: 0 <= i < |r.pending| ==> r.pending[i].deadline > at
  {
    RunKeepsInv(start, ops);
    ClockForward(Run(start, ops), at);
    FireLoopKeepsInv(Run(start, ops).(clock := at), at, callbacks);
  }

  // ---- A timer that re-arms itself never goes away ----

  lemma {:induction false} AddAllCounts(q: Queue, now: int, adds: seq<Add>)
    ensures |AddAll(q, now, adds).pending| == |q.pending| + |adds|
  {
    if adds != [] {
      AddAllCounts(q, now, adds[..|adds| - 1]);
    }
  }

  lemma {:induction false} FireLoopCounts(q: Queue, now: int, callbacks: Callbacks)
    requires forall t :: |callbacks(t)| == 1
    ensures |FireLoop(q, now, callbacks).pending| == |q.pending|
    decreases DueCount(q.pending, now)
  {
    if HasDue(q, now) {
      var i := Earliest(q.pending);
      AddAllCounts(Taken(q, now, i), now, callbacks(q.pending[i]));
      FiringMakesProgress(q, now, callbacks);
      FireLoopCounts(FireOne(q, now, callbacks), now, callbacks);
    }
  }

  /** If every callback arms exactly one timer, as the sweep does, then however often the loop fires there are
      always as many timers pending as were scheduled: the sweep, scheduled once, is always pending once. */
  lemma {:induction false} SweepStaysArmed(start: int, ops: seq<Op>)
    requires forall i :: 0 <= i < |ops| && ops[i].Fire? ==> forall t :: |ops[i].callbacks(t)| == 1
    ensures |Run(start, ops).pending| == Schedules(ops)
  {
    if ops != [] {
      var n := |ops| - 1;
      SweepStaysArmed(start, ops[..n]);
      var op := ops[n];
      if op.Fire? {
        assert forall t :: |op.callbacks(t)| == 1;
        FireLoopCounts(Run(start, ops[..n]).(clock := op.at), op.at, op.callbacks);
      }
    }
  }

  function Schedules(ops: seq<Op>): nat
  {
    if ops == [] then 0 else Schedules(ops[..|ops| - 1]) + if ops[|ops| - 1].Schedule? then 1 else 0
  }

  // ---- Why delays must be positive ----

  /** One turn of the loop with a callback that arms one timer, `delay` after the call started. */
  function Rearm(pending: seq<Timer>, now: int, delay: int): seq<Timer>
    requires pending != []
  {
    var i := Earliest(pending);
    Without(pending, i) + [Timer(pending[i].id, now + delay)]
  }

  /** `n` turns, each of which finds a timer left. */
  function RearmTimes(pending: seq<Timer>, now: int, delay: int, n: nat): (r: seq<Timer>)
    requires pending != []
    ensures |r| == |pending|
  {
    if n == 0 then pending else Rearm(RearmTimes(pending, now, delay, n - 1), now, delay)
  }

  predicate AnyDue(pending: seq<Timer>, now: int)
    requires pending != []
  {
    pending[Earliest(pending)].deadline <= now
  }

  lemma {:induction false} DueIsCounted(pending: seq<Timer>, now: int)
    requires pending != []
    ensures AnyDue(pending, now) <==> DueCount(pending, now) > 0
  {
    DueCountWithout(pending, Earliest(pending), now);
    if !AnyDue(pending, now) {
      NoneDue(pending, now);
    }
  }

  lemma {:induction false} NoneDue(pending: seq<Timer>, now: int)
    requires forall i :: 0 <= i < |pending| ==> pending[i].deadline > now
    ensures DueCount(pending, now) == 0
  {
    if pending != [] {
      NoneDue(pending[..|pending| - 1], now);
    }
  }

  lemma RearmCount(pending: seq<Timer>, now: int, delay: int)
    requires pending != [] && DueCount(pending, now) > 0
    ensures DueCount(Rearm(pending, now, delay), now) == DueCount(pending, now) - if delay > 0 then 1 else 0
  {
    DueIsCounted(pending, now);
    var i := Earliest(pending);
    DueCountWithout(pending, i, now);
    var p := Rearm(pending, now, delay);
    assert p[..|p| - 1] == Without(pending, i);
  }

  lemma {:induction false} RearmTimesCount(pending: seq<Timer>, now: int, delay: int, n: nat, count: nat)
    requires pending != [] && DueCount(pending, now) == count > 0 && (delay > 0 ==> n <= count)
    ensures DueCount(RearmTimes(pending, now, delay, n), now) == count - if delay > 0 then n else 0
  {
    if n > 0 {
      RearmTimesCount(pending, now, delay, n - 1, count);
      OneMoreRearm(pending, now, delay, n, RearmTimes(pending, now, delay, n - 1));
    }
  }

  lemma OneMoreRearm(pending: seq<Timer>, now: int, delay: int, n: nat, p: seq<Timer>)
    requires pending != [] && n > 0 && p == RearmTimes(pending, now, delay, n - 1) && DueCount(p, now) > 0
    ensures DueCount(RearmTimes(pending, now, delay, n), now) == DueCount(p, now) - if delay > 0 then 1 else 0
  {
    RearmCount(p, now, delay);
  }

  /** A call whose callbacks each arm another timer ends, whatever is due, if and only if that timer lies
      in the future of the call. */
  lemma RearmingEnds(pending: seq<Timer>, now: int, delay: int)
    requires pending != [] && AnyDue(pending, now)
    ensures (exists n: nat :: !AnyDue(RearmTimes(pending, now, delay, n), now)) <==> delay > 0
  {
    var count := DueCount(pending, now);
    DueIsCounted(pending, now);
    if delay > 0 {
      RearmTimesCount(pending, now, delay, count, count);
      DueIsCounted(RearmTimes(pending, now, delay, count), now);
    } else {
      forall n: nat
        ensures AnyDue(RearmTimes(pending, now, delay, n), now)
      {
        RearmTimesCount(pending, now, delay, n, count);
        DueIsCounted(RearmTimes(pending, now, delay, n), now);
      }
    }
  }

  // ---- The class ----

  class EventLoop {
    var pending: seq<Timer>
    var fired: seq<Fired>
    var nextId: nat
    var clock: int

    function Value(): Queue
      reads this
    {
      Queue(pending, fired, nextId, clock)
    }

    constructor (start: int)
      ensures Value() == Queue([], [], 0, start)
    {
      pending, fired, nextId, clock := [], [], 0, start;
    }

    method Schedule(now: int, delay: Positive)
      modifies this`pending, this`nextId
      ensures Value() == AddTimer(old(Value()), now, delay)
      ensures pending == old(pending) + [Timer(old(nextId), now + delay)]
    {
      pending := pending + [Timer(nextId, now + delay)];
      nextId := nextId + 1;
    }

    /** The callback of `due`, adding to the queue it was just taken from. */
    method RunCallback(now: int, adds: seq<Add>)
      modifies this`pending, this`nextId
      ensures Value() == AddAll(old(Value()), now, adds)
    {
      for i := 0 to |adds|
        invariant Value() == AddAll(old(Value()), now, adds[..i])
      {
        assert adds[..i + 1][..i] == adds[..i];
        Schedule(now + adds[i].elapsed, adds[i].delay);
      }
      assert adds[..|adds|] == adds;
    }

    method FireDue(now: int, callbacks: Callbacks)
      modifies this
      ensures Value() == FireDueTimers(old(Value()), now, callbacks)
    {
      clock := now;
      while pending != [] && pending[Earliest(pending)].deadline <= now
        invariant FireLoop(Value(), now, callbacks) == FireDueTimers(old(Value()), now, callbacks)
        decreases DueCount(pending, now)
      {
        FiringMakesProgress(Value(), now, callbacks);
        var i := Earliest(pending);
        var due := pending[i];
        pending := Without(pending, i);
        fired := fired + [Fired(due, now)];
        RunCallback(now, callbacks(due));
      }
    }
  }
}
