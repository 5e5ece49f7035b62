/** A dashboard's commands and the store together: bytes come in, lines are split off, and each ACK line closes
    what it can in the store and is answered with what the store reports. */
module Commands {
  import opened Common
  import opened Decimal
  import opened LineLoops
  import opened Sequences
  import opened Split
  import opened StoreModel
  import opened StoreRuns
  import opened TextProtocol
  import Text = TextStream

  /** The unfinished line, the number of lines handled, the store, and the subscriber. */
  datatype Desk = Desk(buffer: string, handled: nat, store: Store, sub: Text.Sub)

  /** What everybody else does to the store before the i-th line is handled, and the time at which it is. */
  datatype World = World(others: int -> seq<Op>, clock: int -> int)

  /** The session an ACK line names. */
  function Acked(line: string): Option<u16>
  {
    var n := Text.FirstSpace(line);
    if line[..n] != "ACK" then None
    else
      match ReadUnsigned(if n < |line| then line[n + 1..] else "", MAX_U16)
      case Fail => None
      case Got(session, rest) => if SkipSpace(rest) == "" then Some(session as u16) else None
  }

  /** A line acknowledges a session in the store exactly if the subscriber answers it as an acknowledgement. */
  lemma AckedExactly(s: Text.Sub, line: string, session: u16, ack: AckResult)
    ensures Acked(line) == Some(session) <==> Text.HandleLine(s, line, ack) == Text.Emit(s, Text.AckReply(session, ack))
  {
    var n := Text.FirstSpace(line);
    var verb, args := line[..n], if n < |line| then line[n + 1..] else "";
    Text.EmitChanges(s, Text.AckReply(session, ack));
    if verb == "ACK" {
      Text.AckHandled(s, args, session, ack);
    } else {
      NotAnAck(s, verb, args, session, ack);
    }
  }

  lemma NotAnAck(s: Text.Sub, verb: string, args: string, session: u16, ack: AckResult)
    requires verb != "ACK"
    ensures Text.HandleCommand(s, verb, args, ack) != Text.Emit(s, Text.AckReply(session, ack))
  {
    var e := Text.AckReply(session, ack);
    assert |Text.Emit(s, e).emitted| == |s.emitted| + 1;
    Text.EmitIsInjective(s, Text.StatsReply(s.metric, s.updatesSent), e);
  }

  /** How lines are read and handled. The proofs below take this as a parameter, so that they do not depend on
      how a line is taken apart. */
  datatype Rules = Rules(acked: string -> Option<u16>, handle: Command)

  function Handler(): Command
  {
    (s, line, ack) => Text.HandleLine(s, line, ack)
  }

  function TheRules(): Rules
  {
    Rules((line: string) => Acked(line), Handler())
  }

  /** What the store would report to this line. */
  function ReportTo(p: Rules, d: Desk, line: string, w: World): AckResult
  {
    match p.acked(line)
    case None => AckResult(false, 0, false, false, 0)
    case Some(session) => AckReport(Run(d.store, w.others(d.handled)), session, w.clock(d.handled))
  }

  /** What this line asks of the store. */
  function Asked(p: Rules, line: string, now: int): seq<Op>
  {
    match p.acked(line)
    case None => []
    case Some(session) => [DoAck(session, now)]
  }

  /** One complete line, a carriage return at its end left out. */
  function Execute(p: Rules, d: Desk, raw: string, w: World): Desk
  {
    var line := Strip(raw);
    Desk(d.buffer, d.handled + 1, Run(Run(d.store, w.others(d.handled)), Asked(p, line, w.clock(d.handled))),
         p.handle(d.sub, line, ReportTo(p, d, line, w)))
  }

  function Executing(p: Rules, w: World): Stepping<Desk, string>
  {
    (d: Desk, raw: string, i: int) => Execute(p, d, raw, w)
  }

  /** A chunk of bytes arrives and `on_readable` runs; `step` says what a line does. */
  function Arrive(step: Stepping<Desk, string>, d: Desk, chunk: string): Desk
  {
    var bytes := d.buffer + chunk;
    FoldAt(step, d, Segments(NEWLINE, bytes), 0).(buffer := Tail(NEWLINE, bytes))
  }

  function ArriveAll(step: Stepping<Desk, string>, d: Desk, chunks: seq<string>): Desk
  {
    if chunks == [] then d else Arrive(step, ArriveAll(step, d, chunks[..|chunks| - 1]), chunks[|chunks| - 1])
  }

  // ---- How the bytes are cut does not matter ----

  /** Keeping an unfinished line aside. */
  function Keeping(t: string): Desk -> Desk
  {
    (d: Desk) => d.(buffer := t)
  }

  /** A line's effect depends neither on where it stands in the chunk nor on what is unfinished behind it. */
  ghost predicate LineByLine(step: Stepping<Desk, string>)
  {
    && (forall n, d, raw, i {:trigger Shifted(step, step, n, d, raw, i)} :: Shifted(step, step, n, d, raw, i))
    && (forall t, d, raw, i {:trigger Commutes(step, Keeping(t), d, raw, i)} :: Commutes(step, Keeping(t), d, raw, i))
  }

  lemma ExecuteKeeps(p: Rules, d: Desk, raw: string, w: World, t: string)
    ensures Execute(p, d.(buffer := t), raw, w) == Execute(p, d, raw, w).(buffer := t)
  {
  }

  lemma ExecutingLineByLine(p: Rules, w: World)
    ensures LineByLine(Executing(p, w))
  {
    forall t: string, d: Desk, raw: string, i: int
      ensures Commutes(Executing(p, w), Keeping(t), d, raw, i)
    {
      ExecuteKeeps(p, d, raw, w, t);
    }
  }

  lemma ArriveMore(step: Stepping<Desk, string>, d: Desk, a: string, b: string)
    requires LineByLine(step) && d.buffer == ""
    ensures Arrive(step, Arrive(step, d, a), b) == Arrive(step, d, a + b)
  {
    var t := Tail(NEWLINE, a);
    SegmentsResume(NEWLINE, a, b);
    assert d.buffer + a == a && d.buffer + (a + b) == a + b;
    FoldThrough(step, Keeping(t), FoldAt(step, d, Segments(NEWLINE, a), 0), Segments(NEWLINE, t + b), 0);
    FoldTwice(step, d, Segments(NEWLINE, a), Segments(NEWLINE, t + b));
  }

  lemma {:induction false} ChunksArrive(step: Stepping<Desk, string>, d: Desk, chunks: seq<string>)
    requires LineByLine(step) && d.buffer == ""
    ensures ArriveAll(step, d, chunks) == Arrive(step, d, Joined(chunks))
  {
    if chunks == [] {
      assert d.buffer + "" == "";
    } else {
      var front, last := chunks[..|chunks| - 1], chunks[|chunks| - 1];
      ChunksArrive(step, d, front);
      ArriveMore(step, d, Joined(front), last);
    }
  }

  lemma ArriveWhole(step: Stepping<Desk, string>, d: Desk, lines: seq<string>)
    requires d.buffer == "" && forall i :: 0 <= i < |lines| ==> NEWLINE !in lines[i]
    ensures Arrive(step, d, Wire(NEWLINE, lines)) == FoldAt(step, d, lines, 0).(buffer := "")
  {
    var bytes := Wire(NEWLINE, lines);
    assert d.buffer + bytes == bytes;
    SegmentsOfWire(NEWLINE, lines);
  }

  // ---- The scanning loop computes this ----

  /** What the loop's handler does to the subscriber is what the step does. */
  predicate HandledBy(handle: Command, step: Stepping<Desk, string>, report: (Desk, string) -> AckResult, d: Desk, raw: string, i: int)
  {
    step(d, raw, i).sub == handle(d.sub, Strip(raw), report(d, Strip(raw)))
  }

  lemma {:induction false} LoopFollows(handle: Command, step: Stepping<Desk, string>, report: (Desk, string) -> AckResult,
                                       d: Desk, lines: seq<string>, acks: int -> AckResult)
    requires forall d, raw, i {:trigger HandledBy(handle, step, report, d, raw, i)} :: HandledBy(handle, step, report, d, raw, i)
    requires forall i :: 0 <= i < |lines| ==> acks(i) == report(FoldAt(step, d, lines[..i], 0), Strip(lines[i]))
    ensures HandleLines(handle, d.sub, lines, acks) == FoldAt(step, d, lines, 0).sub
  {
    if lines != [] {
      var n := |lines| - 1;
      var front := lines[..n];
      forall i | 0 <= i < n
        ensures acks(i) == report(FoldAt(step, d, front[..i], 0), Strip(front[i]))
      {
        assert front[..i] == lines[..i];
      }
      LoopFollows(handle, step, report, d, front, acks);
      assert HandledBy(handle, step, report, FoldAt(step, d, front, 0), lines[n], n);
    }
  }

  function Reporting(p: Rules, w: World): (Desk, string) -> AckResult
  {
    (d: Desk, line: string) => ReportTo(p, d, line, w)
  }

  lemma HandlerHandles(p: Rules, w: World)
    ensures forall d, raw, i {:trigger HandledBy(p.handle, Executing(p, w), Reporting(p, w), d, raw, i)} ::
              HandledBy(p.handle, Executing(p, w), Reporting(p, w), d, raw, i)
  {
  }

  /** With what the store reports to each line in turn, the subscriber's loop leaves this subscriber. */
  lemma LoopExecutes(p: Rules, d: Desk, lines: seq<string>, w: World, acks: int -> AckResult)
    requires forall i :: 0 <= i < |lines| ==> acks(i) == Reporting(p, w)(FoldAt(Executing(p, w), d, lines[..i], 0), Strip(lines[i]))
    ensures HandleLines(p.handle, d.sub, lines, acks) == FoldAt(Executing(p, w), d, lines, 0).sub
  {
    HandlerHandles(p, w);
    LoopFollows(p.handle, Executing(p, w), Reporting(p, w), d, lines, acks);
  }

  // ---- ACK commands ----

  function AckLine(session: u16): string
  {
    "ACK" + " " + NatText(session as nat)
  }

  function AckLines(ks: seq<u16>): seq<string>
  {
    Map(k => AckLine(k), ks)
  }

  /** Everything that happens to the store while sessions are acknowledged, and the answers. */
  datatype Acks = Acks(ops: seq<Op>, replies: seq<Text.Emission>)

  /** One more: what the others do, the acknowledgement, and what the store reports for it at its time. */
  function NextAck(s: Store, a: Acks, session: u16, others: seq<Op>, now: int): Acks
  {
    Acks(a.ops + others + [DoAck(session, now)],
         a.replies + [Text.AckReply(session, AckReport(Run(s, a.ops + others), session, now))])
  }

  function Acking(s: Store, w: World): Stepping<Acks, u16>
  {
    (a: Acks, session: u16, i: int) => NextAck(s, a, session, w.others(i), w.clock(i))
  }

  /** Acknowledging the sessions `ks` in order, starting with line number `base`. */
  function AcksOf(s: Store, ks: seq<u16>, w: World, base: nat): Acks
  {
    FoldAt(Acking(s, w), Acks([], []), ks, base)
  }

  lemma AckLineIs(session: u16)
    ensures Acked(AckLine(session)) == Some(session) && Strip(AckLine(session)) == AckLine(session) && NEWLINE !in AckLine(session)
  {
    var text := NatText(session as nat);
    Text.FirstSpaceIs("ACK", text);
    var line := AckLine(session);
    assert line[..3] == "ACK" && line[4..] == text;
    Text.ReadArgument(session as nat);
    Text.DigitsAreOneLine(session as nat);
    Text.PrefixedOneLine("ACK" + " ", text);
    Text.StripOneLine(line);
  }

  /** The line acknowledges this session: it names it, and is answered with the report given. */
  ghost predicate IsAck(p: Rules, line: string, session: u16)
  {
    && Strip(line) == line && p.acked(line) == Some(session)
    && (forall s, ack {:trigger p.handle(s, line, ack)} :: p.handle(s, line, ack) == Text.Emit(s, Text.AckReply(session, ack)))
  }

  lemma AckLineIsAck(session: u16)
    ensures IsAck(TheRules(), AckLine(session), session)
  {
    AckLineIs(session);
    forall s, ack
      ensures TheRules().handle(s, AckLine(session), ack) == Text.Emit(s, Text.AckReply(session, ack))
    {
      Text.AckCommand(s, session, ack);
    }
  }

  lemma ExecuteAck(p: Rules, d: Desk, line: string, session: u16, w: World)
    requires IsAck(p, line, session)
    ensures var s, now := Run(d.store, w.others(d.handled)), w.clock(d.handled);
            Execute(p, d, line, w) == Desk(d.buffer, d.handled + 1, Apply(s, DoAck(session, now)),
                                           Text.Emit(d.sub, Text.AckReply(session, AckReport(s, session, now))))
  {
    RunLast(Run(d.store, w.others(d.handled)), [], DoAck(session, w.clock(d.handled)));
    assert [] + [DoAck(session, w.clock(d.handled))] == [DoAck(session, w.clock(d.handled))];
  }

  /** The desk after these acknowledgements. */
  predicate HasAcked(r: Desk, d: Desk, n: nat, a: Acks)
  {
    && r.buffer == d.buffer && r.handled == d.handled + n
    && r.store == Run(d.store, a.ops) && r.sub == d.sub.(emitted := d.sub.emitted + a.replies)
  }

  lemma AckedNext(s: Store, ops: seq<Op>, others: seq<Op>, op: Op, s1: Store)
    requires s1 == Run(s, ops)
    ensures Run(s1, others) == Run(s, ops + others) && Apply(Run(s1, others), op) == Run(s, ops + others + [op])
  {
    RunConcat(s, ops, others);
    RunLast(s, ops + others, op);
  }

  lemma RepliedNext(sub: Text.Sub, replies: seq<Text.Emission>, e: Text.Emission)
    ensures Text.Emit(sub.(emitted := sub.emitted + replies), e) == sub.(emitted := sub.emitted + (replies + [e]))
  {
    Assoc(sub.emitted, replies, [e]);
  }

  lemma NextAcked(r: Desk, r': Desk, d: Desk, n: nat, a: Acks, k: u16, others: seq<Op>, s: Store, now: int)
    requires HasAcked(r, d, n, a) && s == Run(r.store, others)
    requires r' == Desk(r.buffer, r.handled + 1, Apply(s, DoAck(k, now)), Text.Emit(r.sub, Text.AckReply(k, AckReport(s, k, now))))
    ensures HasAcked(r', d, n + 1, NextAck(d.store, a, k, others, now))
  {
    AckedNext(d.store, a.ops, others, DoAck(k, now), r.store);
    RepliedNext(d.sub, a.replies, Text.AckReply(k, AckReport(s, k, now)));
  }

  function HavingAcked(d: Desk): Relating<Desk, Acks>
  {
    (r: Desk, a: Acks, n: int) => n >= 0 && HasAcked(r, d, n, a)
  }

  lemma InStep(step: Stepping<Desk, string>, step': Stepping<Acks, u16>, d: Desk, r: Desk, a: Acks, line: string, k: u16, n: nat,
               r': Desk, a': Acks)
    requires step(r, line, n) == r' && step'(a, k, d.handled + n) == a' && (HasAcked(r, d, n, a) ==> HasAcked(r', d, n + 1, a'))
    ensures StepsKeep(step, step', HavingAcked(d), r, a, line, k, d.handled, n)
  {
  }

  lemma ExecutingIs(p: Rules, w: World, r: Desk, line: string, n: nat)
    ensures Executing(p, w)(r, line, n) == Execute(p, r, line, w)
  {
  }

  lemma AckingIs(s: Store, w: World, a: Acks, k: u16, i: int)
    ensures Acking(s, w)(a, k, i) == NextAck(s, a, k, w.others(i), w.clock(i))
  {
  }

  /** Executing one ACK line keeps the desk and the list of acknowledgements in step. */
  lemma AckKeeps(p: Rules, d: Desk, w: World, r: Desk, a: Acks, k: u16, n: nat, line: string)
    requires IsAck(p, line, k)
    ensures StepsKeep(Executing(p, w), Acking(d.store, w), HavingAcked(d), r, a, line, k, d.handled, n)
  {
    if HasAcked(r, d, n, a) {
      ExecutingAckKeeps(p, d, w, r, a, k, n, line, Executing(p, w)(r, line, n), Acking(d.store, w)(a, k, d.handled + n));
    }
    InStep(Executing(p, w), Acking(d.store, w), d, r, a, line, k, n, Executing(p, w)(r, line, n), Acking(d.store, w)(a, k, d.handled + n));
  }

  lemma ExecutingAckKeeps(p: Rules, d: Desk, w: World, r: Desk, a: Acks, k: u16, n: nat, line: string, r': Desk, a': Acks)
    requires HasAcked(r, d, n, a) && IsAck(p, line, k)
    requires r' == Executing(p, w)(r, line, n) && a' == Acking(d.store, w)(a, k, d.handled + n)
    ensures HasAcked(r', d, n + 1, a')
  {
    var others, now := w.others(r.handled), w.clock(r.handled);
    ExecutingAck(p, w, r, line, k, n, Run(r.store, others), now, r');
    AckingIs(d.store, w, a, k, r.handled);
    NextAcked(r, r', d, n, a, k, others, Run(r.store, others), now);
  }

  lemma ExecutingAck(p: Rules, w: World, r: Desk, line: string, k: u16, n: nat, s: Store, now: int, r': Desk)
    requires IsAck(p, line, k) && r' == Executing(p, w)(r, line, n)
    requires s == Run(r.store, w.others(r.handled)) && now == w.clock(r.handled)
    ensures r' == Desk(r.buffer, r.handled + 1, Apply(s, DoAck(k, now)), Text.Emit(r.sub, Text.AckReply(k, AckReport(s, k, now))))
  {
    ExecutingIs(p, w, r, line, n);
    ExecuteAck(p, r, line, k, w);
  }

  lemma AcksStart(d: Desk)
    ensures HasAcked(d, d, 0, Acks([], []))
  {
    assert d.sub.emitted + [] == d.sub.emitted;
  }

  lemma ExecuteAcks(p: Rules, d: Desk, ks: seq<u16>, w: World, lines: seq<string>)
    requires |lines| == |ks| && forall n :: 0 <= n < |ks| ==> IsAck(p, lines[n], ks[n])
    ensures HasAcked(FoldAt(Executing(p, w), d, lines, 0), d, |ks|, AcksOf(d.store, ks, w, d.handled))
  {
    AcksStart(d);
    forall r, a, n | 0 <= n < |ks|
      ensures StepsKeep(Executing(p, w), Acking(d.store, w), HavingAcked(d), r, a, lines[n], ks[n], d.handled, n)
    {
      AckKeeps(p, d, w, r, a, ks[n], n, lines[n]);
    }
    FoldsRelate(Executing(p, w), d, lines, Acking(d.store, w), Acks([], []), ks, d.handled, HavingAcked(d));
  }

  lemma AcksArrive(p: Rules, d: Desk, ks: seq<u16>, chunks: seq<string>, w: World, lines: seq<string>)
    requires d.buffer == "" && Joined(chunks) == Wire(NEWLINE, lines)
    requires |lines| == |ks| && forall n :: 0 <= n < |ks| ==> IsAck(p, lines[n], ks[n]) && NEWLINE !in lines[n]
    ensures HasAcked(ArriveAll(Executing(p, w), d, chunks), d, |ks|, AcksOf(d.store, ks, w, d.handled))
  {
    ExecutingLineByLine(p, w);
    ChunksArrive(Executing(p, w), d, chunks);
    ArriveWhole(Executing(p, w), d, lines);
    ExecuteAcks(p, d, ks, w, lines);
  }

  /** A dashboard's ACK commands, cut into any chunks and with anything else happening to the store in between:
      each acknowledges its session in the store, in order, and is answered with what the store reports for it
      at that time. */
  lemma AcksReachStore(d: Desk, ks: seq<u16>, chunks: seq<string>, w: World)
    requires d.buffer == "" && Joined(chunks) == Wire(NEWLINE, AckLines(ks))
    ensures var r, a := ArriveAll(Executing(TheRules(), w), d, chunks), AcksOf(d.store, ks, w, d.handled);
            && r.buffer == "" && r.store == Run(d.store, a.ops) && r.sub == d.sub.(emitted := d.sub.emitted + a.replies)
  {
    var lines := AckLines(ks);
    forall n | 0 <= n < |ks|
      ensures IsAck(TheRules(), lines[n], ks[n]) && NEWLINE !in lines[n]
    {
      AckLineIsAck(ks[n]);
      AckLineIs(ks[n]);
    }
    AcksArrive(TheRules(), d, ks, chunks, w, lines);
  }
}
