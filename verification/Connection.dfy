/** A non-blocking socket's buffers and epoll interest (server/connection.cpp). What the kernel answers
    to each `send` and `recv` is a parameter; a list of answers that runs out stands for EAGAIN. */
module Connection {
  import opened Bits
  import opened Common
  import opened Sequences

  const HIGH_WATER_MARK: nat := 64 * 1024

  datatype SendResult = Accepted(count: Positive) | SendAgain | SendInterrupted | SendFailed

  datatype RecvResult = Arrived(data: seq<byte>) | PeerClosed | RecvAgain | RecvInterrupted | RecvFailed

  /** The connection as a value. `watchIn` and `watchOut` are what the event loop was last told; `sent`
      is what the kernel has taken so far. */
  datatype Conn = Conn(readBuffer: seq<byte>, writeBuffer: seq<byte>, writeInterest: bool, closed: bool,
                       watchIn: bool, watchOut: bool, sent: seq<byte>)

  const NEW_CONN := Conn([], [], false, false, true, false, [])

  predicate Congested(c: Conn)
  {
    |c.writeBuffer| >= HIGH_WATER_MARK
  }

  function UpdateInterest(c: Conn): Conn
  {
    c.(watchIn := !Congested(c), watchOut := c.writeInterest)
  }

  function EnqueueWrite(c: Conn, data: seq<byte>): Conn
  {
    UpdateInterest(c.(writeBuffer := c.writeBuffer + data, writeInterest := true))
  }

  function Taken(c: Conn, n: nat): Conn
  {
    var k := if n < |c.writeBuffer| then n else |c.writeBuffer|;
    c.(writeBuffer := c.writeBuffer[k..], sent := c.sent + c.writeBuffer[..k])
  }

  /** The loop of `try_write`; `closed` comes back set after a fatal error. */
  function Flush(c: Conn, answers: seq<SendResult>): Conn
    decreases |answers|
  {
    if c.writeBuffer == [] || answers == [] then c
    else
      match answers[0]
      case Accepted(n) => Flush(Taken(c, n), answers[1..])
      case SendAgain => c
      case SendInterrupted => Flush(c, answers[1..])
      case SendFailed => c.(closed := true)
  }

  /** Whether the loop of `try_write` ended in a fatal error. */
  predicate FlushFails(c: Conn, answers: seq<SendResult>)
    decreases |answers|
  {
    c.writeBuffer != [] && answers != [] &&
    match answers[0]
    case Accepted(n) => FlushFails(Taken(c, n), answers[1..])
    case SendAgain => false
    case SendInterrupted => FlushFails(c, answers[1..])
    case SendFailed => true
  }

  function TryWrite(c: Conn, answers: seq<SendResult>): Conn
  {
    var f := Flush(c, answers);
    if FlushFails(c, answers) then f else UpdateInterest(f.(writeInterest := f.writeBuffer != []))
  }

  function TryRead(c: Conn, answers: seq<RecvResult>): Conn
    decreases |answers|
  {
    if answers == [] then c
    else
      match answers[0]
      case Arrived(data) => TryRead(c.(readBuffer := c.readBuffer + data), answers[1..])
      case PeerClosed => c.(closed := true)
      case RecvAgain => c
      case RecvInterrupted => TryRead(c, answers[1..])
      case RecvFailed => c.(closed := true)
  }

  // ---- Runs ----

  datatype Op =
    | Enqueue(data: seq<byte>)
    | Write(sends: seq<SendResult>)
    | Read(recvs: seq<RecvResult>)
    | Consume(count: nat)

  function Apply(c: Conn, op: Op): Conn
  {
    match op
    case Enqueue(data) => EnqueueWrite(c, data)
    case Write(answers) => TryWrite(c, answers)
    case Read(answers) => TryRead(c, answers)
    case Consume(n) => c.(readBuffer := c.readBuffer[Least(n, |c.readBuffer|)..])
  }

  function Least(a: nat, b: nat): nat
  {
    if a < b then a else b
  }

  function Run(ops: seq<Op>): Conn
  {
    if ops == [] then NEW_CONN else Apply(Run(ops[..|ops| - 1]), ops[|ops| - 1])
  }

  /** Everything ever handed to `enqueue_write`, in order. */
  function Enqueued(ops: seq<Op>): seq<byte>
  {
    if ops == [] then []
    else
      var n := |ops| - 1;
      Enqueued(ops[..n]) + if ops[n].Enqueue? then ops[n].data else []
  }

  lemma TakenConserves(c: Conn, n: nat)
    ensures Taken(c, n).sent + Taken(c, n).writeBuffer == c.sent + c.writeBuffer && Taken(c, n).closed == c.closed
  {
    var k := if n < |c.writeBuffer| then n else |c.writeBuffer|;
    assert c.writeBuffer[..k] + c.writeBuffer[k..] == c.writeBuffer;
  }

  lemma {:induction false} FlushConserves(c: Conn, answers: seq<SendResult>)
    ensures var f := Flush(c, answers);
            && f.sent + f.writeBuffer == c.sent + c.writeBuffer
            && f.closed == (c.closed || FlushFails(c, answers))
    decreases |answers|
  {
    if c.writeBuffer != [] && answers != [] {
      match answers[0]
      case Accepted(n) =>
        TakenConserves(c, n);
        FlushConserves(Taken(c, n), answers[1..]);
      case SendAgain =>
      case SendInterrupted =>
        FlushConserves(c, answers[1..]);
      case SendFailed =>
    }
  }

  lemma {:induction false} ReadLeavesWriting(c: Conn, answers: seq<RecvResult>)
    ensures var r := TryRead(c, answers);
            && r == c.(readBuffer := r.readBuffer, closed := r.closed)
            && c.readBuffer <= r.readBuffer && (c.closed ==> r.closed)
    decreases |answers|
  {
    if answers != [] {
      match answers[0]
      case Arrived(data) => ReadLeavesWriting(c.(readBuffer := c.readBuffer + data), answers[1..]);
      case PeerClosed =>
      case RecvAgain =>
      case RecvInterrupted => ReadLeavesWriting(c, answers[1..]);
      case RecvFailed =>
    }
  }

  /** How many bytes the kernel offers to take before it first says no. */
  function Granted(answers: seq<SendResult>): nat
  {
    if answers == [] then 0
    else
      match answers[0]
      case Accepted(n) => n + Granted(answers[1..])
      case SendAgain => 0
      case SendInterrupted => Granted(answers[1..])
      case SendFailed => 0
  }

  /** `try_write` sends exactly what the kernel takes: all it is offered, or the whole buffer. */
  lemma {:induction false} SendsAllItCan(c: Conn, answers: seq<SendResult>)
    ensures var f, g := Flush(c, answers), Granted(answers);
            |f.sent| == |c.sent| + if g < |c.writeBuffer| then g else |c.writeBuffer|
    decreases |answers|
  {
    if c.writeBuffer != [] && answers != [] {
      match answers[0]
      case Accepted(n) => SendsAllItCan(Taken(c, n), answers[1..]);
      case SendAgain =>
      case SendInterrupted => SendsAllItCan(c, answers[1..]);
      case SendFailed =>
    }
  }

  /** The bytes that arrive before the kernel has no more, or the connection ends. */
  function Arrivals(answers: seq<RecvResult>): seq<byte>
  {
    if answers == [] then []
    else
      match answers[0]
      case Arrived(data) => data + Arrivals(answers[1..])
      case PeerClosed => []
      case RecvAgain => []
      case RecvInterrupted => Arrivals(answers[1..])
      case RecvFailed => []
  }

  /** `try_read` appends everything that arrives, in order, also what came before the peer closed. */
  lemma {:induction false} ReadsAllThatArrives(c: Conn, answers: seq<RecvResult>)
    ensures TryRead(c, answers).readBuffer == c.readBuffer + Arrivals(answers)
    decreases |answers|
  {
    if answers != [] {
      match answers[0]
      case Arrived(data) =>
        ReadsAllThatArrives(c.(readBuffer := c.readBuffer + data), answers[1..]);
        Assoc(c.readBuffer, data, Arrivals(answers[1..]));
      case PeerClosed =>
      case RecvAgain =>
      case RecvInterrupted =>
        ReadsAllThatArrives(c, answers[1..]);
      case RecvFailed =>
    }
  }

  /** The first answer that is neither data nor an interruption ends the connection. */
  predicate ReadEndsAt(answers: seq<RecvResult>, i: nat)
    requires i < |answers|
  {
    && (answers[i].PeerClosed? || answers[i].RecvFailed?)
    && forall j :: 0 <= j < i ==> answers[j].Arrived? || answers[j].RecvInterrupted?
  }

  ghost predicate ReadEnds(answers: seq<RecvResult>)
  {
    exists i :: 0 <= i < |answers| && ReadEndsAt(answers, i)
  }

  lemma ReadEndsLater(answers: seq<RecvResult>)
    requires answers != [] && (answers[0].Arrived? || answers[0].RecvInterrupted?)
    ensures ReadEnds(answers) <==> ReadEnds(answers[1..])
  {
    var rest := answers[1..];
    if i :| 0 <= i < |answers| && ReadEndsAt(answers, i) {
      assert i > 0 && ReadEndsAt(rest, i - 1);
    }
    if i :| 0 <= i < |rest| && ReadEndsAt(rest, i) {
      assert forall j :: 0 < j < |answers| ==> answers[j] == rest[j - 1];
      assert ReadEndsAt(answers, i + 1);
    }
  }

  /** `try_read` closes the connection exactly if the peer closed or an error came before the kernel had no more. */
  lemma {:induction false} ReadClosesExactly(c: Conn, answers: seq<RecvResult>)
    ensures TryRead(c, answers).closed <==> c.closed || ReadEnds(answers)
    decreases |answers|
  {
    if answers != [] {
      match answers[0]
      case Arrived(data) =>
        ReadEndsLater(answers);
        ReadClosesExactly(c.(readBuffer := c.readBuffer + data), answers[1..]);
      case PeerClosed => assert ReadEndsAt(answers, 0);
      case RecvAgain => NoReadEnd(answers);
      case RecvInterrupted =>
        ReadEndsLater(answers);
        ReadClosesExactly(c, answers[1..]);
      case RecvFailed => assert ReadEndsAt(answers, 0);
    }
  }

  lemma NoReadEnd(answers: seq<RecvResult>)
    requires answers != [] && answers[0].RecvAgain?
    ensures !ReadEnds(answers)
  {
    forall i | 0 <= i < |answers|
      ensures !ReadEndsAt(answers, i)
    {
      assert i > 0 ==> !(answers[0].Arrived? || answers[0].RecvInterrupted?);
    }
  }

  /** A fatal error is answered while the kernel had taken less than `pending` bytes. */
  predicate WriteFailsAt(answers: seq<SendResult>, i: nat, pending: nat)
    requires i < |answers|
  {
    && answers[i].SendFailed? && (forall j :: 0 <= j < i ==> answers[j].Accepted? || answers[j].SendInterrupted?)
    && Granted(answers[..i]) < pending
  }

  ghost predicate WriteFails(answers: seq<SendResult>, pending: nat)
  {
    exists i :: 0 <= i < |answers| && WriteFailsAt(answers, i, pending)
  }

  lemma WriteFailsLater(answers: seq<SendResult>, pending: nat, taken: nat)
    requires answers != [] && pending > 0
    requires if answers[0].Accepted? then taken == answers[0].count else answers[0].SendInterrupted? && taken == 0
    ensures WriteFails(answers, pending) <==> WriteFails(answers[1..], if taken < pending then pending - taken else 0)
  {
    var rest, left := answers[1..], if taken < pending then pending - taken else 0;
    if i :| 0 <= i < |answers| && WriteFailsAt(answers, i, pending) {
      assert i > 0 && answers[..i][1..] == rest[..i - 1];
      assert WriteFailsAt(rest, i - 1, left);
    }
    if i :| 0 <= i < |rest| && WriteFailsAt(rest, i, left) {
      assert forall j :: 0 < j < |answers| ==> answers[j] == rest[j - 1];
      assert answers[..i + 1][1..] == rest[..i];
      assert WriteFailsAt(answers, i + 1, pending);
    }
  }

  /** `try_write` closes the connection exactly if a fatal error came while output was left. */
  lemma {:induction false} WriteClosesExactly(c: Conn, answers: seq<SendResult>)
    ensures FlushFails(c, answers) <==> WriteFails(answers, |c.writeBuffer|)
    ensures TryWrite(c, answers).closed <==> c.closed || WriteFails(answers, |c.writeBuffer|)
    decreases |answers|
  {
    FlushConserves(c, answers);
    if c.writeBuffer != [] && answers != [] {
      match answers[0]
      case Accepted(n) =>
        WriteFailsLater(answers, |c.writeBuffer|, n);
        WriteClosesExactly(Taken(c, n), answers[1..]);
      case SendAgain => NoWriteFailure(answers, |c.writeBuffer|);
      case SendInterrupted =>
        WriteFailsLater(answers, |c.writeBuffer|, 0);
        WriteClosesExactly(c, answers[1..]);
      case SendFailed =>
        assert answers[..0] == [];
        assert WriteFailsAt(answers, 0, |c.writeBuffer|);
    }
  }

  lemma NoWriteFailure(answers: seq<SendResult>, pending: nat)
    requires answers != [] && answers[0].SendAgain?
    ensures !WriteFails(answers, pending)
  {
    forall i | 0 <= i < |answers|
      ensures !WriteFailsAt(answers, i, pending)
    {
      assert i > 0 ==> !(answers[0].Accepted? || answers[0].SendInterrupted?);
    }
  }

  /** Bytes the kernel took, then bytes still buffered, are the bytes enqueued, in order: none lost, none
      repeated, whatever the kernel answered. */
  lemma {:induction false} WriteConservation(ops: seq<Op>)
    ensures var c := Run(ops); c.sent + c.writeBuffer == Enqueued(ops)
  {
    if ops != [] {
      var n := |ops| - 1;
      WriteConservation(ops[..n]);
      var c := Run(ops[..n]);
      match ops[n]
      case Enqueue(data) =>
        assert c.sent + (c.writeBuffer + data) == c.sent + c.writeBuffer + data;
      case Write(answers) =>
        FlushConserves(c, answers);
      case Read(answers) =>
        ReadLeavesWriting(c, answers);
      case Consume(_) =>
    }
  }

  /** Everything that ever arrived, in order. */
  function AllArrivals(ops: seq<Op>): seq<byte>
  {
    if ops == [] then []
    else
      var n := |ops| - 1;
      AllArrivals(ops[..n]) + if ops[n].Read? then Arrivals(ops[n].recvs) else []
  }

  /** Everything the owner of the connection has consumed, in order. */
  function Consumed(ops: seq<Op>): seq<byte>
  {
    if ops == [] then []
    else
      var n := |ops| - 1;
      var buffer := Run(ops[..n]).readBuffer;
      Consumed(ops[..n]) + if ops[n].Consume? then buffer[..Least(ops[n].count, |buffer|)] else []
  }

  /** Bytes consumed, then bytes still buffered, are the bytes that arrived, in order. */
  lemma {:induction false} ReadConservation(ops: seq<Op>)
    ensures Consumed(ops) + Run(ops).readBuffer == AllArrivals(ops)
  {
    if ops != [] {
      var n := |ops| - 1;
      ReadConservation(ops[..n]);
      var c, taken := Run(ops[..n]), Consumed(ops[..n]);
      match ops[n]
      case Enqueue(data) =>
      case Write(answers) =>
        FlushLeavesReading(c, answers);
      case Read(answers) =>
        ReadsAllThatArrives(c, answers);
        Assoc(taken, c.readBuffer, Arrivals(answers));
      case Consume(count) =>
        var k := Least(count, |c.readBuffer|);
        assert c.readBuffer[..k] + c.readBuffer[k..] == c.readBuffer;
        Assoc(taken, c.readBuffer[..k], c.readBuffer[k..]);
    }
  }

  lemma {:induction false} FlushLeavesReading(c: Conn, answers: seq<SendResult>)
    ensures Flush(c, answers).readBuffer == c.readBuffer
    decreases |answers|
  {
    if c.writeBuffer != [] && answers != [] {
      match answers[0]
      case Accepted(n) => FlushLeavesReading(Taken(c, n), answers[1..]);
      case SendAgain =>
      case SendInterrupted => FlushLeavesReading(c, answers[1..]);
      case SendFailed =>
    }
  }

  predicate InterestInv(c: Conn)
  {
    !c.closed ==>
      && (c.writeBuffer != [] ==> c.watchOut)
      && (c.watchIn <==> !Congested(c))
  }

  /** While the connection is open, pending output is always watched for, input is watched exactly below
      the high-water mark, and so the connection is never left watching nothing. */
  lemma {:induction false} NeverWatchedForNothing(ops: seq<Op>)
    ensures var c := Run(ops);
            InterestInv(c) && (!c.closed ==> c.watchIn || c.watchOut)
  {
    if ops != [] {
      var n := |ops| - 1;
      NeverWatchedForNothing(ops[..n]);
      var c := Run(ops[..n]);
      match ops[n]
      case Enqueue(data) =>
      case Write(answers) =>
        FlushConserves(c, answers);
      case Read(answers) =>
        ReadLeavesWriting(c, answers);
      case Consume(_) =>
    }
  }

  /** Output is watched exactly while there is some. */
  predicate OutExact(c: Conn)
  {
    !c.closed ==> (c.watchOut <==> c.writeBuffer != [])
  }

  /** Enqueueing keeps that exactly when something is, or was already, pending; with nothing at all to
      send, EPOLLOUT is watched for nothing. */
  lemma EnqueueKeepsOutExact(c: Conn, data: seq<byte>)
    requires !c.closed
    ensures OutExact(EnqueueWrite(c, data)) <==> c.writeBuffer + data != []
  {
  }

  /** EPOLLOUT was exact after every step. */
  predicate AlwaysOutExact(ops: seq<Op>)
  {
    OutExact(Run(ops)) && (ops == [] || AlwaysOutExact(ops[..|ops| - 1]))
  }

  /** Nothing is enqueued on an open connection that has nothing to send. */
  predicate IdleEnqueue(c: Conn, op: Op)
  {
    op == Enqueue([]) && !c.closed && c.writeBuffer == []
  }

  predicate NeverIdleEnqueue(ops: seq<Op>)
  {
    ops == [] ||
    (NeverIdleEnqueue(ops[..|ops| - 1]) && !IdleEnqueue(Run(ops[..|ops| - 1]), ops[|ops| - 1]))
  }

  lemma OutExactStep(c: Conn, op: Op)
    requires OutExact(c)
    ensures OutExact(Apply(c, op)) <==> !IdleEnqueue(c, op)
  {
    match op
    case Enqueue(data) =>
    case Write(answers) => FlushConserves(c, answers);
    case Read(answers) => ReadLeavesWriting(c, answers);
    case Consume(_) =>
  }

  /** Over any run EPOLLOUT is always watched exactly while output is pending if and only if nothing is never
      enqueued on an idle open connection. */
  lemma {:induction false} OutExactExactly(ops: seq<Op>)
    ensures AlwaysOutExact(ops) <==> NeverIdleEnqueue(ops)
  {
    if ops != [] {
      OutExactExactly(ops[..|ops| - 1]);
      if AlwaysOutExact(ops[..|ops| - 1]) {
        OutExactStep(Run(ops[..|ops| - 1]), ops[|ops| - 1]);
      }
    }
  }

  /** In particular callers that never enqueue nothing keep EPOLLOUT exact over every run. */
  lemma {:induction false} OutExactOverRuns(ops: seq<Op>)
    requires forall i :: 0 <= i < |ops| && ops[i].Enqueue? ==> ops[i].data != []
    ensures AlwaysOutExact(ops)
  {
    NeverEmpty(ops);
    OutExactExactly(ops);
  }

  lemma {:induction false} NeverEmpty(ops: seq<Op>)
    requires forall i :: 0 <= i < |ops| && ops[i].Enqueue? ==> ops[i].data != []
    ensures NeverIdleEnqueue(ops)
  {
    if ops != [] {
      NeverEmpty(ops[..|ops| - 1]);
    }
  }

  // ---- The class ----

  class Connection {
    var readBuffer: seq<byte>
    var writeBuffer: seq<byte>
    var writeInterest: bool
    var closed: bool
    var watchIn: bool
    var watchOut: bool
    ghost var sent: seq<byte>

    ghost function Value(): Conn
      reads this
    {
      Conn(readBuffer, writeBuffer, writeInterest, closed, watchIn, watchOut, sent)
    }

    constructor ()
      ensures Value() == NEW_CONN
    {
      readBuffer, writeBuffer, writeInterest, closed := [], [], false, false;
      watchIn, watchOut, sent := true, false, [];
    }

    method Consume(n: nat)
      requires n <= |readBuffer|
      modifies this`readBuffer
      ensures Value() == Apply(old(Value()), Op.Consume(n))
    {
      readBuffer := readBuffer[n..];
    }

    method WriteCongested() returns (r: bool)
      ensures r == Congested(Value())
    {
      r := |writeBuffer| >= HIGH_WATER_MARK;
    }

    method UpdateEpollInterest()
      modifies this`watchIn, this`watchOut
      ensures Value() == UpdateInterest(old(Value()))
    {
      var congested := WriteCongested();
      watchIn, watchOut := !congested, writeInterest;
    }

    method Enqueue(data: seq<byte>)
      modifies this
      ensures Value() == EnqueueWrite(old(Value()), data)
    {
      writeBuffer := writeBuffer + data;
      writeInterest := true;
      UpdateEpollInterest();
    }

    method Write(answers: seq<SendResult>) returns (alive: bool)
      modifies this
      ensures Value() == TryWrite(old(Value()), answers)
      ensures alive == !FlushFails(old(Value()), answers)
    {
      var i := 0;
      while writeBuffer != [] && i < |answers|
        invariant i <= |answers|
        invariant Flush(Value(), answers[i..]) == Flush(old(Value()), answers)
        invariant FlushFails(Value(), answers[i..]) == FlushFails(old(Value()), answers)
        decreases |answers| - i
      {
        var answer := answers[i];
        assert answers[i..][1..] == answers[i + 1..];
        i := i + 1;
        match answer {
          case Accepted(n) =>
            var k := if n < |writeBuffer| then n else |writeBuffer|;
            sent := sent + writeBuffer[..k];
            writeBuffer := writeBuffer[k..];
          case SendAgain =>
            break;
          case SendInterrupted =>
          case SendFailed =>
            closed := true;
            return false;
        }
      }
      writeInterest := writeBuffer != [];
      UpdateEpollInterest();
      return true;
    }

    method Read(answers: seq<RecvResult>) returns (alive: bool)
      modifies this`readBuffer, this`closed
      ensures Value() == TryRead(old(Value()), answers)
      ensures !old(closed) ==> alive == !closed
    {
      for i := 0 to |answers|
        invariant closed == old(closed)
        invariant TryRead(Value(), answers[i..]) == TryRead(old(Value()), answers)
      {
        assert answers[i..][1..] == answers[i + 1..];
        match answers[i] {
          case Arrived(data) =>
            readBuffer := readBuffer + data;
          case PeerClosed =>
            closed := true;
            return false;
          case RecvAgain =>
            return true;
          case RecvInterrupted =>
          case RecvFailed =>
            closed := true;
            return false;
        }
      }
      return true;
    }
  }
}
