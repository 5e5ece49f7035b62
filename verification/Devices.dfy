/** The objects behind `RateProtocol`: the device session, the ingest that owns parser and session, and
    the node's command task. */
module Devices {
  import opened Bits
  import opened Common
  import opened FrameEncoder
  import opened FrameParser
  import opened Messages
  import opened StoreModel
  import opened RateProtocol

  class DeviceSession {
    const id: u16
    var connected: bool
    var rate: byte
    var lastActivity: int
    var lastUptime: nat

    ghost function Value(): Session
      reads this
    {
      Session(id, connected, rate, lastActivity, lastUptime)
    }

    constructor (id: u16, now: int)
      ensures Value() == Session(id, false, 0, now, 0)
    {
      this.id, connected, rate, lastActivity, lastUptime := id, false, 0, now, 0;
    }

    method HandleHello(hello: Hello) returns (config: Config)
      modifies this`connected, this`rate
      ensures Value() == old(Value()).(connected := true, rate := GrantedRate(hello.offeredRate))
      ensures config == Config(id, rate, MetricMask(hello.metricCount))
    {
      connected := true;
      rate := if hello.offeredRate < MAX_RATE then hello.offeredRate else MAX_RATE;
      var mask: byte := 0;
      var usable := if hello.metricCount < 8 then hello.metricCount else 8;
      for i := 0 to usable
        invariant mask == MetricMask(i)
      {
        mask := mask + [1, 2, 4, 8, 16, 32, 64, 128][i]; // the bit is still clear, so adding sets it
      }
      config := Config(id, rate, mask);
    }

    method SlowDown(newRate: byte) returns (payload: SlowDown)
      modifies this`rate
      ensures Value() == old(Value()).(rate := newRate) && payload == Messages.SlowDown(id, newRate)
    {
      rate := newRate;
      payload := Messages.SlowDown(id, newRate);
    }

    method NoteActivity(now: int)
      modifies this`lastActivity
      ensures Value() == old(Value()).(lastActivity := now)
    {
      lastActivity := now;
    }

    method NoteUptime(uptime: nat)
      modifies this`lastUptime
      ensures Value() == old(Value()).(lastUptime := uptime)
    {
      lastUptime := uptime;
    }
  }

  class IngestConnection {
    const sessionId: u16
    const parser: FrameParser
    var session: DeviceSession?
    var sent: seq<byte>

    ghost predicate Valid()
      reads this, parser, parser.buffer
    {
      parser.Valid() && parser.maxPayload == MAX_PAYLOAD
    }

    ghost function SessionValue(): Option<Session>
      reads this, session
    {
      if session == null then None else Some(session.Value())
    }

    ghost function Value(): Ingest
      requires Valid()
      reads this, parser, parser.buffer, session
    {
      Ingest(sessionId, parser.Value(), SessionValue(), sent)
    }

    constructor (sessionId: u16)
      ensures Valid() && fresh(parser) && fresh(parser.buffer) && fresh(parser.blob)
      ensures session == null && Value() == NewIngest(sessionId)
    {
      this.sessionId := sessionId;
      parser := new FrameParser(MAX_PAYLOAD);
      session := null;
      sent := [];
    }

    /** Encodes into a buffer of the advertised size, so the encoder cannot fail, and enqueues. */
    method SendFrame(f: Frame)
      requires Fits(f)
      modifies this`sent
      ensures sent == old(sent) + FrameBytes(f)
    {
      FrameShape(f);
      var payload := new byte[|f.payload|](i requires 0 <= i < |f.payload| => f.payload[i]);
      assert payload[..] == f.payload;
      var capacity := MaxEncodedFrameSize(MAX_PAYLOAD);
      var out := new byte[capacity](_ => 0);
      assert payload[..payload.Length] == f.payload;
      var status, size := EncodeFrame(f.mtype, payload, payload.Length, out, capacity);
      if status == EncodeOk {
        sent := sent + out[..size];
      }
    }

    method OnHello(hello: Hello, now: int)
      requires Valid()
      modifies this`session, this`sent
      ensures Valid() && Value() == HandleHello(old(Value()), hello, now)
      ensures session != null && fresh(session)
    {
      var s := new DeviceSession(sessionId, now);
      var config := s.HandleHello(hello);
      session := s;
      SendFrame(ConfigFrame(config));
    }

    method OnHeard(now: int, uptime: nat)
      requires Valid()
      modifies session
      ensures Valid() && Value() == Heard(old(Value()), now, uptime)
    {
      if session != null {
        session.NoteActivity(now);
        session.NoteUptime(uptime);
      }
    }

    method OnFrame(f: Frame, now: int) returns (ops: seq<Op>)
      requires Valid()
      modifies this`session, this`sent, session
      ensures Valid()
      ensures session == old(session) || fresh(session)
      ensures var d := Dispatch(old(Value()), f, now); Value() == d.ingest && ops == d.ops
    {
      ops := [];
      if f.mtype == HELLO {
        if |f.payload| == 8 {
          OnHello(ParseHello(f).value, now);
        }
      } else if f.mtype == HEARTBEAT {
        if |f.payload| == 6 {
          OnHeard(now, ParseHeartbeat(f).value.uptime);
        }
      } else if f.mtype == SAMPLE && |f.payload| == 11 && session != null {
        var x := ParseSample(f).value;
        OnHeard(now, x.timestamp);
        ops := [DoRecord(session.id, x.metric, x.value, x.timestamp, now)];
      }
    }

    method SendSlowDown(newRate: byte)
      requires Valid()
      modifies this`sent, session
      ensures Valid() && Value() == RateProtocol.SendSlowDown(old(Value()), newRate)
    {
      if session != null {
        var payload := session.SlowDown(newRate);
        SendFrame(SlowDownFrame(payload));
      }
    }

    method OnByte(b: byte, now: int) returns (ops: seq<Op>)
      requires Valid()
      modifies this`session, this`sent, parser, parser.buffer, parser.blob, session
      ensures Valid() && (session == old(session) || fresh(session))
      ensures var d := Receive(old(Value()), b, now); Value() == d.ingest && ops == d.ops
    {
      ghost var before := Value();
      var frame := parser.PushByte(b);
      assert Value() == before.(parser := Step(before.parser, b).parser);
      ops := [];
      if frame.Some? {
        ops := OnFrame(frame.value, now);
      }
    }

    /** Drains the bytes into the parser and dispatches every completed frame; the calls into the store
        come back as a list. */
    method OnReadable(data: array<byte>, size: nat, clock: int -> int) returns (ops: seq<Op>)
      requires Valid() && size <= data.Length && data != parser.buffer && data != parser.blob
      modifies this, parser, parser.buffer, parser.blob, session
      ensures Valid()
      ensures var d := ReceiveAll(old(Value()), data[..size], clock); Value() == d.ingest && ops == d.ops
    {
      ops := [];
      ghost var start := Value();
      for i := 0 to size
        invariant Valid() && (session == old(session) || fresh(session))
        invariant data[..] == old(data[..])
        invariant var d := ReceiveAll(start, data[..i], clock); Value() == d.ingest && ops == d.ops
      {
        assert data[..i + 1][..i] == data[..i];
        var more := OnByte(data[i], clock(i));
        ops := ops + more;
      }
    }
  }

  /** The node's command task: the shared configuration it writes under its mutex. */
  class CommandTask {
    const parser: FrameParser
    var rate: byte
    var sessionId: u16
    var connected: bool

    ghost predicate Valid()
      reads this, parser, parser.buffer
    {
      parser.Valid() && parser.maxPayload == MAX_PAYLOAD
    }

    ghost function Value(): Node
      requires Valid()
      reads this, parser, parser.buffer
    {
      Node(parser.Value(), rate, sessionId, connected)
    }

    constructor ()
      ensures Valid() && fresh(parser) && fresh(parser.buffer) && fresh(parser.blob)
      ensures Value() == NewNode()
    {
      parser := new FrameParser(MAX_PAYLOAD);
      rate, sessionId, connected := DEFAULT_RATE, 0, false;
    }

    method OnByte(b: byte)
      requires Valid()
      modifies this, parser, parser.buffer, parser.blob
      ensures Valid() && Value() == NodeByte(old(Value()), b)
    {
      var frame := parser.PushByte(b);
      if frame.None? {
        return;
      }
      var f := frame.value;
      if f.mtype == CONFIG && |f.payload| == 4 {
        var config := ParseConfig(f).value;
        rate := config.rate;
        sessionId := config.session;
        connected := true;
      } else if f.mtype == SLOW_DOWN && |f.payload| == 3 {
        rate := ParseSlowDown(f).value.rate;
      }
    }
  }
}
