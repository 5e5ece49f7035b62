/** The message payloads (proto/messages.hpp): packed, little-endian. */
module Messages {
  import opened Bits
  import opened Common
  import opened StoreModel
  import opened FrameEncoder

  const HELLO: byte := 1
  const CONFIG: byte := 2
  const SAMPLE: byte := 3
  const SLOW_DOWN: byte := 4
  const HEARTBEAT: byte := 5

  function U16(lo: byte, hi: byte): u16
  {
    (lo as int + 256 * hi as int) as u16
  }

  function U32(p: seq<byte>): nat
    requires |p| == 4
  {
    p[0] as nat + 0x100 * p[1] as nat + 0x1_0000 * p[2] as nat + 0x100_0000 * p[3] as nat
  }

  /** Two's complement. */
  function I32(p: seq<byte>): int
    requires |p| == 4
  {
    var n := U32(p);
    if n < 0x8000_0000 then n else n - 0x1_0000_0000
  }

  function U16Bytes(n: u16): (r: seq<byte>)
    ensures |r| == 2
  {
    [(n as int % 256) as byte, (n as int / 256) as byte]
  }

  lemma U16RoundTrip(n: u16)
    ensures U16(U16Bytes(n)[0], U16Bytes(n)[1]) == n
  {
  }

  datatype Hello = Hello(metricCount: byte, offeredRate: byte)
  datatype Sampled = Sampled(session: u16, timestamp: nat, value: int, metric: byte)
  datatype Heartbeat = Heartbeat(session: u16, uptime: nat)
  datatype Config = Config(session: u16, rate: byte, mask: byte)
  datatype SlowDown = SlowDown(session: u16, rate: byte)

  /** The four bytes of device id and two of firmware version are not looked at. */
  function ParseHello(f: Frame): Option<Hello>
  {
    if f.mtype == HELLO && |f.payload| == 8 then Some(Hello(f.payload[6], f.payload[7])) else None
  }

  function ParseHeartbeat(f: Frame): Option<Heartbeat>
  {
    if f.mtype == HEARTBEAT && |f.payload| == 6
    then Some(Heartbeat(U16(f.payload[0], f.payload[1]), U32(f.payload[2..6]))) else None
  }

  function ParseSample(f: Frame): Option<Sampled>
  {
    if f.mtype == SAMPLE && |f.payload| == 11
    then Some(Sampled(U16(f.payload[0], f.payload[1]), U32(f.payload[2..6]), I32(f.payload[6..10]), f.payload[10]))
    else None
  }

  function ParseConfig(f: Frame): Option<Config>
  {
    if f.mtype == CONFIG && |f.payload| == 4
    then Some(Config(U16(f.payload[0], f.payload[1]), f.payload[2], f.payload[3])) else None
  }

  function ParseSlowDown(f: Frame): Option<SlowDown>
  {
    if f.mtype == SLOW_DOWN && |f.payload| == 3
    then Some(SlowDown(U16(f.payload[0], f.payload[1]), f.payload[2])) else None
  }

  function ConfigFrame(c: Config): (f: Frame)
    ensures Fits(f)
  {
    Frame(CONFIG, U16Bytes(c.session) + [c.rate, c.mask])
  }

  function SlowDownFrame(d: SlowDown): (f: Frame)
    ensures Fits(f)
  {
    Frame(SLOW_DOWN, U16Bytes(d.session) + [d.rate])
  }

  function U32Bytes(n: nat): (r: seq<byte>)
    requires n < 0x1_0000_0000
    ensures |r| == 4
  {
    [(n % 0x100) as byte, (n / 0x100 % 0x100) as byte, (n / 0x1_0000 % 0x100) as byte, (n / 0x100_0000) as byte]
  }

  function I32Bytes(v: int): (r: seq<byte>)
    requires -0x8000_0000 <= v < 0x8000_0000
    ensures |r| == 4
  {
    U32Bytes(if v < 0 then v + 0x1_0000_0000 else v)
  }

  lemma U32RoundTrip(n: nat)
    requires n < 0x1_0000_0000
    ensures U32(U32Bytes(n)) == n
  {
    assert n / 0x1_0000 == n / 0x100 / 0x100 && n / 0x100_0000 == n / 0x1_0000 / 0x100;
  }

  /** A reading that fits the payload's fields. */
  predicate SampleFits(x: Sampled)
  {
    x.timestamp < 0x1_0000_0000 && -0x8000_0000 <= x.value < 0x8000_0000
  }

  function HelloFrame(deviceId: nat, version: u16, h: Hello): (f: Frame)
    requires deviceId < 0x1_0000_0000
    ensures Fits(f)
  {
    Frame(HELLO, U32Bytes(deviceId) + U16Bytes(version) + [h.metricCount, h.offeredRate])
  }

  function SampleFrame(x: Sampled): (f: Frame)
    requires SampleFits(x)
    ensures Fits(f)
  {
    Frame(SAMPLE, U16Bytes(x.session) + U32Bytes(x.timestamp) + I32Bytes(x.value) + [x.metric])
  }

  /** What the server sends is what the node reads. */
  lemma ConfigRoundTrip(c: Config)
    ensures ParseConfig(ConfigFrame(c)) == Some(c) && ParseSlowDown(ConfigFrame(c)) == None
  {
    U16RoundTrip(c.session);
  }

  lemma SlowDownRoundTrip(d: SlowDown)
    ensures ParseSlowDown(SlowDownFrame(d)) == Some(d) && ParseConfig(SlowDownFrame(d)) == None
  {
    U16RoundTrip(d.session);
  }

  /** What the node sends is what the server reads. */
  lemma HelloRoundTrip(deviceId: nat, version: u16, h: Hello)
    requires deviceId < 0x1_0000_0000
    ensures ParseHello(HelloFrame(deviceId, version, h)) == Some(h)
  {
  }

  lemma SampleRoundTrip(x: Sampled)
    requires SampleFits(x)
    ensures ParseSample(SampleFrame(x)) == Some(x)
    ensures ParseHello(SampleFrame(x)) == None && ParseHeartbeat(SampleFrame(x)) == None
  {
    var p := SampleFrame(x).payload;
    assert p[2..6] == U32Bytes(x.timestamp) && p[6..10] == I32Bytes(x.value);
    U16RoundTrip(x.session);
    U32RoundTrip(x.timestamp);
    U32RoundTrip(if x.value < 0 then x.value + 0x1_0000_0000 else x.value);
  }

  /** Which frames are which messages: by type and exact payload size. */
  lemma ParsesExactly(f: Frame)
    ensures ParseHello(f).Some? <==> f.mtype == 1 && |f.payload| == 8
    ensures ParseConfig(f).Some? <==> f.mtype == 2 && |f.payload| == 4
    ensures ParseSample(f).Some? <==> f.mtype == 3 && |f.payload| == 11
    ensures ParseSlowDown(f).Some? <==> f.mtype == 4 && |f.payload| == 3
    ensures ParseHeartbeat(f).Some? <==> f.mtype == 5 && |f.payload| == 6
  {
  }

  /** The packed layouts on examples: fields in order, without padding, least significant byte first. */
  lemma ConfigLayout(f: Frame)
    requires f == ConfigFrame(Config(0x0102, 3, 7))
    ensures f == Frame(2, [2, 1, 3, 7])
  {
  }

  lemma SlowDownLayout(f: Frame)
    requires f == SlowDownFrame(SlowDown(0x0102, 4))
    ensures f == Frame(4, [2, 1, 4])
  {
  }

  lemma HelloLayout(f: Frame)
    requires f == HelloFrame(0x0102_0304, 0x0506, Hello(7, 8))
    ensures f == Frame(1, [4, 3, 2, 1, 6, 5, 7, 8])
  {
  }

  lemma SampleLayout(f: Frame)
    requires f == SampleFrame(Sampled(0x0102, 0x0304_0506, -2, 9))
    ensures f == Frame(3, [2, 1, 6, 5, 4, 3, 0xFE, 0xFF, 0xFF, 0xFF, 9])
  {
  }

  lemma HeartbeatLayout(f: Frame)
    requires f == Frame(5, [2, 1, 6, 5, 4, 3])
    ensures ParseHeartbeat(f) == Some(Heartbeat(0x0102, 0x0304_0506))
  {
  }
}
