/** The line protocol between server and dashboards: server/subscriber.cpp on one end,
    client/line_protocol.cpp on the other. Bytes are characters here. */
module TextProtocol {
  import opened Bits
  import opened Common
  import opened Decimal
  import opened StoreModel

  const NEWLINE: char := '\n'
  const MAX_U16: nat := 0xFFFF
  const MAX_U32: nat := 0xFFFF_FFFF

  type U32 = n: nat | n <= MAX_U32
  type I32 = n: int | -0x8000_0000 <= n < 0x8000_0000

  // ---- What the server writes ----

  function MetricName(metric: byte): string
  {
    if metric == 0 then "temp" else if metric == 1 then "pressure" else "metric" + NatText(metric as nat)
  }

  /** The alert and sample lines. */
  datatype Update =
    | SampleUpdate(metric: byte, session: u16, timestamp: U32, value: I32)
    | ExcursionUpdate(session: u16, timestamp: U32, value: I32)
    | OfflineUpdate(session: u16, timestamp: U32)

  /** A space, a field, and what follows it. */
  function Field(w: string, rest: string): string
  {
    " " + (w + rest)
  }

  function Stamped(session: u16, timestamp: U32, rest: string): string
  {
    Field(NatText(session as nat), Field(NatText(timestamp), rest))
  }

  function UpdateText(u: Update): string
  {
    match u
    case SampleUpdate(metric, session, timestamp, value) =>
      MetricName(metric) + Stamped(session, timestamp, Field(IntText(value), ""))
    case ExcursionUpdate(session, timestamp, value) =>
      "ALERT" + Field("EXCURSION", Stamped(session, timestamp, Field(IntText(value), "")))
    case OfflineUpdate(session, timestamp) =>
      "ALERT" + Field("OFFLINE", Stamped(session, timestamp, ""))
  }

  function StatsText(metric: string, updatesSent: nat): string
  {
    "STATS" + Field("metric=" + (if metric == "" then "none" else metric), Field("updates_sent=" + NatText(updatesSent), ""))
  }

  function AckText(session: nat, r: AckResult): string
  {
    "ACK_OK" + Field(NatText(session), Field("excursion_ms=" + IntText(r.excursionMs),
                     Field("excursion_active=" + (if r.excursionStillActive then "1" else "0"),
                     Field("offline_ms=" + IntText(r.offlineMs), ""))))
  }

  // ---- What the client reads ----

  datatype Item =
    | SampleItem(metric: string, session: nat, timestamp: nat, value: int)
    | AlertItem(kind: string, session: nat, timestamp: nat, value: int)
    | Unrecognized(line: string)

  datatype Stamp = Stamp(session: nat, timestamp: nat)

  /** Session id, then timestamp. */
  function ReadStamp(s: string): Read<Stamp>
  {
    match ReadUnsigned(s, MAX_U16)
    case Fail => Fail
    case Got(session, r) =>
      match ReadUnsigned(r, MAX_U32)
      case Fail => Fail
      case Got(timestamp, r') => Got(Stamp(session, timestamp), r')
  }

  /** The last field: a value and nothing behind it. */
  function ReadLastValue(s: string): Option<int>
  {
    match ReadInt32(s)
    case Fail => None
    case Got(value, rest) => if SkipSpace(rest) == "" then Some(value) else None
  }

  function TryParseSample(line: string): Option<Item>
  {
    match ReadWord(line)
    case Fail => None
    case Got(metric, r) =>
      match ReadStamp(r)
      case Fail => None
      case Got(stamp, r') =>
        match ReadLastValue(r')
        case None => None
        case Some(value) => Some(SampleItem(metric, stamp.session, stamp.timestamp, value))
  }

  function TryParseAlert(line: string): Option<Item>
  {
    match ReadWord(line)
    case Fail => None
    case Got(verb, r) =>
      if verb != "ALERT" then None
      else
        match ReadWord(r)
        case Fail => None
        case Got(kind, r') =>
          match ReadStamp(r')
          case Fail => None
          case Got(stamp, last) =>
            if kind == "EXCURSION" then
              match ReadLastValue(last)
              case None => None
              case Some(value) => Some(AlertItem(kind, stamp.session, stamp.timestamp, value))
            else if kind == "OFFLINE" && SkipSpace(last) == "" then
              Some(AlertItem(kind, stamp.session, stamp.timestamp, 0))
            else None
  }

  function Classify(line: string): Item
  {
    match TryParseSample(line)
    case Some(item) => item
    case None =>
      match TryParseAlert(line)
      case Some(item) => item
      case None => Unrecognized(line)
  }

  /** A carriage return before the newline is dropped. */
  function Strip(line: string): string
  {
    if line != "" && line[|line| - 1] == '\r' then line[..|line| - 1] else line
  }

  // ---- Reading back single lines ----

  lemma ReadStampBack(session: u16, timestamp: U32, rest: string)
    requires WordEnds(rest)
    ensures ReadStamp(Stamped(session, timestamp, rest)) == Got(Stamp(session as nat, timestamp), rest)
  {
    ReadUnsignedBack(session as nat, MAX_U16, Field(NatText(timestamp), rest));
    ReadUnsignedBack(timestamp, MAX_U32, rest);
  }

  lemma ReadLastValueBack(value: I32)
    ensures ReadLastValue(Field(IntText(value), "")) == Some(value)
  {
    ReadInt32Back(value, "");
  }

  lemma MetricNameIsWord(metric: byte)
    ensures IsWord(MetricName(metric))
  {
    TextIsWord(metric as nat);
  }

  function ItemOf(u: Update): Item
  {
    match u
    case SampleUpdate(metric, session, timestamp, value) => SampleItem(MetricName(metric), session as nat, timestamp, value)
    case ExcursionUpdate(session, timestamp, value) => AlertItem("EXCURSION", session as nat, timestamp, value)
    case OfflineUpdate(session, timestamp) => AlertItem("OFFLINE", session as nat, timestamp, 0)
  }

  /** A line whose second field is not a number is not a sample. */
  lemma NotASample(verb: string, field: string, rest: string)
    requires IsWord(verb) && field != "" && WordEnds(rest)
    requires !IsSpace(field[0]) && !IsDigit(field[0]) && field[0] != '-' && field[0] != '+'
    ensures TryParseSample(verb + Field(field, rest)) == None
  {
    ReadWordBack(verb, Field(field, rest));
    NotANumber(field + rest);
  }

  lemma SampleReadBack(metric: byte, session: u16, timestamp: U32, value: I32)
    ensures Classify(UpdateText(SampleUpdate(metric, session, timestamp, value)))
            == SampleItem(MetricName(metric), session as nat, timestamp, value)
  {
    var last := Field(IntText(value), "");
    MetricNameIsWord(metric);
    ReadWordBack(MetricName(metric), Stamped(session, timestamp, last));
    ReadStampBack(session, timestamp, last);
    ReadLastValueBack(value);
  }

  lemma AlertReadBack(kind: string, rest: string)
    requires kind == "EXCURSION" || kind == "OFFLINE"
    requires WordEnds(rest)
    ensures TryParseSample("ALERT" + Field(kind, rest)) == None
    ensures ReadWord("ALERT" + Field(kind, rest)) == Got("ALERT", Field(kind, rest))
    ensures ReadWord(Field(kind, rest)) == Got(kind, rest)
  {
    NotASample("ALERT", kind, rest);
    ReadWordBack("ALERT", Field(kind, rest));
    ReadWordBack(kind, rest);
  }

  /** The client recovers from every line the server writes exactly what went in. */
  lemma UpdateReadBack(u: Update)
    ensures Classify(UpdateText(u)) == ItemOf(u)
  {
    match u
    case SampleUpdate(metric, session, timestamp, value) =>
      SampleReadBack(metric, session, timestamp, value);
    case ExcursionUpdate(session, timestamp, value) =>
      var last := Field(IntText(value), "");
      AlertReadBack("EXCURSION", Stamped(session, timestamp, last));
      ReadStampBack(session, timestamp, last);
      ReadLastValueBack(value);
    case OfflineUpdate(session, timestamp) =>
      AlertReadBack("OFFLINE", Stamped(session, timestamp, ""));
      ReadStampBack(session, timestamp, "");
  }

  /** Replies to STATS and ACK look like neither a sample nor an alert. */
  lemma StatsIsUnrecognized(metric: string, updatesSent: nat)
    ensures Classify(StatsText(metric, updatesSent)) == Unrecognized(StatsText(metric, updatesSent))
  {
    var field := "metric=" + (if metric == "" then "none" else metric);
    var rest := Field("updates_sent=" + NatText(updatesSent), "");
    NotASample("STATS", field, rest);
    ReadWordBack("STATS", Field(field, rest));
  }

  lemma AckIsUnrecognized(session: u16, r: AckResult)
    ensures Classify(AckText(session as nat, r)) == Unrecognized(AckText(session as nat, r))
  {
    var field := "excursion_ms=" + IntText(r.excursionMs);
    var rest := Field("excursion_active=" + (if r.excursionStillActive then "1" else "0"),
                Field("offline_ms=" + IntText(r.offlineMs), ""));
    var tail := Field(field, rest);
    ReadWordBack("ACK_OK", Field(NatText(session as nat), tail));
    ReadUnsignedBack(session as nat, MAX_U16, tail);
    NotANumber(field + rest);
  }
}
