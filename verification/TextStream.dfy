/** Whole conversations over the line protocol: the subscriber's output, cut into arbitrary chunks,
    through the client's line splitter. */
module TextStream {
  import opened Bits
  import opened Common
  import opened Decimal
  import opened Split
  import opened StoreModel
  import opened TextProtocol

  // ---- The subscriber ----

  /** A line the server sends to one dashboard. */
  datatype Emission =
    | Told(update: Update)
    | StatsReply(metric: string, updatesSent: nat)
    | AckReply(session: u16, result: AckResult)

  function EmissionText(e: Emission): string
  {
    match e
    case Told(u) => UpdateText(u)
    case StatsReply(metric, n) => StatsText(metric, n)
    case AckReply(session, r) => AckText(session as nat, r)
  }

  /** The subscriber: the metric asked for, the update counter, and the lines sent. */
  datatype Sub = Sub(metric: string, updatesSent: nat, emitted: seq<Emission>)

  const NEW_SUB := Sub("", 0, [])

  function Emit(s: Sub, e: Emission): Sub
  {
    s.(emitted := s.emitted + [e])
  }

  /** `publish`, `publish_excursion_alert` and `publish_offline_alert`. */
  function Publish(s: Sub, u: Update): Sub
  {
    if u.SampleUpdate? then
      if MetricName(u.metric) != s.metric then s else Emit(s, Told(u)).(updatesSent := s.updatesSent + 1)
    else Emit(s, Told(u))
  }

  /** The position of the first space, or the length. */
  function FirstSpace(line: string): (n: nat)
    ensures n <= |line|
  {
    if line == "" || line[0] == ' ' then 0 else 1 + FirstSpace(line[1..])
  }

  /** `handle_command`; `ack` is what the store would answer. */
  function HandleCommand(s: Sub, verb: string, args: string, ack: AckResult): Sub
  {
    if verb == "SUBSCRIBE" then s.(metric := args)
    else if verb == "UNSUBSCRIBE" then s.(metric := "")
    else if verb == "STATS" then Emit(s, StatsReply(s.metric, s.updatesSent))
    else if verb == "ACK" then
      match ReadUnsigned(args, MAX_U16)
      case Fail => s
      case Got(session, rest) => if SkipSpace(rest) == "" then Emit(s, AckReply(session as u16, ack)) else s
    else s
  }

  function HandleLine(s: Sub, line: string, ack: AckResult): Sub
  {
    var n := FirstSpace(line);
    HandleCommand(s, line[..n], if n < |line| then line[n + 1..] else "", ack)
  }

  lemma {:induction false} FirstSpaceIs(verb: string, args: string)
    requires ' ' !in verb
    ensures FirstSpace(verb + " " + args) == |verb| && FirstSpace(verb) == |verb|
  {
    if verb == "" {
      assert verb + " " + args == " " + args;
    } else {
      assert (verb + " " + args)[1..] == verb[1..] + " " + args;
      FirstSpaceIs(verb[1..], args);
    }
  }

  /** Verb and arguments are what stands before and after the first space. */
  lemma CommandParts(s: Sub, verb: string, args: string, ack: AckResult)
    requires ' ' !in verb
    ensures HandleLine(s, verb + " " + args, ack) == HandleCommand(s, verb, args, ack)
    ensures HandleLine(s, verb, ack) == HandleCommand(s, verb, "", ack)
  {
    FirstSpaceIs(verb, args);
    var line := verb + " " + args;
    assert line[..|verb|] == verb && line[|verb| + 1..] == args;
    assert verb[..|verb|] == verb;
  }

  /** SUBSCRIBE replaces the metric by whatever follows. */
  lemma SubscribeCommand(s: Sub, metric: string, ack: AckResult)
    ensures HandleLine(s, "SUBSCRIBE" + " " + metric, ack) == s.(metric := metric)
  {
    CommandParts(s, "SUBSCRIBE", metric, ack);
  }

  /** UNSUBSCRIBE clears the metric, whatever follows it. */
  lemma UnsubscribeCommand(s: Sub, args: string, ack: AckResult)
    ensures HandleLine(s, "UNSUBSCRIBE", ack) == s.(metric := "")
    ensures HandleLine(s, "UNSUBSCRIBE" + " " + args, ack) == s.(metric := "")
  {
    CommandParts(s, "UNSUBSCRIBE", args, ack);
  }

  /** ACK with one session number is answered for that session. */
  lemma AckCommand(s: Sub, session: u16, ack: AckResult)
    ensures HandleLine(s, "ACK" + " " + NatText(session as nat), ack) == Emit(s, AckReply(session, ack))
  {
    CommandParts(s, "ACK", NatText(session as nat), ack);
    ReadArgument(session as nat);
  }

  /** The arguments are one number in decimal, with a sign and white space allowed around it, and stand for
      this session; a minus sign wraps around. */
  ghost predicate NamesSession(args: string, session: u16)
  {
    StandsFor(args, MAX_U16, session as nat)
  }

  /** ACK is answered for a session exactly if its arguments name it, and otherwise changes nothing. */
  lemma AckAnsweredExactly(s: Sub, args: string, session: u16, ack: AckResult)
    ensures var s' := HandleLine(s, "ACK" + " " + args, ack);
            && (s' == Emit(s, AckReply(session, ack)) <==> NamesSession(args, session))
            && ((forall k :: !NamesSession(args, k)) ==> s' == s)
  {
    CommandParts(s, "ACK", args, ack);
    ReadUnsignedExactly(args, MAX_U16, session as nat);
    AckHandled(s, args, session, ack);
    var r := ReadUnsigned(args, MAX_U16);
    if r.Got? && SkipSpace(r.rest) == "" {
      ReadUnsignedExactly(args, MAX_U16, r.value);
      assert NamesSession(args, r.value as u16);
    }
  }

  lemma AckHandled(s: Sub, args: string, session: u16, ack: AckResult)
    ensures var s', r := HandleCommand(s, "ACK", args, ack), ReadUnsigned(args, MAX_U16);
            && (s' == Emit(s, AckReply(session, ack)) <==> r.Got? && SkipSpace(r.rest) == "" && r.value == session as nat)
            && (!(r.Got? && SkipSpace(r.rest) == "") ==> s' == s)
  {
    var r := ReadUnsigned(args, MAX_U16);
    if r.Got? && SkipSpace(r.rest) == "" {
      EmitIsInjective(s, AckReply(r.value as u16, ack), AckReply(session, ack));
    } else {
      EmitChanges(s, AckReply(session, ack));
    }
  }

  lemma EmitIsInjective(s: Sub, e: Emission, e': Emission)
    ensures Emit(s, e) == Emit(s, e') <==> e == e'
  {
    assert Emit(s, e).emitted[|s.emitted|] == e && Emit(s, e').emitted[|s.emitted|] == e';
  }

  lemma EmitChanges(s: Sub, e: Emission)
    ensures Emit(s, e) != s
  {
    assert |Emit(s, e).emitted| == |s.emitted| + 1;
  }

  /** So a minus sign is accepted, and names a session nobody wrote. */
  lemma MinusOneIsAcknowledged(s: Sub, ack: AckResult)
    ensures HandleLine(s, "ACK" + " " + "-1", ack) == Emit(s, AckReply(65535, ack))
  {
    var t := NumberText("", "-", "1", "");
    assert "-1" == "" + ("-" + ("1" + ""));
    assert "1"[..0] == "";
    assert Number("1") == 1;
    assert IsUnsigned("-1", MAX_U16, t, 65535);
    AckAnsweredExactly(s, "-1", 65535, ack);
  }

  lemma ReadArgument(n: nat)
    requires n <= MAX_U16
    ensures ReadUnsigned(NatText(n), MAX_U16) == Got(n, "")
  {
    var text := NatText(n);
    assert IsDigit(text[0]) && SkipSpace(text) == text;
    ReadDigitsBack(n, "");
    assert text + "" == text;
  }

  datatype SubEvent = Published(update: Update) | Commanded(line: string, ack: AckResult)

  /** Command lines come out of the splitter, so they hold no newline. */
  predicate Wf(e: SubEvent)
  {
    e.Commanded? ==> NEWLINE !in e.line
  }

  function Apply(s: Sub, e: SubEvent): Sub
  {
    match e
    case Published(u) => Publish(s, u)
    case Commanded(line, ack) => HandleLine(s, line, ack)
  }

  function Run(events: seq<SubEvent>): Sub
  {
    if events == [] then NEW_SUB else Apply(Run(events[..|events| - 1]), events[|events| - 1])
  }

  function Lines(es: seq<Emission>): seq<string>
  {
    Map(e => EmissionText(e), es)
  }

  /** The bytes on the connection: every line followed by a newline. */
  function OutText(es: seq<Emission>): string
  {
    Wire(NEWLINE, Lines(es))
  }

  // ---- The client ----

  /** The unfinished line and everything recognised so far. */
  type Client = Scan<char, Item>

  const NEW_CLIENT: Client := Scan("", [])

  /** A reader of complete lines, applied once a carriage return at the end is gone. */
  function Stripped(parse: string -> Item): string -> Item
  {
    line => parse(Strip(line))
  }

  /** How `handle_incoming` reads a line. */
  function Reader(): string -> Item
  {
    Stripped(line => Classify(line))
  }

  /** Chunks arrive, and `handle_incoming` runs after each. */
  function ReceiveAll(chunks: seq<string>): Client
  {
    ScanAll(NEWLINE, Reader(), NEW_CLIENT, chunks)
  }

  // ---- Lines survive the splitter ----

  /** No newline inside, and no carriage return at the end: splitting and stripping leave it alone. */
  predicate OneLine(s: string)
  {
    NEWLINE !in s && s != "" && IsDigit(s[|s| - 1])
  }

  lemma DigitsAreOneLine(n: nat)
    ensures OneLine(NatText(n))
  {
    var s := NatText(n);
    assert forall i :: 0 <= i < |s| ==> IsDigit(s[i]);
  }

  lemma IntIsOneLine(n: int)
    ensures OneLine(IntText(n))
  {
    DigitsAreOneLine(if n < 0 then -n else n);
  }

  lemma PrefixedOneLine(prefix: string, s: string)
    requires NEWLINE !in prefix && OneLine(s)
    ensures OneLine(prefix + s)
  {
  }

  lemma FieldOneLine(w: string, rest: string)
    requires NEWLINE !in w && (if rest == "" then OneLine(w) else OneLine(rest))
    ensures OneLine(Field(w, rest))
  {
  }

  lemma MetricNameHasNoNewline(metric: byte)
    ensures NEWLINE !in MetricName(metric)
  {
    DigitsAreOneLine(metric as nat);
  }

  lemma StampedOneLine(session: u16, timestamp: U32, rest: string)
    requires rest == "" || OneLine(rest)
    ensures OneLine(Stamped(session, timestamp, rest))
  {
    DigitsAreOneLine(session as nat);
    DigitsAreOneLine(timestamp);
    FieldOneLine(NatText(timestamp), rest);
    FieldOneLine(NatText(session as nat), Field(NatText(timestamp), rest));
  }

  lemma UpdateOneLine(u: Update)
    ensures OneLine(UpdateText(u))
  {
    match u
    case SampleUpdate(metric, session, timestamp, value) =>
      IntIsOneLine(value);
      StampedOneLine(session, timestamp, Field(IntText(value), ""));
      MetricNameHasNoNewline(metric);
      PrefixedOneLine(MetricName(metric), Stamped(session, timestamp, Field(IntText(value), "")));
    case ExcursionUpdate(session, timestamp, value) =>
      IntIsOneLine(value);
      var rest := Stamped(session, timestamp, Field(IntText(value), ""));
      StampedOneLine(session, timestamp, Field(IntText(value), ""));
      FieldOneLine("EXCURSION", rest);
      PrefixedOneLine("ALERT", Field("EXCURSION", rest));
    case OfflineUpdate(session, timestamp) =>
      StampedOneLine(session, timestamp, "");
      FieldOneLine("OFFLINE", Stamped(session, timestamp, ""));
      PrefixedOneLine("ALERT", Field("OFFLINE", Stamped(session, timestamp, "")));
  }

  lemma StatsOneLine(metric: string, n: nat)
    requires NEWLINE !in metric
    ensures OneLine(StatsText(metric, n))
  {
    DigitsAreOneLine(n);
    var name := if metric == "" then "none" else metric;
    PrefixedOneLine("updates_sent=", NatText(n));
    FieldOneLine("updates_sent=" + NatText(n), "");
    FieldOneLine("metric=" + name, Field("updates_sent=" + NatText(n), ""));
    PrefixedOneLine("STATS", Field("metric=" + name, Field("updates_sent=" + NatText(n), "")));
  }

  lemma AckOneLine(session: nat, r: AckResult)
    ensures OneLine(AckText(session, r))
  {
    DigitsAreOneLine(session);
    IntIsOneLine(r.excursionMs);
    IntIsOneLine(r.offlineMs);
    var active := if r.excursionStillActive then "1" else "0";
    PrefixedOneLine("offline_ms=", IntText(r.offlineMs));
    var f4 := Field("offline_ms=" + IntText(r.offlineMs), "");
    var f3 := Field("excursion_active=" + active, f4);
    var f2 := Field("excursion_ms=" + IntText(r.excursionMs), f3);
    FieldOneLine("excursion_active=" + active, f4);
    FieldOneLine("excursion_ms=" + IntText(r.excursionMs), f3);
    FieldOneLine(NatText(session), f2);
    PrefixedOneLine("ACK_OK", Field(NatText(session), f2));
  }

  predicate WfEmission(e: Emission)
  {
    e.StatsReply? ==> NEWLINE !in e.metric
  }

  function EmissionItem(e: Emission): Item
  {
    match e
    case Told(u) => ItemOf(u)
    case StatsReply(metric, n) => Unrecognized(StatsText(metric, n))
    case AckReply(session, r) => Unrecognized(AckText(session as nat, r))
  }

  lemma StripOneLine(s: string)
    requires OneLine(s)
    ensures Strip(s) == s
  {
  }

  lemma EmissionOneLine(e: Emission)
    requires WfEmission(e)
    ensures OneLine(EmissionText(e))
  {
    match e
    case Told(u) => UpdateOneLine(u);
    case StatsReply(metric, n) => StatsOneLine(metric, n);
    case AckReply(session, r) => AckOneLine(session as nat, r);
  }

  lemma EmissionClassified(e: Emission)
    ensures Classify(EmissionText(e)) == EmissionItem(e)
  {
    match e
    case Told(u) => UpdateReadBack(u);
    case StatsReply(metric, n) => StatsIsUnrecognized(metric, n);
    case AckReply(session, r) => AckIsUnrecognized(session, r);
  }

  lemma EmissionReadBack(e: Emission, text: string)
    requires WfEmission(e) && text == EmissionText(e)
    ensures NEWLINE !in text && Reader()(text) == EmissionItem(e)
  {
    EmissionOneLine(e);
    EmissionClassified(e);
    StripOneLine(text);
  }

  function Items(es: seq<Emission>): (r: seq<Item>)
    ensures |r| == |es|
  {
    seq(|es|, i requires 0 <= i < |es| => EmissionItem(es[i]))
  }

  lemma EmissionsReadBack(es: seq<Emission>)
    requires forall i :: 0 <= i < |es| ==> WfEmission(es[i])
    ensures Map(Reader(), Lines(es)) == Items(es)
    ensures forall i :: 0 <= i < |es| ==> NEWLINE !in Lines(es)[i]
  {
    forall i | 0 <= i < |es|
      ensures Map(Reader(), Lines(es))[i] == Items(es)[i] && NEWLINE !in Lines(es)[i]
    {
      EmissionReadBack(es[i], Lines(es)[i]);
    }
  }

  /** Round trip: the server's lines, followed by the beginning of a next one and cut into any chunks,
      give the client exactly those items in order and leave exactly the unfinished bytes buffered. */
  lemma TextRoundTrip(es: seq<Emission>, partial: string, chunks: seq<string>)
    requires forall i :: 0 <= i < |es| ==> WfEmission(es[i])
    requires NEWLINE !in partial && Joined(chunks) == OutText(es) + partial
    ensures ReceiveAll(chunks) == Scan(partial, Items(es))
  {
    EmissionsReadBack(es);
    ChunksDoNotMatter(NEWLINE, Reader(), chunks);
    WireScanned(NEWLINE, Reader(), Lines(es), partial);
  }

  // ---- The two ends' counters ----

  function CountSamples(items: seq<Item>): nat
  {
    if items == [] then 0
    else CountSamples(items[..|items| - 1]) + if items[|items| - 1].SampleItem? then 1 else 0
  }

  function CountAlerts(items: seq<Item>): nat
  {
    if items == [] then 0
    else CountAlerts(items[..|items| - 1]) + if items[|items| - 1].AlertItem? then 1 else 0
  }

  function CountUnrecognized(items: seq<Item>): nat
  {
    if items == [] then 0
    else CountUnrecognized(items[..|items| - 1]) + if items[|items| - 1].Unrecognized? then 1 else 0
  }

  /** Alerts published in a run. */
  function AlertsPublished(events: seq<SubEvent>): nat
  {
    if events == [] then 0
    else
      var e := events[|events| - 1];
      AlertsPublished(events[..|events| - 1]) + if e.Published? && !e.update.SampleUpdate? then 1 else 0
  }

  function Replies(es: seq<Emission>): nat
  {
    if es == [] then 0 else Replies(es[..|es| - 1]) + if es[|es| - 1].Told? then 0 else 1
  }

  predicate SubInv(s: Sub)
  {
    && NEWLINE !in s.metric
    && (forall i :: 0 <= i < |s.emitted| ==> WfEmission(s.emitted[i]))
  }

  predicate CountsMatch(s: Sub, alerts: nat)
  {
    var items := Items(s.emitted);
    CountSamples(items) == s.updatesSent && CountAlerts(items) == alerts && CountUnrecognized(items) == Replies(s.emitted)
  }

  lemma EmitCounts(s: Sub, e: Emission)
    ensures var before, after := Items(s.emitted), Items(Emit(s, e).emitted);
            var item := EmissionItem(e);
            && CountSamples(after) == CountSamples(before) + (if item.SampleItem? then 1 else 0)
            && CountAlerts(after) == CountAlerts(before) + (if item.AlertItem? then 1 else 0)
            && CountUnrecognized(after) == CountUnrecognized(before) + (if item.Unrecognized? then 1 else 0)
            && Replies(Emit(s, e).emitted) == Replies(s.emitted) + (if e.Told? then 0 else 1)
  {
    var es := Emit(s, e).emitted;
    assert Items(es)[..|es| - 1] == Items(s.emitted);
    assert es[..|es| - 1] == s.emitted;
  }

  lemma ToldItem(u: Update, item: Item)
    requires item == EmissionItem(Told(u))
    ensures !item.Unrecognized? && (item.SampleItem? <==> u.SampleUpdate?) && (item.AlertItem? <==> !u.SampleUpdate?)
  {
  }

  lemma ToldKeeps(s: Sub, u: Update, alerts: nat, s': Sub)
    requires SubInv(s) && CountsMatch(s, alerts) && s' == Emit(s, Told(u)).(updatesSent := s'.updatesSent)
    requires s'.updatesSent == s.updatesSent + if u.SampleUpdate? then 1 else 0
    ensures SubInv(s') && CountsMatch(s', alerts + if u.SampleUpdate? then 0 else 1)
  {
    EmitCounts(s, Told(u));
    ToldItem(u, EmissionItem(Told(u)));
  }

  lemma PublishKeeps(s: Sub, u: Update, alerts: nat)
    requires SubInv(s) && CountsMatch(s, alerts)
    ensures SubInv(Publish(s, u)) && CountsMatch(Publish(s, u), alerts + if u.SampleUpdate? then 0 else 1)
  {
    if Publish(s, u) != s {
      ToldKeeps(s, u, alerts, Publish(s, u));
    } else if !u.SampleUpdate? {
      EmitChanges(s, Told(u));
    }
  }

  /** A command changes the metric, or sends one reply, or does nothing. */
  lemma CommandEffect(s: Sub, line: string, ack: AckResult) returns (reply: Option<Emission>)
    requires SubInv(s) && NEWLINE !in line
    ensures match reply
            case None => NEWLINE !in HandleLine(s, line, ack).metric
                         && HandleLine(s, line, ack) == s.(metric := HandleLine(s, line, ack).metric)
            case Some(e) => !e.Told? && WfEmission(e) && HandleLine(s, line, ack) == Emit(s, e)
  {
    var n := FirstSpace(line);
    var verb, args := line[..n], if n < |line| then line[n + 1..] else "";
    assert NEWLINE !in args;
    reply := None;
    if verb == "STATS" {
      reply := Some(StatsReply(s.metric, s.updatesSent));
    } else if verb == "ACK" && ReadUnsigned(args, MAX_U16).Got? && SkipSpace(ReadUnsigned(args, MAX_U16).rest) == "" {
      reply := Some(AckReply(ReadUnsigned(args, MAX_U16).value as u16, ack));
    }
  }

  lemma CommandKeeps(s: Sub, line: string, ack: AckResult, alerts: nat)
    requires SubInv(s) && CountsMatch(s, alerts) && NEWLINE !in line
    ensures SubInv(HandleLine(s, line, ack)) && CountsMatch(HandleLine(s, line, ack), alerts)
  {
    var reply := CommandEffect(s, line, ack);
    if reply.Some? {
      EmitCounts(s, reply.value);
    }
  }

  lemma {:induction false} RunKeeps(events: seq<SubEvent>)
    requires forall i :: 0 <= i < |events| ==> Wf(events[i])
    ensures SubInv(Run(events)) && CountsMatch(Run(events), AlertsPublished(events))
  {
    if events != [] {
      var n := |events| - 1;
      RunKeeps(events[..n]);
      assert Wf(events[n]);
      match events[n]
      case Published(u) => PublishKeeps(Run(events[..n]), u, AlertsPublished(events[..n]));
      case Commanded(line, ack) => CommandKeeps(Run(events[..n]), line, ack, AlertsPublished(events[..n]));
    }
  }

  /** Over any run of publishes and commands, and any chunking, the client counts as samples exactly the
      updates the server counted as sent, as alerts exactly the alerts published, and as unrecognised
      exactly the replies to STATS and ACK. */
  lemma CountersAgree(events: seq<SubEvent>, chunks: seq<string>)
    requires forall i :: 0 <= i < |events| ==> Wf(events[i])
    requires Joined(chunks) == OutText(Run(events).emitted)
    ensures var s, items := Run(events), ReceiveAll(chunks).out;
            && CountSamples(items) == s.updatesSent
            && CountAlerts(items) == AlertsPublished(events)
            && CountUnrecognized(items) == Replies(s.emitted)
  {
    RunKeeps(events);
    var es := Run(events).emitted;
    assert OutText(es) + "" == OutText(es);
    TextRoundTrip(es, "", chunks);
  }
}
