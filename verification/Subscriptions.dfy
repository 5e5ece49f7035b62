/** What a dashboard gets to see of the readings: the metric filter of server/subscriber.cpp, from the commands and
    publications alone to the items the client reads. */
module Subscriptions {
  import opened Common
  import opened Split
  import opened StoreModel
  import opened TextProtocol
  import Text = TextStream

  // ---- The metric asked for ----

  /** The metric a line asks for, by what it starts with. */
  function Asks(line: string, current: string): string
  {
    if line == "SUBSCRIBE" then ""
    else if "SUBSCRIBE" + " " <= line then line[10..]
    else if line == "UNSUBSCRIBE" || "UNSUBSCRIBE" + " " <= line then ""
    else current
  }

  /** The metric asked for last: none before the first SUBSCRIBE and none after UNSUBSCRIBE. */
  function Wanted(events: seq<Text.SubEvent>): string
  {
    if events == [] then ""
    else
      var before, e := Wanted(events[..|events| - 1]), events[|events| - 1];
      if e.Commanded? then Asks(e.line, before) else before
  }

  /** Everything published that the dashboard is to see: every alert, and each reading whose metric is the one
      asked for last. */
  function Shown(events: seq<Text.SubEvent>): seq<Update>
  {
    if events == [] then []
    else
      var front, e := events[..|events| - 1], events[|events| - 1];
      Shown(front)
      + if e.Published? && (!e.update.SampleUpdate? || MetricName(e.update.metric) == Wanted(front)) then [e.update] else []
  }

  function SamplesShown(events: seq<Text.SubEvent>): nat
  {
    if events == [] then 0
    else
      var front, e := events[..|events| - 1], events[|events| - 1];
      SamplesShown(front)
      + if e.Published? && e.update.SampleUpdate? && MetricName(e.update.metric) == Wanted(front) then 1 else 0
  }

  // ---- Verbs ----

  /** The verb of a line, by what the line starts with. */
  predicate HasVerb(line: string, verb: string)
  {
    line == verb || verb + " " <= line
  }

  lemma {:induction false} FirstSpaceEnds(line: string)
    ensures var n := Text.FirstSpace(line); ' ' !in line[..n] && (n < |line| ==> line[n] == ' ')
  {
    if line != "" && line[0] != ' ' {
      FirstSpaceEnds(line[1..]);
      var n := Text.FirstSpace(line[1..]);
      assert line[..n + 1] == [line[0]] + line[1..][..n];
    }
  }

  lemma VerbIs(line: string, verb: string)
    requires ' ' !in verb
    ensures line[..Text.FirstSpace(line)] == verb <==> HasVerb(line, verb)
    ensures HasVerb(line, verb) ==> Text.FirstSpace(line) == |verb|
  {
    var n := Text.FirstSpace(line);
    FirstSpaceEnds(line);
    if line[..n] == verb {
      if n < |line| {
        assert line[..n + 1] == verb + " ";
      } else {
        assert line[..n] == line;
      }
    }
    if line == verb {
      Text.FirstSpaceIs(verb, "");
      assert line[..|verb|] == verb;
    } else if verb + " " <= line {
      var args := line[|verb| + 1..];
      assert line == verb + " " + args;
      Text.FirstSpaceIs(verb, args);
      assert line[..|verb|] == verb;
    }
  }

  function ArgsOf(line: string, verb: string): string
    requires HasVerb(line, verb)
  {
    if line == verb then "" else line[|verb| + 1..]
  }

  lemma CommandOf(s: Text.Sub, line: string, verb: string, ack: AckResult)
    requires ' ' !in verb && HasVerb(line, verb)
    ensures Text.HandleLine(s, line, ack) == Text.HandleCommand(s, verb, ArgsOf(line, verb), ack)
  {
    VerbIs(line, verb);
  }

  /** A line changes the metric exactly as it asks. */
  lemma LineAsks(s: Text.Sub, line: string, ack: AckResult)
    ensures Text.HandleLine(s, line, ack).metric == Asks(line, s.metric)
  {
    var subscribe, unsubscribe := "SUBSCRIBE", "UNSUBSCRIBE";
    VerbIs(line, subscribe);
    VerbIs(line, unsubscribe);
    if HasVerb(line, subscribe) {
      CommandOf(s, line, subscribe, ack);
    } else if HasVerb(line, unsubscribe) {
      CommandOf(s, line, unsubscribe, ack);
      NotSubscribe(line);
    }
  }

  lemma NotSubscribe(line: string)
    requires HasVerb(line, "UNSUBSCRIBE")
    ensures !HasVerb(line, "SUBSCRIBE")
  {
    assert line[0] == 'U';
  }

  /** A line whose verb is none of the four does nothing. */
  lemma OtherLinesIgnored(s: Text.Sub, line: string, ack: AckResult)
    requires !HasVerb(line, "SUBSCRIBE") && !HasVerb(line, "UNSUBSCRIBE") && !HasVerb(line, "STATS") && !HasVerb(line, "ACK")
    ensures Text.HandleLine(s, line, ack) == s
  {
    VerbIs(line, "SUBSCRIBE");
    VerbIs(line, "UNSUBSCRIBE");
    VerbIs(line, "STATS");
    VerbIs(line, "ACK");
  }

  // ---- What is sent ----

  /** The updates among the lines sent. */
  function ToldIn(es: seq<Text.Emission>): seq<Update>
  {
    if es == [] then [] else ToldIn(es[..|es| - 1]) + if es[|es| - 1].Told? then [es[|es| - 1].update] else []
  }

  lemma ToldInEmit(s: Text.Sub, e: Text.Emission)
    ensures ToldIn(Text.Emit(s, e).emitted) == ToldIn(s.emitted) + if e.Told? then [e.update] else []
  {
    var es := Text.Emit(s, e).emitted;
    assert es != [] && es[..|es| - 1] == s.emitted && es[|es| - 1] == e;
  }

  predicate Follows(s: Text.Sub, events: seq<Text.SubEvent>)
  {
    s.metric == Wanted(events) && ToldIn(s.emitted) == Shown(events) && s.updatesSent == SamplesShown(events)
  }

  lemma PublishFollows(s: Text.Sub, u: Update, wanted: string, shown: seq<Update>)
    requires s.metric == wanted && ToldIn(s.emitted) == shown
    ensures var s', shows := Text.Publish(s, u), !u.SampleUpdate? || MetricName(u.metric) == wanted;
            && s'.metric == wanted && ToldIn(s'.emitted) == shown + (if shows then [u] else [])
            && s'.updatesSent == s.updatesSent + if u.SampleUpdate? && shows then 1 else 0
  {
    ToldInEmit(s, Text.Told(u));
    assert shown + [] == shown;
  }

  lemma CommandFollows(s: Text.Sub, line: string, ack: AckResult)
    requires Text.SubInv(s) && NEWLINE !in line
    ensures var s' := Text.HandleLine(s, line, ack); ToldIn(s'.emitted) == ToldIn(s.emitted) && s'.updatesSent == s.updatesSent
  {
    var reply := Text.CommandEffect(s, line, ack);
    if reply.Some? {
      ToldInEmit(s, reply.value);
      assert ToldIn(s.emitted) + [] == ToldIn(s.emitted);
    }
  }

  /** Over any run the subscriber holds the metric asked for last, has sent exactly what is to be shown, in order,
      and has counted the readings among it. */
  lemma {:induction false} RunFollows(events: seq<Text.SubEvent>)
    requires forall i :: 0 <= i < |events| ==> Text.Wf(events[i])
    ensures Follows(Text.Run(events), events)
  {
    if events != [] {
      var front, e := events[..|events| - 1], events[|events| - 1];
      var s := Text.Run(front);
      RunFollows(front);
      Text.RunKeeps(front);
      assert Text.Wf(e);
      match e
      case Published(u) => PublishFollows(s, u, Wanted(front), Shown(front));
      case Commanded(line, ack) =>
        LineAsks(s, line, ack);
        CommandFollows(s, line, ack);
        assert Shown(front) + [] == Shown(front);
    }
  }

  // ---- What is read ----

  /** The samples and alerts among the client's items. */
  function UpdateItems(items: seq<Item>): seq<Item>
  {
    if items == [] then []
    else UpdateItems(items[..|items| - 1]) + if items[|items| - 1].Unrecognized? then [] else [items[|items| - 1]]
  }

  function ItemsOf(us: seq<Update>): seq<Item>
  {
    Map(u => ItemOf(u), us)
  }

  lemma {:induction false} UpdateItemsAre(es: seq<Text.Emission>)
    ensures UpdateItems(Text.Items(es)) == ItemsOf(ToldIn(es))
  {
    if es != [] {
      var front, e := es[..|es| - 1], es[|es| - 1];
      UpdateItemsAre(front);
      assert Text.Items(es)[..|es| - 1] == Text.Items(front);
      if e.Told? {
        Text.ToldItem(e.update, Text.EmissionItem(e));
        ItemsOfLast(ToldIn(front), e.update);
      } else {
        assert ToldIn(es) == ToldIn(front);
      }
    }
  }

  lemma ItemsOfLast(us: seq<Update>, u: Update)
    ensures ItemsOf(us + [u]) == ItemsOf(us) + [ItemOf(u)]
  {
  }

  /** Over any run of publications and commands, in any chunks: the client's samples and alerts are exactly, in
      order, the alerts published and the readings published while their metric was the one asked for last. */
  lemma ClientSeesShown(events: seq<Text.SubEvent>, chunks: seq<string>)
    requires forall i :: 0 <= i < |events| ==> Text.Wf(events[i])
    requires Joined(chunks) == Text.OutText(Text.Run(events).emitted)
    ensures UpdateItems(Text.ReceiveAll(chunks).out) == ItemsOf(Shown(events))
  {
    Text.RunKeeps(events);
    RunFollows(events);
    var es := Text.Run(events).emitted;
    assert Text.OutText(es) + "" == Text.OutText(es);
    Text.TextRoundTrip(es, "", chunks);
    UpdateItemsAre(es);
  }

  /** STATS, with or without arguments, is answered with the metric asked for last and the number of readings sent
      so far. */
  lemma StatsAnswers(events: seq<Text.SubEvent>, line: string, ack: AckResult)
    requires (forall i :: 0 <= i < |events| ==> Text.Wf(events[i])) && HasVerb(line, "STATS")
    ensures var s := Text.Run(events);
            Text.HandleLine(s, line, ack) == Text.Emit(s, Text.StatsReply(Wanted(events), SamplesShown(events)))
  {
    RunFollows(events);
    CommandOf(Text.Run(events), line, "STATS", ack);
  }

  /** So the server's counter, and the client's, is the number of readings shown. */
  lemma CountersMean(events: seq<Text.SubEvent>, chunks: seq<string>)
    requires forall i :: 0 <= i < |events| ==> Text.Wf(events[i])
    requires Joined(chunks) == Text.OutText(Text.Run(events).emitted)
    ensures Text.Run(events).updatesSent == SamplesShown(events)
    ensures Text.CountSamples(Text.ReceiveAll(chunks).out) == SamplesShown(events)
  {
    RunFollows(events);
    Text.CountersAgree(events, chunks);
  }
}
