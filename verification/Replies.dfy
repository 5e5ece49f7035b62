/** The texts of the line protocol as they are written, and what the replies to STATS and ACK tell. */
module Replies {
  import opened Decimal
  import opened StoreModel
  import opened TextProtocol

  // ---- The lines, written out ----

  /** A reading of the temperature, of the pressure, and of another metric. */
  lemma SampleLines(temp: string, pressure: string, other: string)
    requires temp == UpdateText(SampleUpdate(0, 1, 100, 4200))
    requires pressure == UpdateText(SampleUpdate(1, 2, 3, -4))
    requires other == UpdateText(SampleUpdate(7, 2, 3, 0))
    ensures temp == "temp" + " 1" + " 100" + " 4200"
    ensures pressure == "pressure" + " 2" + " 3" + " -4"
    ensures other == "metric7" + " 2" + " 3" + " 0"
  {
    Numbers();
  }

  lemma ExcursionLine(line: string)
    requires line == UpdateText(ExcursionUpdate(1, 100, 5600))
    ensures line == "ALERT" + " EXCURSION" + " 1" + " 100" + " 5600"
  {
    Numbers();
  }

  lemma OfflineLine(line: string)
    requires line == UpdateText(OfflineUpdate(2, 3))
    ensures line == "ALERT" + " OFFLINE" + " 2" + " 3"
  {
    Numbers();
  }

  lemma StatsLine(line: string)
    requires line == StatsText("temp", 7)
    ensures line == "STATS" + " metric=temp" + " updates_sent=7"
  {
    Numbers();
  }

  lemma IdleStatsLine(line: string)
    requires line == StatsText("", 0)
    ensures line == "STATS" + " metric=none" + " updates_sent=0"
  {
    Numbers();
  }

  lemma AckLine(line: string)
    requires line == AckText(3, AckResult(true, 100, true, false, 0))
    ensures line == "ACK_OK" + " 3" + " excursion_ms=100" + " excursion_active=1" + " offline_ms=0"
  {
    Numbers();
    var a, b, c, d := AckParts();
    FourFields(line, "ACK_OK", "3", "excursion_ms=" + "100", "excursion_active=" + "1", "offline_ms=" + "0", a, b, c, d);
  }

  lemma AckParts() returns (a: string, b: string, c: string, d: string)
    ensures a == " 3" && a == " " + "3"
    ensures b == " excursion_ms=100" && b == " " + ("excursion_ms=" + "100")
    ensures c == " excursion_active=1" && c == " " + ("excursion_active=" + "1")
    ensures d == " offline_ms=0" && d == " " + ("offline_ms=" + "0")
  {
    a, b, c, d := " 3", " excursion_ms=100", " excursion_active=1", " offline_ms=0";
  }

  lemma FourFields(line: string, p: string, a: string, b: string, c: string, d: string,
                   a': string, b': string, c': string, d': string)
    requires line == p + Field(a, Field(b, Field(c, Field(d, ""))))
    requires a' == " " + a && b' == " " + b && c' == " " + c && d' == " " + d
    ensures line == p + a' + b' + c' + d'
  {
    FieldBehind(p, a, Field(b, Field(c, Field(d, ""))));
    FieldBehind(p + a', b, Field(c, Field(d, "")));
    FieldBehind(p + a' + b', c, Field(d, ""));
    FieldBehind(p + a' + b' + c', d, "");
  }

  lemma FieldBehind(p: string, w: string, rest: string)
    ensures p + Field(w, rest) == p + (" " + w) + rest
  {
  }

  lemma Numbers()
    ensures NatText(0) == "0" && NatText(1) == "1" && NatText(2) == "2" && NatText(3) == "3" && NatText(4) == "4" && NatText(7) == "7"
    ensures NatText(100) == "100" && NatText(4200) == "4200" && NatText(5600) == "5600" && IntText(-4) == "-4"
  {
    assert NatText(10) == "1" + "0" && NatText(42) == "4" + "2" && NatText(56) == "5" + "6";
    assert NatText(420) == NatText(42) + "0" && NatText(560) == NatText(56) + "0";
  }

  // ---- Numbers are determined by their texts ----

  lemma NatTextIsInjective(a: nat, b: nat)
    requires NatText(a) == NatText(b)
    ensures a == b
  {
    NumberOfText(a);
    NumberOfText(b);
  }

  lemma IntTextIsInjective(a: int, b: int)
    requires IntText(a) == IntText(b)
    ensures a == b
  {
    var s, t := IntText(a), IntText(b);
    assert a < 0 ==> s[0] == '-' && s[1..] == NatText(-a);
    assert b < 0 ==> t[0] == '-' && t[1..] == NatText(-b);
    assert a >= 0 ==> IsDigit(s[0]);
    assert b >= 0 ==> IsDigit(t[0]);
    NatTextIsInjective(if a < 0 then -a else a, if b < 0 then -b else b);
  }

  lemma SameBehind(p: string, a: string, b: string)
    requires p + a == p + b
    ensures a == b
  {
    assert (p + a)[|p|..] == a && (p + b)[|p|..] == b;
  }

  lemma IntWord(n: int)
    ensures IsWord(IntText(n))
  {
    TextIsWord(if n < 0 then -n else n);
  }

  lemma LabelledWord(name: string, w: string)
    requires IsWord(name) && IsWord(w)
    ensures IsWord(name + w)
  {
  }

  /** Fields are determined by the text they begin. */
  lemma SameField(w: string, rest: string, w': string, rest': string)
    requires IsWord(w) && WordEnds(rest) && IsWord(w') && WordEnds(rest') && Field(w, rest) == Field(w', rest')
    ensures w == w' && rest == rest'
  {
    ReadWordBack(w, rest);
    ReadWordBack(w', rest');
  }

  function Flag(b: bool): string
  {
    if b then "1" else "0"
  }

  lemma AckFields(r: AckResult)
    ensures IsWord("excursion_ms=" + IntText(r.excursionMs)) && IsWord("excursion_active=" + Flag(r.excursionStillActive))
    ensures IsWord("offline_ms=" + IntText(r.offlineMs))
  {
    IntWord(r.excursionMs);
    IntWord(r.offlineMs);
    LabelledWord("excursion_ms=", IntText(r.excursionMs));
    LabelledWord("excursion_active=", Flag(r.excursionStillActive));
    LabelledWord("offline_ms=", IntText(r.offlineMs));
  }

  lemma SameTail(r: AckResult, q: AckResult)
    requires Field("excursion_ms=" + IntText(r.excursionMs), Field("excursion_active=" + Flag(r.excursionStillActive), Field("offline_ms=" + IntText(r.offlineMs), "")))
             == Field("excursion_ms=" + IntText(q.excursionMs), Field("excursion_active=" + Flag(q.excursionStillActive), Field("offline_ms=" + IntText(q.offlineMs), "")))
    ensures r.excursionMs == q.excursionMs && r.excursionStillActive == q.excursionStillActive && r.offlineMs == q.offlineMs
  {
    AckFields(r);
    AckFields(q);
    var o, o' := Field("offline_ms=" + IntText(r.offlineMs), ""), Field("offline_ms=" + IntText(q.offlineMs), "");
    var f, f' := Field("excursion_active=" + Flag(r.excursionStillActive), o), Field("excursion_active=" + Flag(q.excursionStillActive), o');
    SameField("excursion_ms=" + IntText(r.excursionMs), f, "excursion_ms=" + IntText(q.excursionMs), f');
    SameField("excursion_active=" + Flag(r.excursionStillActive), o, "excursion_active=" + Flag(q.excursionStillActive), o');
    SameField("offline_ms=" + IntText(r.offlineMs), "", "offline_ms=" + IntText(q.offlineMs), "");
    SameBehind("excursion_ms=", IntText(r.excursionMs), IntText(q.excursionMs));
    SameBehind("excursion_active=", Flag(r.excursionStillActive), Flag(q.excursionStillActive));
    SameBehind("offline_ms=", IntText(r.offlineMs), IntText(q.offlineMs));
    IntTextIsInjective(r.excursionMs, q.excursionMs);
    IntTextIsInjective(r.offlineMs, q.offlineMs);
  }

  /** The reply to ACK determines the session, both durations and whether the excursion goes on. */
  lemma AckReplyDetermines(session: nat, r: AckResult, session': nat, q: AckResult)
    requires AckText(session, r) == AckText(session', q)
    ensures session == session' && r.excursionMs == q.excursionMs
            && r.excursionStillActive == q.excursionStillActive && r.offlineMs == q.offlineMs
  {
    var t := Field("excursion_ms=" + IntText(r.excursionMs), Field("excursion_active=" + Flag(r.excursionStillActive), Field("offline_ms=" + IntText(r.offlineMs), "")));
    var t' := Field("excursion_ms=" + IntText(q.excursionMs), Field("excursion_active=" + Flag(q.excursionStillActive), Field("offline_ms=" + IntText(q.offlineMs), "")));
    SameBehind("ACK_OK", Field(NatText(session), t), Field(NatText(session'), t'));
    TextIsWord(session);
    TextIsWord(session');
    SameField(NatText(session), t, NatText(session'), t');
    NatTextIsInjective(session, session');
    SameTail(r, q);
  }

  /** What STATS shows for the metric: "none" if there is none. */
  function ShownMetric(metric: string): string
  {
    if metric == "" then "none" else metric
  }

  lemma SameDigitsBehind(p: string, a: string, q: string, b: string)
    requires p + a == q + b && AllDigits(a) && AllDigits(b)
    requires p != "" && q != "" && !IsDigit(p[|p| - 1]) && !IsDigit(q[|q| - 1])
    ensures p == q && a == b
  {
    var t := p + a;
    LastNonDigit(p, a);
    LastNonDigit(q, b);
    assert |p| == |q|;
    assert t[..|p|] == p && t[..|q|] == q && t[|p|..] == a && t[|q|..] == b;
  }

  lemma LastNonDigit(p: string, a: string)
    requires AllDigits(a) && p != "" && !IsDigit(p[|p| - 1])
    ensures var t := p + a; !IsDigit(t[|p| - 1]) && forall i :: |p| <= i < |t| ==> IsDigit(t[i])
  {
    assert forall i :: |p| <= i < |p + a| ==> (p + a)[i] == a[i - |p|];
  }

  function BeforeMetric(): string
  {
    "STATS" + " " + "metric="
  }

  function BehindMetric(): string
  {
    " " + "updates_sent="
  }

  lemma StatsShape(metric: string, n: nat)
    ensures StatsText(metric, n) == BeforeMetric() + ShownMetric(metric) + BehindMetric() + NatText(n)
  {
    assert NatText(n) + "" == NatText(n);
  }

  /** The reply to STATS determines the count and the metric shown; only no metric and the metric "none" look alike. */
  lemma StatsReplyDetermines(metric: string, n: nat, metric': string, n': nat)
    ensures StatsText(metric, n) == StatsText(metric', n') <==> n == n' && ShownMetric(metric) == ShownMetric(metric')
  {
    StatsShape(metric, n);
    StatsShape(metric', n');
    if StatsText(metric, n) == StatsText(metric', n') {
      var m, m' := BeforeMetric() + ShownMetric(metric), BeforeMetric() + ShownMetric(metric');
      SameDigitsBehind(m + BehindMetric(), NatText(n), m' + BehindMetric(), NatText(n'));
      NatTextIsInjective(n, n');
      SameBefore(m, m', BehindMetric());
      SameBehind(BeforeMetric(), ShownMetric(metric), ShownMetric(metric'));
    }
  }

  lemma SameBefore(a: string, b: string, p: string)
    requires a + p == b + p
    ensures a == b
  {
    assert (a + p)[..|a|] == a && (b + p)[..|b|] == b;
    assert |a| == |b|;
  }

  // ---- Carriage returns ----

  /** A carriage return before the newline is dropped, one of them, and nothing else is. */
  lemma StripExactly(line: string)
    ensures Strip(line + "\r") == line
    ensures (line == "" || line[|line| - 1] != '\r') ==> Strip(line) == line
  {
    assert (line + "\r")[..|line|] == line;
  }
}
