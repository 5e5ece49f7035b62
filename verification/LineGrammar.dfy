/** Exactly which lines the client takes for samples and alerts, as a grammar: white space, words and numbers. */
module LineGrammar {
  import opened Common
  import opened Decimal
  import opened TextProtocol

  // ---- Words ----

  predicate IsWordText(s: string, before: string, w: string, rest: string)
  {
    s == before + (w + rest) && AllSpace(before) && IsWord(w) && WordEnds(rest)
  }

  /** White space, the word `w`, and `rest`, which does not go on with the word. */
  ghost predicate WordThen(s: string, w: string, rest: string)
  {
    exists before :: IsWordText(s, before, w, rest)
  }

  lemma {:induction false} WordRunEnds(t: string)
    ensures var n := WordRun(t); (forall i :: 0 <= i < n ==> !IsSpace(t[i])) && (n < |t| ==> IsSpace(t[n]))
  {
    if t != "" && !IsSpace(t[0]) {
      WordRunEnds(t[1..]);
      var n := WordRun(t[1..]);
      assert forall i :: 0 < i <= n ==> t[i] == t[1..][i - 1];
    }
  }

  lemma ReadWordExactly(s: string, w: string, rest: string)
    ensures ReadWord(s) == Got(w, rest) <==> WordThen(s, w, rest)
  {
    if ReadWord(s) == Got(w, rest) {
      WordReadIs(s, w, rest);
    }
    if before :| IsWordText(s, before, w, rest) {
      WordIsRead(s, before, w, rest);
    }
  }

  lemma WordReadIs(s: string, w: string, rest: string)
    requires ReadWord(s) == Got(w, rest)
    ensures IsWordText(s, Leading(s), w, rest)
  {
    SkipSpaceSplits(s);
    LeadingIsSpace(s);
    FirstWordIs(SkipSpace(s), w, rest);
  }

  lemma FirstWordIs(t: string, w: string, rest: string)
    requires t != "" && !IsSpace(t[0]) && w == t[..WordRun(t)] && rest == t[WordRun(t)..]
    ensures t == w + rest && IsWord(w) && WordEnds(rest)
  {
    WordRunEnds(t);
  }

  lemma WordIsRead(s: string, before: string, w: string, rest: string)
    requires IsWordText(s, before, w, rest)
    ensures ReadWord(s) == Got(w, rest)
  {
    var t := w + rest;
    assert t[0] == w[0];
    SkipSpaceOver(before, t);
    WordRunIs(w, rest);
    assert t[..|w|] == w && t[|w|..] == rest;
  }

  // ---- Numbers ----

  predicate IsNumber(s: string, t: NumberText)
  {
    && s == t.before + (t.sign + (t.digits + t.after))
    && AllSpace(t.before) && (t.sign == "" || t.sign == "-" || t.sign == "+")
    && t.digits != "" && AllDigits(t.digits) && (t.after == "" || !IsDigit(t.after[0]))
  }

  predicate IsNumberThen(s: string, t: NumberText, negative: bool, magnitude: nat, rest: string)
  {
    IsNumber(s, t) && t.after == rest && negative == (t.sign == "-") && magnitude == Number(t.digits)
  }

  /** White space, a sign or none, decimal digits, and `rest`, which does not go on with a digit. */
  ghost predicate NumberThen(s: string, negative: bool, magnitude: nat, rest: string)
  {
    exists t :: IsNumberThen(s, t, negative, magnitude, rest)
  }

  lemma {:induction false} DigitRunEnds(t: string)
    ensures DigitRun(t) < |t| ==> !IsDigit(t[DigitRun(t)])
  {
    if t != "" && IsDigit(t[0]) {
      DigitRunEnds(t[1..]);
    }
  }

  lemma NumberIsRead(s: string, t: NumberText)
    requires IsNumber(s, t)
    ensures ReadMagnitude(s) == Got(Signed(t.sign == "-", Number(t.digits)), t.after)
  {
    var body := t.digits + t.after;
    var signed := t.sign + body;
    assert body[0] == t.digits[0];
    assert signed[0] == if t.sign == "" then body[0] else t.sign[0];
    SkipSpaceOver(t.before, signed);
    assert t.sign != "" ==> signed[1..] == body;
    assert t.sign == "" ==> signed == body;
    DigitRunIs(t.digits, t.after);
    assert body[..|t.digits|] == t.digits && body[|t.digits|..] == t.after;
  }

  lemma ReadIsNumber(s: string) returns (t: NumberText)
    requires ReadMagnitude(s).Got?
    ensures IsNumber(s, t) && ReadMagnitude(s) == Got(Signed(t.sign == "-", Number(t.digits)), t.after)
  {
    var u := SkipSpace(s);
    var body := BodyOf(u);
    var n := DigitRun(body);
    SkipSpaceSplits(s);
    LeadingIsSpace(s);
    SignAndBody(u);
    DigitsAndRest(body, n);
    DigitRunEnds(body);
    t := NumberText(Leading(s), SignOf(u), body[..n], body[n..]);
  }

  lemma ReadMagnitudeExactly(s: string, negative: bool, magnitude: nat, rest: string)
    ensures ReadMagnitude(s) == Got(Signed(negative, magnitude), rest) <==> NumberThen(s, negative, magnitude, rest)
  {
    if ReadMagnitude(s) == Got(Signed(negative, magnitude), rest) {
      var t := ReadIsNumber(s);
      assert IsNumberThen(s, t, negative, magnitude, rest);
    }
    if t :| IsNumberThen(s, t, negative, magnitude, rest) {
      NumberIsRead(s, t);
    }
  }

  /** An unsigned number of the given maximum; a minus sign wraps around. */
  ghost predicate UnsignedThen(s: string, max: nat, k: nat, rest: string)
  {
    exists negative: bool, n: nat :: NumberThen(s, negative, n, rest) && n <= max && k == if negative && n > 0 then max + 1 - n else n
  }

  lemma ReadUnsignedThen(s: string, max: nat, k: nat, rest: string)
    ensures ReadUnsigned(s, max) == Got(k, rest) <==> UnsignedThen(s, max, k, rest)
  {
    var r := ReadMagnitude(s);
    if r.Got? {
      ReadMagnitudeExactly(s, r.value.negative, r.value.magnitude, r.rest);
    }
    if negative: bool, n: nat :| NumberThen(s, negative, n, rest) && n <= max && k == if negative && n > 0 then max + 1 - n else n {
      ReadMagnitudeExactly(s, negative, n, rest);
    }
  }

  /** A number of 32 bits with sign. */
  ghost predicate Int32Then(s: string, v: int, rest: string)
  {
    exists negative: bool, n: nat :: NumberThen(s, negative, n, rest) && v == (if negative then 0 - n else n) && -0x8000_0000 <= v < 0x8000_0000
  }

  lemma ReadInt32Then(s: string, v: int, rest: string)
    ensures ReadInt32(s) == Got(v, rest) <==> Int32Then(s, v, rest)
  {
    var r := ReadMagnitude(s);
    if r.Got? {
      ReadMagnitudeExactly(s, r.value.negative, r.value.magnitude, r.rest);
    }
    if negative: bool, n: nat :| NumberThen(s, negative, n, rest) && v == (if negative then 0 - n else n) && -0x8000_0000 <= v < 0x8000_0000 {
      ReadMagnitudeExactly(s, negative, n, rest);
    }
  }

  // ---- Lines ----

  /** A session of sixteen bits, then a timestamp of thirty-two. */
  ghost predicate StampThen(s: string, session: nat, timestamp: nat, rest: string)
  {
    exists r :: UnsignedThen(s, 65535, session, r) && UnsignedThen(r, 4294967295, timestamp, rest)
  }

  lemma ReadStampThen(s: string, session: nat, timestamp: nat, rest: string)
    ensures ReadStamp(s) == Got(Stamp(session, timestamp), rest) <==> StampThen(s, session, timestamp, rest)
  {
    var a := ReadUnsigned(s, MAX_U16);
    if a.Got? {
      ReadUnsignedThen(s, MAX_U16, a.value, a.rest);
      var b := ReadUnsigned(a.rest, MAX_U32);
      if b.Got? {
        ReadUnsignedThen(a.rest, MAX_U32, b.value, b.rest);
      }
    }
    if r :| UnsignedThen(s, 65535, session, r) && UnsignedThen(r, 4294967295, timestamp, rest) {
      ReadUnsignedThen(s, MAX_U16, session, r);
      ReadUnsignedThen(r, MAX_U32, timestamp, rest);
    }
  }

  /** A value and nothing behind it. */
  ghost predicate LastValue(s: string, v: int)
  {
    exists rest :: Int32Then(s, v, rest) && AllSpace(rest)
  }

  lemma ReadLastValueExactly(s: string, v: int)
    ensures ReadLastValue(s) == Some(v) <==> LastValue(s, v)
  {
    var r := ReadInt32(s);
    if r.Got? {
      ReadInt32Then(s, r.value, r.rest);
      NothingButSpace(r.rest);
    }
    if rest :| Int32Then(s, v, rest) && AllSpace(rest) {
      ReadInt32Then(s, v, rest);
      NothingButSpace(rest);
    }
  }

  /** metric session timestamp value */
  ghost predicate IsSampleLine(line: string, metric: string, session: nat, timestamp: nat, value: int)
  {
    exists r, last :: WordThen(line, metric, r) && StampThen(r, session, timestamp, last) && LastValue(last, value)
  }

  /** The client takes a line for a sample exactly if it is one word, a session, a timestamp and a value. */
  lemma SampleExactly(line: string, metric: string, session: nat, timestamp: nat, value: int)
    ensures TryParseSample(line) == Some(SampleItem(metric, session, timestamp, value))
            <==> IsSampleLine(line, metric, session, timestamp, value)
  {
    var a := ReadWord(line);
    if a.Got? {
      ReadWordExactly(line, a.value, a.rest);
      var b := ReadStamp(a.rest);
      if b.Got? {
        ReadStampThen(a.rest, b.value.session, b.value.timestamp, b.rest);
        ReadLastValueExactly(b.rest, value);
      }
    }
    if r, last :| WordThen(line, metric, r) && StampThen(r, session, timestamp, last) && LastValue(last, value) {
      ReadWordExactly(line, metric, r);
      ReadStampThen(r, session, timestamp, last);
      ReadLastValueExactly(last, value);
    }
  }

  /** What an alert of this kind has behind its stamp: an excursion its value, an offline alert nothing. */
  ghost predicate AlertEnds(kind: string, last: string, value: int)
  {
    (kind == "EXCURSION" && LastValue(last, value)) || (kind == "OFFLINE" && AllSpace(last) && value == 0)
  }

  /** ALERT kind session timestamp, and a value for an excursion */
  ghost predicate IsAlertLine(line: string, kind: string, session: nat, timestamp: nat, value: int)
  {
    exists r, r', last ::
      WordThen(line, "ALERT", r) && WordThen(r, kind, r') && StampThen(r', session, timestamp, last) && AlertEnds(kind, last, value)
  }

  lemma AlertEndsExactly(kind: string, stamp: Stamp, last: string, value: int)
    ensures AlertEnds(kind, last, value)
            <==> (kind == "EXCURSION" && ReadLastValue(last) == Some(value)) || (kind == "OFFLINE" && SkipSpace(last) == "" && value == 0)
  {
    ReadLastValueExactly(last, value);
    NothingButSpace(last);
  }

  lemma AlertIsLine(line: string, kind: string, session: nat, timestamp: nat, value: int)
    requires TryParseAlert(line) == Some(AlertItem(kind, session, timestamp, value))
    ensures IsAlertLine(line, kind, session, timestamp, value)
  {
    var a := ReadWord(line);
    var b := ReadWord(a.rest);
    var c := ReadStamp(b.rest);
    ReadWordExactly(line, a.value, a.rest);
    ReadWordExactly(a.rest, b.value, b.rest);
    ReadStampThen(b.rest, c.value.session, c.value.timestamp, c.rest);
    AlertEndsExactly(b.value, c.value, c.rest, value);
    assert WordThen(line, "ALERT", a.rest) && WordThen(a.rest, kind, b.rest) && StampThen(b.rest, session, timestamp, c.rest);
  }

  lemma LineIsAlert(line: string, kind: string, session: nat, timestamp: nat, value: int, r: string, r': string, last: string)
    requires WordThen(line, "ALERT", r) && WordThen(r, kind, r') && StampThen(r', session, timestamp, last) && AlertEnds(kind, last, value)
    ensures TryParseAlert(line) == Some(AlertItem(kind, session, timestamp, value))
  {
    ReadWordExactly(line, "ALERT", r);
    ReadWordExactly(r, kind, r');
    ReadStampThen(r', session, timestamp, last);
    AlertEndsExactly(kind, Stamp(session, timestamp), last, value);
  }

  /** And for an alert exactly if it is one of the two kinds with all its fields and nothing more. */
  lemma AlertExactly(line: string, kind: string, session: nat, timestamp: nat, value: int)
    ensures TryParseAlert(line) == Some(AlertItem(kind, session, timestamp, value))
            <==> IsAlertLine(line, kind, session, timestamp, value)
  {
    if TryParseAlert(line) == Some(AlertItem(kind, session, timestamp, value)) {
      AlertIsLine(line, kind, session, timestamp, value);
    }
    if r, r', last :| WordThen(line, "ALERT", r) && WordThen(r, kind, r') && StampThen(r', session, timestamp, last) && AlertEnds(kind, last, value) {
      LineIsAlert(line, kind, session, timestamp, value, r, r', last);
    }
  }

  lemma SomeIsSample(line: string)
    ensures var p := TryParseSample(line); p.Some? ==> p.value.SampleItem?
    ensures var p := TryParseAlert(line); p.Some? ==> p.value.AlertItem?
  {
  }

  /** A line counts as malformed exactly if it is neither. */
  lemma MalformedExactly(line: string)
    ensures Classify(line).Unrecognized?
            <==> (forall m, s, t, v :: !IsSampleLine(line, m, s, t, v)) && (forall k, s, t, v :: !IsAlertLine(line, k, s, t, v))
  {
    SomeIsSample(line);
    var p, q := TryParseSample(line), TryParseAlert(line);
    if p.Some? {
      var x := p.value;
      SampleExactly(line, x.metric, x.session, x.timestamp, x.value);
    } else {
      forall m, s, t, v
        ensures !IsSampleLine(line, m, s, t, v)
      {
        SampleExactly(line, m, s, t, v);
      }
      if q.Some? {
        var x := q.value;
        AlertExactly(line, x.kind, x.session, x.timestamp, x.value);
      } else {
        forall k, s, t, v
          ensures !IsAlertLine(line, k, s, t, v)
        {
          AlertExactly(line, k, s, t, v);
        }
      }
    }
  }
}
