/** Decimal printing (`std::to_string`) and the stream extractions the text protocol uses. */
module Decimal {

  predicate IsDigit(c: char)
  {
    '0' <= c <= '9'
  }

  predicate IsSpace(c: char)
  {
    c == ' ' || '\t' <= c <= '\r'
  }

  function Digit(n: nat): (c: char)
    requires n < 10
    ensures IsDigit(c)
  {
    '0' + n as char
  }

  function DigitValue(c: char): (n: nat)
    requires IsDigit(c)
    ensures n < 10
  {
    (c - '0') as nat
  }

  predicate AllDigits(s: string)
  {
    forall i :: 0 <= i < |s| ==> IsDigit(s[i])
  }

  function NatText(n: nat): (s: string)
    ensures s != [] && AllDigits(s)
  {
    if n < 10 then [Digit(n)] else NatText(n / 10) + [Digit(n % 10)]
  }

  function IntText(n: int): string
  {
    if n < 0 then "-" + NatText(-n) else NatText(n)
  }

  function Number(s: string): nat
    requires AllDigits(s)
  {
    if s == [] then 0 else 10 * Number(s[..|s| - 1]) + DigitValue(s[|s| - 1])
  }

  lemma {:induction false} NumberOfText(n: nat)
    ensures Number(NatText(n)) == n
  {
    if n >= 10 {
      NumberOfText(n / 10);
      assert NatText(n)[..|NatText(n)| - 1] == NatText(n / 10);
    }
  }

  // ---- Extraction ----

  /** Reading one field from a stream: nothing, or a value and what is left. */
  datatype Read<T> = Fail | Got(value: T, rest: string)

  function SkipSpace(s: string): string
  {
    if s != [] && IsSpace(s[0]) then SkipSpace(s[1..]) else s
  }

  /** The length of the longest prefix of digits. */
  function DigitRun(s: string): (n: nat)
    ensures n <= |s| && AllDigits(s[..n])
  {
    if s != [] && IsDigit(s[0]) then
      var n := DigitRun(s[1..]);
      assert s[..n + 1] == [s[0]] + s[1..][..n];
      n + 1
    else 0
  }

  function WordRun(s: string): (n: nat)
    ensures n <= |s|
  {
    if s != [] && !IsSpace(s[0]) then WordRun(s[1..]) + 1 else 0
  }

  /** `stream >> std::string`. */
  function ReadWord(s: string): Read<string>
  {
    var t := SkipSpace(s);
    if t == [] then Fail else Got(t[..WordRun(t)], t[WordRun(t)..])
  }

  datatype Signed = Signed(negative: bool, magnitude: nat)

  function ReadDigits(s: string): Read<nat>
  {
    var n := DigitRun(s);
    if n == 0 then Fail else Got(Number(s[..n]), s[n..])
  }

  /** An optional sign and the digits behind it. */
  function ReadMagnitude(s: string): Read<Signed>
  {
    var t := SkipSpace(s);
    var negative := t != [] && t[0] == '-';
    match ReadDigits(if t != [] && (t[0] == '-' || t[0] == '+') then t[1..] else t)
    case Fail => Fail
    case Got(n, rest) => Got(Signed(negative, n), rest)
  }

  /** `stream >>` an unsigned integer of the given maximum; a minus sign wraps around. */
  function ReadUnsigned(s: string, max: nat): (r: Read<nat>)
    ensures r.Got? ==> r.value <= max
  {
    match ReadMagnitude(s)
    case Fail => Fail
    case Got(m, rest) =>
      if m.magnitude > max then Fail
      else Got(if m.negative && m.magnitude > 0 then max + 1 - m.magnitude else m.magnitude, rest)
  }

  /** `stream >> std::int32_t`. */
  function ReadInt32(s: string): Read<int>
  {
    match ReadMagnitude(s)
    case Fail => Fail
    case Got(m, rest) =>
      var v := (if m.negative then -1 else 1) * m.magnitude;
      if -0x8000_0000 <= v < 0x8000_0000 then Got(v, rest) else Fail
  }

  // ---- Reading back what was printed ----

  predicate WordEnds(rest: string)
  {
    rest == [] || IsSpace(rest[0])
  }

  predicate IsWord(w: string)
  {
    w != [] && forall i :: 0 <= i < |w| ==> !IsSpace(w[i])
  }

  lemma {:induction false} WordRunIs(w: string, rest: string)
    requires (forall i :: 0 <= i < |w| ==> !IsSpace(w[i])) && WordEnds(rest)
    ensures WordRun(w + rest) == |w|
  {
    if w == [] {
      assert w + rest == rest;
    } else {
      assert (w + rest)[1..] == w[1..] + rest;
      WordRunIs(w[1..], rest);
    }
  }

  lemma {:induction false} DigitRunIs(w: string, rest: string)
    requires AllDigits(w) && (rest == [] || !IsDigit(rest[0]))
    ensures DigitRun(w + rest) == |w|
  {
    if w == [] {
      assert w + rest == rest;
    } else {
      assert (w + rest)[1..] == w[1..] + rest;
      DigitRunIs(w[1..], rest);
    }
  }

  lemma ReadWordBack(w: string, rest: string)
    requires IsWord(w) && WordEnds(rest)
    ensures ReadWord(w + rest) == Got(w, rest) && ReadWord(" " + (w + rest)) == Got(w, rest)
  {
    var s := w + rest;
    assert s[0] == w[0] && SkipSpace(s) == s;
    SkipOneSpace(s);
    WordRunIs(w, rest);
    assert s[..|w|] == w && s[|w|..] == rest;
  }

  lemma ReadDigitsBack(n: nat, rest: string)
    requires WordEnds(rest)
    ensures ReadDigits(NatText(n) + rest) == Got(n, rest)
  {
    var w := NatText(n);
    DigitRunIs(w, rest);
    assert (w + rest)[..|w|] == w && (w + rest)[|w|..] == rest;
    NumberOfText(n);
  }

  lemma SkipOneSpace(s: string)
    requires s != [] && !IsSpace(s[0])
    ensures SkipSpace(" " + s) == s
  {
    assert (" " + s)[1..] == s;
  }

  lemma ReadPlainBack(n: nat, rest: string)
    requires WordEnds(rest)
    ensures ReadMagnitude(" " + (NatText(n) + rest)) == Got(Signed(false, n), rest)
  {
    var s := NatText(n) + rest;
    assert IsDigit(s[0]);
    SkipOneSpace(s);
    ReadDigitsBack(n, rest);
  }

  lemma ReadMinusBack(n: nat, rest: string)
    requires WordEnds(rest)
    ensures ReadMagnitude(" " + ("-" + (NatText(n) + rest))) == Got(Signed(true, n), rest)
  {
    var s := "-" + (NatText(n) + rest);
    SkipOneSpace(s);
    assert s[1..] == NatText(n) + rest;
    ReadDigitsBack(n, rest);
  }

  lemma ReadUnsignedBack(n: nat, max: nat, rest: string)
    requires WordEnds(rest) && n <= max
    ensures ReadUnsigned(" " + (NatText(n) + rest), max) == Got(n, rest)
  {
    ReadPlainBack(n, rest);
  }

  lemma ReadInt32Back(n: int, rest: string)
    requires WordEnds(rest) && -0x8000_0000 <= n < 0x8000_0000
    ensures ReadInt32(" " + (IntText(n) + rest)) == Got(n, rest)
  {
    if n < 0 {
      MinusText(NatText(-n), rest);
      ReadMinusBack(-n, rest);
      Int32Of(" " + ("-" + (NatText(-n) + rest)), true, -n, rest);
    } else {
      ReadPlainBack(n, rest);
      Int32Of(" " + (NatText(n) + rest), false, n, rest);
    }
  }

  lemma MinusText(digits: string, rest: string)
    ensures ("-" + digits) + rest == "-" + (digits + rest)
  {
  }

  lemma Int32Of(s: string, negative: bool, magnitude: nat, rest: string)
    requires ReadMagnitude(s) == Got(Signed(negative, magnitude), rest)
    requires if negative then magnitude <= 0x8000_0000 else magnitude < 0x8000_0000
    ensures ReadInt32(s) == Got(if negative then 0 - magnitude else magnitude, rest)
  {
  }

  /** A field that starts with neither a digit nor a sign is not a number. */
  lemma NotANumber(s: string)
    requires s != [] && !IsSpace(s[0]) && !IsDigit(s[0]) && s[0] != '-' && s[0] != '+'
    ensures ReadMagnitude(" " + s) == Fail
  {
    SkipOneSpace(s);
  }

  lemma TextIsWord(n: nat)
    ensures IsWord(NatText(n))
  {
    assert forall i :: 0 <= i < |NatText(n)| ==> IsDigit(NatText(n)[i]);
  }

  // ---- Which texts are one unsigned number ----

  predicate AllSpace(s: string)
  {
    forall i :: 0 <= i < |s| ==> IsSpace(s[i])
  }

  lemma {:induction false} SkipSpaceOver(before: string, t: string)
    requires AllSpace(before) && (t == "" || !IsSpace(t[0]))
    ensures SkipSpace(before + t) == t
  {
    if before == "" {
      assert before + t == t;
    } else {
      assert (before + t)[1..] == before[1..] + t;
      SkipSpaceOver(before[1..], t);
    }
  }

  /** The white space in front. */
  function Leading(s: string): string
  {
    if s != "" && IsSpace(s[0]) then [s[0]] + Leading(s[1..]) else ""
  }

  lemma {:induction false} SkipSpaceSplits(s: string)
    ensures s == Leading(s) + SkipSpace(s)
    ensures SkipSpace(s) == "" || !IsSpace(SkipSpace(s)[0])
  {
    if s != "" && IsSpace(s[0]) {
      SkipSpaceSplits(s[1..]);
      FrontAndRest(s, Leading(s[1..]), SkipSpace(s[1..]));
    } else {
      assert "" + s == s;
    }
  }

  lemma FrontAndRest(s: string, a: string, b: string)
    requires s != "" && s[1..] == a + b
    ensures s == ([s[0]] + a) + b
  {
    assert s == [s[0]] + s[1..];
  }

  lemma {:induction false} LeadingIsSpace(s: string)
    ensures AllSpace(Leading(s))
  {
    if s != "" && IsSpace(s[0]) {
      LeadingIsSpace(s[1..]);
      SpaceBefore(s[0], Leading(s[1..]));
    }
  }

  lemma SpaceBefore(c: char, t: string)
    requires IsSpace(c) && AllSpace(t)
    ensures AllSpace([c] + t)
  {
    assert forall i :: 0 < i < |[c] + t| ==> ([c] + t)[i] == t[i - 1];
  }

  lemma NothingButSpace(s: string)
    ensures SkipSpace(s) == "" <==> AllSpace(s)
  {
    if AllSpace(s) {
      SkipSpaceOver(s, "");
      assert s + "" == s;
    }
    SkipSpaceSplits(s);
    LeadingIsSpace(s);
    assert Leading(s) + "" == Leading(s);
  }

  /** White space, an optional sign, digits, white space. */
  datatype NumberText = NumberText(before: string, sign: string, digits: string, after: string)

  predicate IsNumberText(s: string, t: NumberText)
  {
    && s == t.before + (t.sign + (t.digits + t.after))
    && AllSpace(t.before) && (t.sign == "" || t.sign == "-" || t.sign == "+")
    && t.digits != "" && AllDigits(t.digits) && AllSpace(t.after)
  }

  /** What it stands for as an unsigned number of the given maximum: a minus sign wraps around. */
  function Unsigned(t: NumberText, max: nat): int
    requires AllDigits(t.digits)
  {
    var n := Number(t.digits);
    if t.sign == "-" && n > 0 then max + 1 - n else n
  }

  predicate IsUnsigned(s: string, max: nat, t: NumberText, k: nat)
  {
    IsNumberText(s, t) && Number(t.digits) <= max && Unsigned(t, max) == k
  }

  ghost predicate StandsFor(s: string, max: nat, k: nat)
  {
    exists t :: IsUnsigned(s, max, t, k)
  }

  lemma ReadDigitsExactly(digits: string, after: string)
    requires digits != "" && AllDigits(digits) && AllSpace(after)
    ensures ReadDigits(digits + after) == Got(Number(digits), after)
  {
    DigitRunIs(digits, after);
    assert (digits + after)[..|digits|] == digits && (digits + after)[|digits|..] == after;
  }

  lemma ReadNumberText(s: string, t: NumberText)
    requires IsNumberText(s, t)
    ensures ReadMagnitude(s) == Got(Signed(t.sign == "-", Number(t.digits)), t.after)
  {
    var body := t.digits + t.after;
    var signed := t.sign + body;
    assert body[0] == t.digits[0];
    assert signed[0] == if t.sign == "" then body[0] else t.sign[0];
    SkipSpaceOver(t.before, signed);
    assert t.sign != "" ==> signed[1..] == body;
    assert t.sign == "" ==> signed == body;
    ReadDigitsExactly(t.digits, t.after);
  }

  /** The sign of a text that starts behind its white space, and what follows it. */
  function SignOf(u: string): string
  {
    if u != "" && (u[0] == '-' || u[0] == '+') then [u[0]] else ""
  }

  function BodyOf(u: string): string
  {
    if u != "" && (u[0] == '-' || u[0] == '+') then u[1..] else u
  }

  lemma SignAndBody(u: string)
    ensures u == SignOf(u) + BodyOf(u)
  {
  }

  lemma DigitsAndRest(body: string, n: nat)
    requires n <= |body|
    ensures body == body[..n] + body[n..]
  {
  }

  lemma MagnitudeIsNumberText(s: string) returns (t: NumberText)
    requires ReadMagnitude(s).Got? && AllSpace(ReadMagnitude(s).rest)
    ensures IsNumberText(s, t)
  {
    var u := SkipSpace(s);
    var body := BodyOf(u);
    var n := DigitRun(body);
    SkipSpaceSplits(s);
    LeadingIsSpace(s);
    SignAndBody(u);
    DigitsAndRest(body, n);
    t := NumberText(Leading(s), SignOf(u), body[..n], body[n..]);
  }

  /** A text reads as the number `k` with nothing behind it exactly if it is one number text for `k`. */
  lemma ReadUnsignedExactly(s: string, max: nat, k: nat)
    ensures var r := ReadUnsigned(s, max);
            r.Got? && SkipSpace(r.rest) == "" && r.value == k <==> StandsFor(s, max, k)
  {
    var r := ReadUnsigned(s, max);
    if r.Got? && SkipSpace(r.rest) == "" && r.value == k {
      NothingButSpace(r.rest);
      var t := MagnitudeIsNumberText(s);
      ReadNumberText(s, t);
      assert IsUnsigned(s, max, t, k);
    }
    if t :| IsUnsigned(s, max, t, k) {
      ReadNumberText(s, t);
      NothingButSpace(t.after);
    }
  }
}
