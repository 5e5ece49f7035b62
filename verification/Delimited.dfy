/** Byte streams cut at 0x00, and what damage to one byte can do to them. Nothing here depends on
    what a segment means: `outcome` says what each terminated segment contributes. */
module Delimited {
  import opened Bits
  import opened Cobs
  import opened Sequences
  import opened Split

  type Outcomes<T> = seq<byte> -> seq<T>

  const DELIMITER: byte := 0

  function Delivered<T>(outcome: Outcomes<T>, segments: seq<seq<byte>>): seq<T>
  {
    if segments == [] then []
    else Delivered(outcome, segments[..|segments| - 1]) + outcome(segments[|segments| - 1])
  }

  function NonEmptyCount(segments: seq<seq<byte>>): nat
  {
    if segments == [] then 0
    else NonEmptyCount(segments[..|segments| - 1]) + if segments[|segments| - 1] == [] then 0 else 1
  }

  /** What a stream delivers from a boundary. */
  function Received<T>(outcome: Outcomes<T>, s: seq<byte>): seq<T>
  {
    Delivered(outcome, Segments(DELIMITER, s))
  }

  // ---- Concatenation ----

  lemma {:induction false} DeliveredConcat<T>(outcome: Outcomes<T>, a: seq<seq<byte>>, b: seq<seq<byte>>)
    ensures Delivered(outcome, a + b) == Delivered(outcome, a) + Delivered(outcome, b)
    ensures NonEmptyCount(a + b) == NonEmptyCount(a) + NonEmptyCount(b)
  {
    if b == [] {
      assert a + b == a;
    } else {
      assert (a + b)[..|a + b| - 1] == a + b[..|b| - 1];
      DeliveredConcat(outcome, a, b[..|b| - 1]);
    }
  }

  lemma DeliveredOne<T>(outcome: Outcomes<T>, segment: seq<byte>)
    ensures Delivered(outcome, [segment]) == outcome(segment)
    ensures NonEmptyCount([segment]) == if segment == [] then 0 else 1
  {
    assert [segment][..0] == [];
  }

  lemma ReceivedConcat<T>(outcome: Outcomes<T>, a: seq<byte>, b: seq<byte>)
    requires Tail(DELIMITER, a) == []
    ensures Received(outcome, a + b) == Received(outcome, a) + Received(outcome, b)
  {
    SegmentsConcat(DELIMITER, a, b);
    DeliveredConcat(outcome, Segments(DELIMITER, a), Segments(DELIMITER, b));
  }

  // ---- Streams of bodies ----

  /** Each body, alone, delivers the item of the same index. */
  predicate Carries<T(==)>(outcome: Outcomes<T>, bodies: seq<seq<byte>>, items: seq<T>)
  {
    && |bodies| == |items|
    && (forall i :: 0 <= i < |bodies| ==> bodies[i] != [] && NoZero(bodies[i]) && outcome(bodies[i]) == [items[i]])
  }

  lemma {:induction false} WireReceived<T>(outcome: Outcomes<T>, bodies: seq<seq<byte>>, items: seq<T>)
    requires Carries(outcome, bodies, items)
    ensures Tail(DELIMITER, Wire(DELIMITER, bodies)) == [] && Received(outcome, Wire(DELIMITER, bodies)) == items
    ensures NonEmptyCount(Segments(DELIMITER, Wire(DELIMITER, bodies))) == |items|
  {
    if bodies != [] {
      var n := |bodies| - 1;
      var front, body := bodies[..n], bodies[n];
      WireReceived(outcome, front, items[..n]);
      OneSegment(DELIMITER, body);
      SegmentsConcat(DELIMITER, Wire(DELIMITER, front), body + [0]);
      DeliveredConcat(outcome, Segments(DELIMITER, Wire(DELIMITER, front)), [body]);
      DeliveredOne(outcome, body);
      assert items == items[..n] + [items[n]];
    }
  }

  // ---- Damage ----

  /** Replacing one body by arbitrary bytes leaves every other item delivered, in order. */
  lemma BodyDamageIsConfined<T>(outcome: Outcomes<T>, a: seq<seq<byte>>, before: seq<T>, body: seq<byte>,
                                c: seq<seq<byte>>, after: seq<T>)
    requires Carries(outcome, a, before) && Carries(outcome, c, after)
    ensures Received(outcome, Wire(DELIMITER, a) + (body + [0]) + Wire(DELIMITER, c)) == before + Received(outcome, body + [0]) + after
  {
    WireReceived(outcome, a, before);
    WireReceived(outcome, c, after);
    ReceivedConcat(outcome, Wire(DELIMITER, a), body + [0]);
    SegmentsConcat(DELIMITER, Wire(DELIMITER, a), body + [0]);
    ReceivedConcat(outcome, Wire(DELIMITER, a) + (body + [0]), Wire(DELIMITER, c));
  }

  /** The stream with the byte at `i` deleted, or replaced by another. */
  datatype Fault = Deleted | Changed(to: byte)

  function Patch(fault: Fault): seq<byte>
  {
    match fault case Deleted => [] case Changed(c) => [c]
  }

  function Damaged(s: seq<byte>, i: nat, fault: Fault): seq<byte>
    requires i < |s|
  {
    s[..i] + Patch(fault) + s[i + 1..]
  }

  /** What arrived is what was sent, except that anything may stand in the place of item `k`. */
  predicate KeepsAllBut<T(==)>(sent: seq<T>, got: seq<T>, k: nat)
    requires k < |sent|
  {
    var after := |sent| - k - 1;
    |got| >= k + after && got[..k] == sent[..k] && got[|got| - after..] == sent[k + 1..]
  }

  /** All items but at most one arrive, in order. */
  predicate LosesAtMostOne<T(==)>(sent: seq<T>, got: seq<T>)
  {
    exists k :: 0 <= k < |sent| && KeepsAllBut(sent, got, k)
  }

  lemma ReplacedItem<T>(sent: seq<T>, got: seq<T>, k: nat, x: seq<T>)
    requires k < |sent| && got == sent[..k] + x + sent[k + 1..]
    ensures LosesAtMostOne(sent, got)
  {
    assert KeepsAllBut(sent, got, k);
  }

  /** Neighbouring bodies that run together, with or without a byte in the delimiter's place, deliver nothing. */
  ghost predicate MergesAreDropped<T>(outcome: Outcomes<T>, bodies: seq<seq<byte>>)
  {
    forall k, mid :: 0 <= k && k + 1 < |bodies| && NoZero(mid) ==> outcome(bodies[k] + (mid + bodies[k + 1])) == []
  }

  /** The stream around body `k`. */
  predicate SplitsAt(bodies: seq<seq<byte>>, k: nat)
    requires k < |bodies|
  {
    Wire(DELIMITER, bodies) == Wire(DELIMITER, bodies[..k]) + (bodies[k] + [0]) + Wire(DELIMITER, bodies[k + 1..])
  }

  /** The same body, one more behind it. */
  lemma SplitsBefore(front: seq<seq<byte>>, last: seq<byte>, k: nat)
    requires k < |front| && SplitsAt(front, k)
    ensures SplitsAt(front + [last], k)
  {
    var bodies := front + [last];
    assert bodies[..k] == front[..k] && bodies[k] == front[k] && bodies[k + 1..] == front[k + 1..] + [last];
    WireConcat(DELIMITER, front[k + 1..], [last]);
    WireConcat(DELIMITER, front, [last]);
    Assoc(Wire(DELIMITER, front[..k]) + (front[k] + [0]), Wire(DELIMITER, front[k + 1..]), Wire(DELIMITER, [last]));
  }

  /** The body a stream position belongs to. */
  lemma {:induction false} Locate(bodies: seq<seq<byte>>, i: nat) returns (k: nat, j: nat)
    requires i < |Wire(DELIMITER, bodies)|
    ensures k < |bodies| && j <= |bodies[k]| && i == |Wire(DELIMITER, bodies[..k])| + j && SplitsAt(bodies, k)
  {
    var n := |bodies| - 1;
    var front := bodies[..n];
    if i >= |Wire(DELIMITER, front)| {
      k, j := n, i - |Wire(DELIMITER, front)|;
      assert bodies[n + 1..] == [];
    } else {
      k, j := Locate(front, i);
      SplitLast(bodies);
      SplitsBefore(front, bodies[n], k);
      assert front[..k] == bodies[..k];
    }
  }

  lemma CarriesParts<T>(outcome: Outcomes<T>, bodies: seq<seq<byte>>, items: seq<T>, k: nat)
    requires Carries(outcome, bodies, items) && k <= |items|
    ensures Carries(outcome, bodies[..k], items[..k]) && Carries(outcome, bodies[k..], items[k..])
  {
  }

  lemma DamagedAt(a: seq<byte>, b: seq<byte>, c: seq<byte>, j: nat, fault: Fault)
    requires j < |b|
    ensures Damaged(a + b + c, |a| + j, fault) == a + Damaged(b, j, fault) + c
  {
    assert (a + b + c)[..|a| + j] == a + b[..j];
    assert (a + b + c)[|a| + j + 1..] == b[j + 1..] + c;
  }

  lemma DamagedBody(body: seq<byte>, j: nat, fault: Fault)
    requires j < |body|
    ensures Damaged(body + [0], j, fault) == Damaged(body, j, fault) + [0]
  {
    assert (body + [0])[..j] == body[..j];
    assert (body + [0])[j + 1..] == body[j + 1..] + [0];
  }

  /** Damage inside the body of item `k`. */
  lemma BodyByteCost<T>(outcome: Outcomes<T>, bodies: seq<seq<byte>>, items: seq<T>, k: nat, body: seq<byte>, t: seq<byte>)
    requires Carries(outcome, bodies, items) && k < |items|
    requires t == Wire(DELIMITER, bodies[..k]) + (body + [0]) + Wire(DELIMITER, bodies[k + 1..])
    ensures LosesAtMostOne(items, Received(outcome, t))
  {
    CarriesParts(outcome, bodies, items, k);
    CarriesParts(outcome, bodies, items, k + 1);
    BodyDamageIsConfined(outcome, bodies[..k], items[..k], body, bodies[k + 1..], items[k + 1..]);
    ReplacedItem(items, Received(outcome, t), k, Received(outcome, body + [0]));
  }

  /** Damage to the last delimiter leaves its item pending. */
  lemma LastDelimiterCost<T>(outcome: Outcomes<T>, bodies: seq<seq<byte>>, items: seq<T>, patch: seq<byte>)
    requires Carries(outcome, bodies, items) && items != [] && NoZero(patch)
    ensures var n := |items| - 1;
            Received(outcome, Wire(DELIMITER, bodies[..n]) + (bodies[n] + patch)) == items[..n]
  {
    var n := |items| - 1;
    CarriesParts(outcome, bodies, items, n);
    WireReceived(outcome, bodies[..n], items[..n]);
    FreeSegments(DELIMITER, bodies[n] + patch);
    ReceivedConcat(outcome, Wire(DELIMITER, bodies[..n]), bodies[n] + patch);
  }

  lemma MergedWire(bodies: seq<seq<byte>>, k: nat, patch: seq<byte>)
    requires k + 1 < |bodies|
    ensures Wire(DELIMITER, bodies[..k]) + (bodies[k] + patch) + Wire(DELIMITER, bodies[k + 1..])
            == Wire(DELIMITER, bodies[..k]) + (bodies[k] + (patch + bodies[k + 1]) + [0]) + Wire(DELIMITER, bodies[k + 2..])
  {
    assert bodies[k + 1..] == [bodies[k + 1]] + bodies[k + 2..];
    WireConcat(DELIMITER, [bodies[k + 1]], bodies[k + 2..]);
    WireOne(DELIMITER, bodies[k + 1]);
  }

  /** Damage to any other delimiter costs exactly the two items it separated. */
  lemma InnerDelimiterCost<T>(outcome: Outcomes<T>, bodies: seq<seq<byte>>, items: seq<T>, k: nat, patch: seq<byte>)
    requires Carries(outcome, bodies, items) && MergesAreDropped(outcome, bodies)
    requires k + 1 < |items| && NoZero(patch)
    ensures Received(outcome, Wire(DELIMITER, bodies[..k]) + (bodies[k] + patch) + Wire(DELIMITER, bodies[k + 1..])) == items[..k] + items[k + 2..]
  {
    MergedWire(bodies, k, patch);
    var merged := bodies[k] + (patch + bodies[k + 1]);
    CarriesParts(outcome, bodies, items, k);
    CarriesParts(outcome, bodies, items, k + 2);
    BodyDamageIsConfined(outcome, bodies[..k], items[..k], merged, bodies[k + 2..], items[k + 2..]);
    assert NoZero(bodies[k]) && NoZero(bodies[k + 1]);
    OneSegment(DELIMITER, merged);
    DeliveredOne(outcome, merged);
    assert items[..k] + [] == items[..k];
  }

  lemma DelimiterByteCost<T>(outcome: Outcomes<T>, bodies: seq<seq<byte>>, items: seq<T>, k: nat, patch: seq<byte>, t: seq<byte>)
    requires Carries(outcome, bodies, items) && MergesAreDropped(outcome, bodies)
    requires k < |items| && NoZero(patch)
    requires t == Wire(DELIMITER, bodies[..k]) + (bodies[k] + patch) + Wire(DELIMITER, bodies[k + 1..])
    ensures LosesAtMostOne(items, Received(outcome, t)) <==> k + 1 == |items|
  {
    if k + 1 == |items| {
      LastDelimiterCost(outcome, bodies, items, patch);
      assert bodies[k + 1..] == [];
      var a := Wire(DELIMITER, bodies[..k]) + (bodies[k] + patch);
      assert a + Wire(DELIMITER, []) == a;
      assert items[..k] == items[..k] + [] + items[k + 1..];
      ReplacedItem(items, items[..k], k, []);
    } else {
      InnerDelimiterCost(outcome, bodies, items, k, patch);
    }
  }

  lemma BodyDamage(bodies: seq<seq<byte>>, k: nat, j: nat, fault: Fault)
    requires k < |bodies| && SplitsAt(bodies, k) && j < |bodies[k]|
    ensures Damaged(Wire(DELIMITER, bodies), |Wire(DELIMITER, bodies[..k])| + j, fault)
            == Wire(DELIMITER, bodies[..k]) + (Damaged(bodies[k], j, fault) + [0]) + Wire(DELIMITER, bodies[k + 1..])
  {
    DamagedAt(Wire(DELIMITER, bodies[..k]), bodies[k] + [0], Wire(DELIMITER, bodies[k + 1..]), j, fault);
    DamagedBody(bodies[k], j, fault);
  }

  lemma DelimiterDamage(bodies: seq<seq<byte>>, k: nat, fault: Fault)
    requires k < |bodies| && SplitsAt(bodies, k)
    ensures Damaged(Wire(DELIMITER, bodies), |Wire(DELIMITER, bodies[..k])| + |bodies[k]|, fault)
            == Wire(DELIMITER, bodies[..k]) + (bodies[k] + Patch(fault)) + Wire(DELIMITER, bodies[k + 1..])
  {
    DamagedAt(Wire(DELIMITER, bodies[..k]), bodies[k] + [0], Wire(DELIMITER, bodies[k + 1..]), |bodies[k]|, fault);
    DamagedDelimiter(bodies[k], fault);
  }

  lemma CostInBody<T>(outcome: Outcomes<T>, bodies: seq<seq<byte>>, items: seq<T>, k: nat, j: nat, fault: Fault, t: seq<byte>)
    requires Carries(outcome, bodies, items) && k < |items| && SplitsAt(bodies, k) && j < |bodies[k]|
    requires t == Damaged(Wire(DELIMITER, bodies), |Wire(DELIMITER, bodies[..k])| + j, fault)
    ensures LosesAtMostOne(items, Received(outcome, t))
  {
    BodyDamage(bodies, k, j, fault);
    BodyByteCost(outcome, bodies, items, k, Damaged(bodies[k], j, fault), t);
  }

  lemma CostAtDelimiter<T>(outcome: Outcomes<T>, bodies: seq<seq<byte>>, items: seq<T>, k: nat, fault: Fault, t: seq<byte>)
    requires Carries(outcome, bodies, items) && MergesAreDropped(outcome, bodies)
    requires k < |items| && SplitsAt(bodies, k) && fault != Changed(0)
    requires t == Damaged(Wire(DELIMITER, bodies), |Wire(DELIMITER, bodies[..k])| + |bodies[k]|, fault)
    ensures LosesAtMostOne(items, Received(outcome, t)) <==> k + 1 == |items|
  {
    DelimiterDamage(bodies, k, fault);
    DelimiterByteCost(outcome, bodies, items, k, Patch(fault), t);
  }

  lemma ByteAt(bodies: seq<seq<byte>>, k: nat, j: nat)
    requires k < |bodies| && SplitsAt(bodies, k) && j <= |bodies[k]| && NoZero(bodies[k])
    ensures var s, i := Wire(DELIMITER, bodies), |Wire(DELIMITER, bodies[..k])| + j;
            && i < |s| && (s[i] == 0 <==> j == |bodies[k]|)
            && (i == |s| - 1 <==> j == |bodies[k]| && k + 1 == |bodies|)
  {
    PositionInPart(Wire(DELIMITER, bodies[..k]), bodies[k], Wire(DELIMITER, bodies[k + 1..]), j);
    WireEmpty(DELIMITER, bodies[k + 1..]);
  }

  /** One lost or corrupted byte costs at most one item exactly when that byte is not a delimiter
      with an item behind it. */
  lemma OneByteCost<T>(outcome: Outcomes<T>, bodies: seq<seq<byte>>, items: seq<T>, i: nat, fault: Fault, t: seq<byte>)
    requires Carries(outcome, bodies, items) && MergesAreDropped(outcome, bodies)
    requires i < |Wire(DELIMITER, bodies)| && fault != Changed(Wire(DELIMITER, bodies)[i])
    requires t == Damaged(Wire(DELIMITER, bodies), i, fault)
    ensures var s := Wire(DELIMITER, bodies);
            LosesAtMostOne(items, Received(outcome, t)) <==> s[i] != 0 || i == |s| - 1
  {
    var k, j := Locate(bodies, i);
    ByteAt(bodies, k, j);
    if j < |bodies[k]| {
      CostInBody(outcome, bodies, items, k, j, fault, t);
    } else {
      CostAtDelimiter(outcome, bodies, items, k, fault, t);
    }
  }

  lemma PositionInPart(a: seq<byte>, body: seq<byte>, c: seq<byte>, j: nat)
    requires j <= |body|
    ensures var s := a + (body + [0]) + c;
            && s[|a| + j] == (if j < |body| then body[j] else 0)
            && (|a| + j == |s| - 1 <==> j == |body| && |c| == 0)
  {
  }

  lemma DamagedDelimiter(body: seq<byte>, fault: Fault)
    ensures Damaged(body + [0], |body|, fault) == body + Patch(fault)
  {
    assert (body + [0])[..|body|] == body && (body + [0])[|body| + 1..] == [];
  }
}
