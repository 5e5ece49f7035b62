/** Cutting a stream at a delimiter, the way both the frame parser and the two line splitters do. */
module Split {
  import opened Sequences

  /** The segments of `s` that a delimiter ends, in order. */
  function Segments<T(==)>(d: T, s: seq<T>): seq<seq<T>>
  {
    if s == [] then []
    else
      var front := s[..|s| - 1];
      if s[|s| - 1] == d then Segments(d, front) + [Tail(d, front)] else Segments(d, front)
  }

  /** What follows the last delimiter. */
  function Tail<T(==)>(d: T, s: seq<T>): seq<T>
  {
    if s == [] || s[|s| - 1] == d then [] else Tail(d, s[..|s| - 1]) + [s[|s| - 1]]
  }

  /** Only the unfinished rest matters for what comes next. */
  lemma {:induction false} SegmentsResume<T>(d: T, a: seq<T>, b: seq<T>)
    ensures Segments(d, a + b) == Segments(d, a) + Segments(d, Tail(d, a) + b)
    ensures Tail(d, a + b) == Tail(d, Tail(d, a) + b)
  {
    var t := Tail(d, a);
    if b == [] {
      assert a + b == a && t + b == t;
      TailIsFree(d, a);
      FreeSegments(d, t);
    } else {
      var front := b[..|b| - 1];
      assert (a + b)[..|a + b| - 1] == a + front && (t + b)[..|t + b| - 1] == t + front;
      SegmentsResume(d, a, front);
    }
  }

  lemma SegmentsConcat<T>(d: T, a: seq<T>, b: seq<T>)
    requires Tail(d, a) == []
    ensures Segments(d, a + b) == Segments(d, a) + Segments(d, b) && Tail(d, a + b) == Tail(d, b)
  {
    SegmentsResume(d, a, b);
    assert [] + b == b;
  }

  lemma {:induction false} TailIsFree<T>(d: T, s: seq<T>)
    ensures d !in Tail(d, s)
  {
    if s != [] {
      TailIsFree(d, s[..|s| - 1]);
    }
  }

  lemma {:induction false} FreeSegments<T>(d: T, s: seq<T>)
    requires d !in s
    ensures Segments(d, s) == [] && Tail(d, s) == s
  {
    if s != [] {
      FreeSegments(d, s[..|s| - 1]);
    }
  }

  lemma OneSegment<T>(d: T, s: seq<T>)
    requires d !in s
    ensures Segments(d, s + [d]) == [s] && Tail(d, s + [d]) == []
  {
    FreeSegments(d, s);
    assert (s + [d])[..|s|] == s;
  }

  /** Segments put on the wire, each with a delimiter behind it. */
  function Wire<T(==)>(d: T, segments: seq<seq<T>>): seq<T>
  {
    if segments == [] then [] else Wire(d, segments[..|segments| - 1]) + (segments[|segments| - 1] + [d])
  }

  lemma {:induction false} WireConcat<T>(d: T, a: seq<seq<T>>, b: seq<seq<T>>)
    ensures Wire(d, a + b) == Wire(d, a) + Wire(d, b)
  {
    if b == [] {
      assert a + b == a;
    } else {
      assert (a + b)[..|a + b| - 1] == a + b[..|b| - 1];
      WireConcat(d, a, b[..|b| - 1]);
    }
  }

  lemma WireOne<T>(d: T, segment: seq<T>)
    ensures Wire(d, [segment]) == segment + [d]
  {
    assert [segment][..0] == [];
  }

  lemma WireAppend<T>(d: T, segments: seq<seq<T>>, last: seq<T>)
    ensures Wire(d, segments + [last]) == Wire(d, segments) + (last + [d])
  {
    assert (segments + [last])[..|segments|] == segments;
  }

  lemma WireEmpty<T>(d: T, segments: seq<seq<T>>)
    ensures |Wire(d, segments)| == 0 <==> |segments| == 0
  {
  }

  lemma OneMoreSegment<T>(d: T, s: seq<T>, segments: seq<seq<T>>, last: seq<T>)
    requires Segments(d, s) == segments && Tail(d, s) == [] && d !in last
    ensures Segments(d, s + (last + [d])) == segments + [last] && Tail(d, s + (last + [d])) == []
  {
    OneSegment(d, last);
    SegmentsConcat(d, s, last + [d]);
  }

  /** Splitting undoes it, when no segment contains the delimiter. */
  lemma {:induction false} SegmentsOfWire<T>(d: T, segments: seq<seq<T>>)
    requires forall i :: 0 <= i < |segments| ==> d !in segments[i]
    ensures Segments(d, Wire(d, segments)) == segments && Tail(d, Wire(d, segments)) == []
  {
    if segments != [] {
      var front, last := segments[..|segments| - 1], segments[|segments| - 1];
      SegmentsOfWire(d, front);
      OneMoreSegment(d, Wire(d, front), front, last);
      assert segments == front + [last];
    }
  }

  /** Chunks put back together. */
  function Joined<T>(chunks: seq<seq<T>>): seq<T>
  {
    if chunks == [] then [] else Joined(chunks[..|chunks| - 1]) + chunks[|chunks| - 1]
  }

  function Map<A, B>(f: A -> B, s: seq<A>): (r: seq<B>)
    ensures |r| == |s| && forall i :: 0 <= i < |s| ==> r[i] == f(s[i])
  {
    seq(|s|, i requires 0 <= i < |s| => f(s[i]))
  }

  lemma MapConcat<A, B>(f: A -> B, a: seq<A>, b: seq<A>)
    ensures Map(f, a + b) == Map(f, a) + Map(f, b)
  {
  }

  /** Splitting and mapping a stream in two goes, the unfinished rest carried over, is one go. */
  lemma MapResume<T, B>(d: T, f: seq<T> -> B, a: seq<T>, b: seq<T>)
    ensures Map(f, Segments(d, a + b)) == Map(f, Segments(d, a)) + Map(f, Segments(d, Tail(d, a) + b))
  {
    SegmentsResume(d, a, b);
    MapConcat(f, Segments(d, a), Segments(d, Tail(d, a) + b));
  }

  // ---- Splitting as the bytes arrive ----

  /** A splitter between two chunks: the unfinished rest, and what came of the segments so far. */
  datatype Scan<T, B> = Scan(rest: seq<T>, out: seq<B>)

  function ScanMore<T(==), B>(d: T, f: seq<T> -> B, s: Scan<T, B>, chunk: seq<T>): Scan<T, B>
  {
    Scan(Tail(d, s.rest + chunk), s.out + Map(f, Segments(d, s.rest + chunk)))
  }

  function ScanAll<T(==), B>(d: T, f: seq<T> -> B, s: Scan<T, B>, chunks: seq<seq<T>>): Scan<T, B>
  {
    if chunks == [] then s else ScanMore(d, f, ScanAll(d, f, s, chunks[..|chunks| - 1]), chunks[|chunks| - 1])
  }

  lemma ScanTwice<T, B>(d: T, f: seq<T> -> B, s: Scan<T, B>, a: seq<T>, b: seq<T>)
    ensures ScanMore(d, f, ScanMore(d, f, s, a), b) == ScanMore(d, f, s, a + b)
  {
    var first := s.rest + a;
    Assoc(s.rest, a, b);
    SegmentsResume(d, first, b);
    MapResume(d, f, first, b);
    Assoc(s.out, Map(f, Segments(d, first)), Map(f, Segments(d, Tail(d, first) + b)));
  }

  /** How the stream is grouped into chunks makes no difference. */
  lemma {:induction false} ChunksDoNotMatter<T, B>(d: T, f: seq<T> -> B, chunks: seq<seq<T>>)
    ensures ScanAll(d, f, Scan([], []), chunks) == ScanMore(d, f, Scan([], []), Joined(chunks))
  {
    if chunks != [] {
      var front, last := chunks[..|chunks| - 1], chunks[|chunks| - 1];
      ChunksDoNotMatter(d, f, front);
      ScanTwice(d, f, Scan([], []), Joined(front), last);
    }
  }

  /** Whole segments on the wire, then the beginning of another: the segments are read and the rest waits. */
  lemma WireScanned<T, B>(d: T, f: seq<T> -> B, segments: seq<seq<T>>, partial: seq<T>)
    requires (forall i :: 0 <= i < |segments| ==> d !in segments[i]) && d !in partial
    ensures ScanMore(d, f, Scan([], []), Wire(d, segments) + partial) == Scan(partial, Map(f, segments))
  {
    var s := Wire(d, segments);
    SegmentsOfWire(d, segments);
    SegmentsConcat(d, s, partial);
    FreeSegments(d, partial);
    assert [] + (s + partial) == s + partial;
  }
}
