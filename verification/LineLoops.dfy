/** The two scanning loops of the line protocol: the client's `handle_incoming` and the subscriber's
    `on_readable`. */
module LineLoops {
  import opened Split
  import opened StoreModel
  import opened TextProtocol
  import opened TextStream

  /** The bytes of the current line, with a carriage return before the newline left out. */
  function LineEnd(bytes: string, start: nat, i: nat): (end: nat)
    requires start <= i <= |bytes|
    ensures start <= end <= i && bytes[start..end] == Strip(bytes[start..i])
  {
    if i > start && bytes[i - 1] == '\r' then i - 1 else i
  }

  /** One step of either loop. */
  lemma ScanStep(bytes: string, start: nat, i: nat)
    requires start <= i < |bytes| && Tail(NEWLINE, bytes[..i]) == bytes[start..i]
    ensures if bytes[i] == NEWLINE
            then Segments(NEWLINE, bytes[..i + 1]) == Segments(NEWLINE, bytes[..i]) + [bytes[start..i]]
                 && Tail(NEWLINE, bytes[..i + 1]) == ""
            else Segments(NEWLINE, bytes[..i + 1]) == Segments(NEWLINE, bytes[..i])
                 && Tail(NEWLINE, bytes[..i + 1]) == bytes[start..i + 1]
  {
    assert bytes[..i + 1][..i] == bytes[..i];
    assert bytes[start..i] + [bytes[i]] == bytes[start..i + 1];
  }

  class LineClient {
    var buffer: string
    var items: seq<Item>
    var validCount: nat
    var alertCount: nat
    var malformedCount: nat

    ghost predicate Valid()
      reads this
    {
      validCount == CountSamples(items) && alertCount == CountAlerts(items) && malformedCount == CountUnrecognized(items)
    }

    constructor ()
      ensures Valid() && buffer == "" && items == []
    {
      buffer, items, validCount, alertCount, malformedCount := "", [], 0, 0, 0;
    }

    /** What the loop does with one complete line. */
    method Take(item: Item)
      requires Valid()
      modifies this`items, this`validCount, this`alertCount, this`malformedCount
      ensures Valid() && items == old(items) + [item]
    {
      items := items + [item];
      assert items[..|items| - 1] == old(items);
      if item.SampleItem? {
        validCount := validCount + 1;
      } else if item.AlertItem? {
        alertCount := alertCount + 1;
      } else {
        malformedCount := malformedCount + 1;
      }
    }

    /** Scans the buffer, parses every complete line, and erases what it consumed. */
    method ScanBuffer(parse: string -> Item)
      requires Valid()
      modifies this
      ensures Valid()
      ensures buffer == Tail(NEWLINE, old(buffer))
      ensures items == old(items) + Map(Stripped(parse), Segments(NEWLINE, old(buffer)))
    {
      var lineStart := 0;
      ghost var lines: seq<string> := [];
      var bytes := buffer;
      for i := 0 to |bytes|
        invariant Valid() && lineStart <= i && buffer == bytes
        invariant Segments(NEWLINE, bytes[..i]) == lines && Tail(NEWLINE, bytes[..i]) == bytes[lineStart..i]
        invariant items == old(items) + Map(Stripped(parse), lines)
      {
        ScanStep(bytes, lineStart, i);
        if bytes[i] == NEWLINE {
          Take(parse(bytes[lineStart..LineEnd(bytes, lineStart, i)]));
          MapConcat(Stripped(parse), lines, [bytes[lineStart..i]]);
          lines := lines + [bytes[lineStart..i]];
          lineStart := i + 1;
        }
      }
      assert bytes[..|bytes|] == bytes;
      buffer := bytes[lineStart..];
    }

    /** A chunk is appended to the buffer and `handle_incoming` runs. */
    method HandleIncoming(chunk: string)
      requires Valid()
      modifies this
      ensures Valid() && Scan(buffer, items) == ScanMore(NEWLINE, Reader(), old(Scan(buffer, items)), chunk)
    {
      buffer := buffer + chunk;
      ScanBuffer(line => Classify(line));
    }
  }

  type Command = (Sub, string, AckResult) -> Sub

  /** Commands in the order they were split off; `acks` says what the store answers to each. */
  function HandleLines(handle: Command, s: Sub, lines: seq<string>, acks: int -> AckResult): Sub
  {
    if lines == [] then s
    else
      var n := |lines| - 1;
      handle(HandleLines(handle, s, lines[..n], acks), Strip(lines[n]), acks(n))
  }

  class SubscriberConnection {
    var readBuffer: string
    var sub: Sub

    constructor ()
      ensures readBuffer == "" && sub == NEW_SUB
    {
      readBuffer, sub := "", NEW_SUB;
    }

    method ScanBuffer(handle: Command, acks: int -> AckResult)
      modifies this
      ensures readBuffer == Tail(NEWLINE, old(readBuffer))
      ensures sub == HandleLines(handle, old(sub), Segments(NEWLINE, old(readBuffer)), acks)
    {
      var lineStart, count := 0, 0;
      var bytes := readBuffer;
      ghost var lines: seq<string> := [];
      for i := 0 to |bytes|
        invariant lineStart <= i && readBuffer == bytes && count == |lines|
        invariant Segments(NEWLINE, bytes[..i]) == lines && Tail(NEWLINE, bytes[..i]) == bytes[lineStart..i]
        invariant sub == HandleLines(handle, old(sub), lines, acks)
      {
        ScanStep(bytes, lineStart, i);
        if bytes[i] == NEWLINE {
          sub := handle(sub, bytes[lineStart..LineEnd(bytes, lineStart, i)], acks(count));
          HandleOneMore(handle, old(sub), lines, bytes[lineStart..i], acks);
          lines := lines + [bytes[lineStart..i]];
          count := count + 1;
          lineStart := i + 1;
        }
      }
      assert bytes[..|bytes|] == bytes;
      readBuffer := bytes[lineStart..];
    }

    /** `on_readable`: every complete line is executed as a command, the rest stays buffered. */
    method OnReadable(acks: int -> AckResult)
      modifies this
      ensures readBuffer == Tail(NEWLINE, old(readBuffer))
      ensures sub == HandleLines((s, line, ack) => HandleLine(s, line, ack), old(sub),
                                 Segments(NEWLINE, old(readBuffer)), acks)
    {
      ScanBuffer((s, line, ack) => HandleLine(s, line, ack), acks);
    }
  }

  lemma HandleOneMore(handle: Command, s: Sub, lines: seq<string>, raw: string, acks: int -> AckResult)
    ensures HandleLines(handle, s, lines + [raw], acks)
            == handle(HandleLines(handle, s, lines, acks), Strip(raw), acks(|lines|))
  {
    assert (lines + [raw])[..|lines|] == lines;
  }
}
