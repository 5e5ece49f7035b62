/** The ring buffer of proto/ring_buffer.hpp, called by one thread at a time. */
module RingBuffer {

  /** `(index + 1) % Capacity`. */
  function Advance(index: nat, capacity: nat): (r: nat)
    requires index < capacity
    ensures r == (index + 1) % capacity
    ensures r == Wrap(index + 1, capacity)
  {
    (index + 1) % capacity
  }

  /** Reduction of an index that is at most one lap ahead. */
  function Wrap(index: nat, capacity: nat): (r: nat)
    requires 0 < capacity && index < 2 * capacity
    ensures r < capacity
  {
    if index < capacity then index else index - capacity
  }

  /** The `n` slots from `head` on. */
  function Window<T>(slots: seq<T>, head: nat, n: nat): (r: seq<T>)
    requires head < |slots| && n <= |slots|
    ensures |r| == n && forall i :: 0 <= i < n ==> r[i] == slots[Wrap(head + i, |slots|)]
  {
    seq(n, i requires 0 <= i < n => slots[Wrap(head + i, |slots|)])
  }

  /** How many elements lie between the two indices: one slot stays empty, so equal indices mean none. */
  function Count(head: nat, tail: nat, capacity: nat): (n: nat)
    requires head < capacity && tail < capacity
    ensures n < capacity && Wrap(head + n, capacity) == tail
    ensures n == 0 <==> head == tail
    ensures n == capacity - 1 <==> Advance(tail, capacity) == head
  {
    if head <= tail then tail - head else tail + capacity - head
  }

  /** `size()` computes the count from the indices. */
  lemma SizeIsCount(head: nat, tail: nat, capacity: nat)
    requires head < capacity && tail < capacity
    ensures (tail + capacity - head) % capacity == Count(head, tail, capacity)
  {
    if head <= tail {
      ModOneLap(tail - head, capacity);
    }
  }

  lemma ModOneLap(a: nat, capacity: nat)
    requires a < capacity
    ensures (a + capacity) % capacity == a
  {
    var q := (a + capacity) / capacity;
    assert q >= 2 ==> (q - 2) * capacity >= 0;
  }

  /** Writing the free slot and advancing the tail appends. */
  lemma WindowAppend<T>(slots: seq<T>, head: nat, n: nat, x: T)
    requires head < |slots| && n < |slots|
    ensures Window(slots[Wrap(head + n, |slots|) := x], head, n + 1) == Window(slots, head, n) + [x]
  {
    var slots' := slots[Wrap(head + n, |slots|) := x];
    assert forall i :: 0 <= i < n ==> Window(slots', head, n + 1)[i] == Window(slots, head, n)[i];
  }

  /** Advancing the head drops the first element. */
  lemma WindowRest<T>(slots: seq<T>, head: nat, n: nat)
    requires head < |slots| && 0 < n <= |slots|
    ensures Window(slots, Advance(head, |slots|), n - 1) == Window(slots, head, n)[1..]
  {
    var w, w' := Window(slots, head, n), Window(slots, Advance(head, |slots|), n - 1);
    forall i | 0 <= i < n - 1
      ensures w'[i] == w[1..][i]
    {
      assert w[1..][i] == w[i + 1];
    }
  }

  class RingBuffer<T(0)> {
    const buffer: array<T>
    var head: nat
    var tail: nat

    ghost predicate Valid()
      reads this
    {
      2 <= buffer.Length && head < buffer.Length && tail < buffer.Length
    }

    ghost function Contents(): (s: seq<T>)
      requires Valid()
      reads this, buffer
      ensures |s| <= buffer.Length - 1
    {
      Window(buffer[..], head, Count(head, tail, buffer.Length))
    }

    constructor (capacity: nat)
      requires 2 <= capacity
      ensures Valid() && fresh(buffer) && buffer.Length == capacity && Contents() == []
    {
      buffer := new T[capacity];
      head, tail := 0, 0;
    }

    method Push(value: T) returns (ok: bool)
      requires Valid()
      modifies this`tail, buffer
      ensures Valid()
      ensures ok == (|old(Contents())| < buffer.Length - 1)
      ensures Contents() == if ok then old(Contents()) + [value] else old(Contents())
    {
      var next := Advance(tail, buffer.Length);
      if next == head {
        return false;
      }
      ghost var n := Count(head, tail, buffer.Length);
      WindowAppend(buffer[..], head, n, value);
      buffer[tail] := value;
      assert buffer[..] == old(buffer[..])[tail := value];
      tail := next;
      assert Count(head, tail, buffer.Length) == n + 1;
      return true;
    }

    method Pop() returns (ok: bool, value: T)
      requires Valid()
      modifies this`head
      ensures Valid()
      ensures ok == (old(Contents()) != [])
      ensures if ok then old(Contents()) == [value] + Contents() else Contents() == old(Contents())
    {
      value := buffer[head];
      if head == tail {
        return false, value;
      }
      ghost var n := Count(head, tail, buffer.Length);
      WindowRest(buffer[..], head, n);
      head := Advance(head, buffer.Length);
      assert Count(head, tail, buffer.Length) == n - 1;
      assert old(Contents())[0] == value;
      return true, value;
    }

    method Size() returns (n: nat)
      requires Valid()
      ensures n == |Contents()|
    {
      SizeIsCount(head, tail, buffer.Length);
      n := (tail + buffer.Length - head) % buffer.Length;
    }

    method Empty() returns (r: bool)
      requires Valid()
      ensures r <==> Contents() == []
    {
      r := head == tail;
    }

    method Full() returns (r: bool)
      requires Valid()
      ensures r <==> |Contents()| == buffer.Length - 1
    {
      r := Advance(tail, buffer.Length) == head;
    }
  }
}
