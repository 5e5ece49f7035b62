/** The ring buffer of proto/ring_buffer.hpp with its producer and consumer running concurrently:
    every index load, slot access and index store is a step of its own, and a slot holds an arbitrary
    value while it is being written. The acquire/release pairs make a sequentially consistent
    interleaving of these steps adequate. */
module SpscRing {
  import opened Modular
  import opened RingBuffer
  import opened Sequences

  /** Where the producer stands inside `push(value)`. */
  datatype Producer<T> =
    | PIdle
    | PLoaded(value: T, tail: nat)   // own index read, head not yet
    | PCleared(value: T, tail: nat)  // not full
    | PWriting(value: T, tail: nat)  // slot write under way
    | PWritten(value: T, tail: nat)  // slot written, index not yet stored

  /** Where the consumer stands inside `pop(out)`. */
  datatype Consumer<T> =
    | CIdle
    | CLoaded(head: nat)          // own index read, tail not yet
    | CCleared(head: nat)         // not empty
    | CReading(head: nat)         // slot read under way
    | CHolding(head: nat, out: T) // slot copied, index not yet stored

  /** Shared memory, both threads, and the values that went through, in order. */
  datatype State<T> = State(slots: seq<T>, head: nat, tail: nat, producer: Producer<T>, consumer: Consumer<T>,
                            pushed: seq<T>, popped: seq<T>)

  datatype Step<T> =
    | LoadTail(value: T) | CheckFull | BeginWrite(torn: T) | EndWrite | StoreTail
    | LoadHead | CheckEmpty | BeginRead | EndRead | StoreHead

  predicate Shape<T>(s: State<T>)
  {
    2 <= |s.slots| && s.head < |s.slots| && s.tail < |s.slots|
  }

  predicate Enabled<T>(s: State<T>, step: Step<T>)
  {
    match step
    case LoadTail(_) => s.producer.PIdle?
    case CheckFull => s.producer.PLoaded? && s.producer.tail < |s.slots|
    case BeginWrite(_) => s.producer.PCleared? && s.producer.tail < |s.slots|
    case EndWrite => s.producer.PWriting? && s.producer.tail < |s.slots|
    case StoreTail => s.producer.PWritten? && s.producer.tail < |s.slots|
    case LoadHead => s.consumer.CIdle?
    case CheckEmpty => s.consumer.CLoaded?
    case BeginRead => s.consumer.CCleared?
    case EndRead => s.consumer.CReading? && s.consumer.head < |s.slots|
    case StoreHead => s.consumer.CHolding? && s.consumer.head < |s.slots|
  }

  /** One step of either thread; a step that is not the thread's next one does nothing. */
  function Do<T>(s: State<T>, step: Step<T>): State<T>
  {
    if !Enabled(s, step) then s
    else
      var p, c, n := s.producer, s.consumer, |s.slots|;
      match step
      case LoadTail(v) => s.(producer := PLoaded(v, s.tail))
      case CheckFull =>
        s.(producer := if Advance(p.tail, n) == s.head then PIdle else PCleared(p.value, p.tail))
      case BeginWrite(torn) => s.(slots := s.slots[p.tail := torn], producer := PWriting(p.value, p.tail))
      case EndWrite => s.(slots := s.slots[p.tail := p.value], producer := PWritten(p.value, p.tail))
      case StoreTail => s.(tail := Advance(p.tail, n), producer := PIdle, pushed := s.pushed + [p.value])
      case LoadHead => s.(consumer := CLoaded(s.head))
      case CheckEmpty => s.(consumer := if c.head == s.tail then CIdle else CCleared(c.head))
      case BeginRead => s.(consumer := CReading(c.head))
      case EndRead => s.(consumer := CHolding(c.head, s.slots[c.head]))
      case StoreHead => s.(head := Advance(c.head, n), consumer := CIdle, popped := s.popped + [c.out])
  }

  function Init<T>(slots: seq<T>): State<T>
  {
    State(slots, 0, 0, PIdle, CIdle, [], [])
  }

  function Run<T>(s: State<T>, schedule: seq<Step<T>>): State<T>
  {
    if schedule == [] then s else Do(Run(s, schedule[..|schedule| - 1]), schedule[|schedule| - 1])
  }

  function Held<T>(s: State<T>): nat
    requires Shape(s)
  {
    Count(s.head, s.tail, |s.slots|)
  }

  function InBuffer<T>(s: State<T>): seq<T>
    requires Shape(s)
  {
    Window(s.slots, s.head, Held(s))
  }

  /** The slots holding values not yet popped. */
  function LiveSlots<T>(s: State<T>): (r: seq<int>)
    requires Shape(s)
    ensures |r| == Held(s) && forall i :: 0 <= i < |r| ==> r[i] == Wrap(s.head + i, |s.slots|)
  {
    seq(Held(s), i requires 0 <= i < Held(s) => Wrap(s.head + i, |s.slots|))
  }

  // ---- The invariant ----

  predicate ProducerOk<T(==)>(s: State<T>)
    requires Shape(s)
  {
    match s.producer
    case PIdle => true
    case PLoaded(_, t) => t == s.tail
    case PCleared(_, t) => t == s.tail && Held(s) < |s.slots| - 1
    case PWriting(_, t) => t == s.tail && Held(s) < |s.slots| - 1
    case PWritten(v, t) => t == s.tail && Held(s) < |s.slots| - 1 && s.slots[t] == v
  }

  predicate ConsumerOk<T(==)>(s: State<T>)
    requires Shape(s)
  {
    match s.consumer
    case CIdle => true
    case CLoaded(h) => h == s.head
    case CCleared(h) => h == s.head && 0 < Held(s)
    case CReading(h) => h == s.head && 0 < Held(s)
    case CHolding(h, out) => h == s.head && 0 < Held(s) && out == s.slots[h]
  }

  predicate Inv<T(==)>(s: State<T>)
  {
    && Shape(s)
    && s.popped + InBuffer(s) == s.pushed
    && ProducerOk(s)
    && ConsumerOk(s)
  }

  /** A slot outside the window can change without being seen. */
  lemma WindowIgnores<T>(slots: seq<T>, head: nat, n: nat, x: T)
    requires head < |slots| && n < |slots|
    ensures Window(slots[Wrap(head + n, |slots|) := x], head, n) == Window(slots, head, n)
    ensures 0 < n ==> Wrap(head + n, |slots|) != head
  {
    var slots' := slots[Wrap(head + n, |slots|) := x];
    assert forall i :: 0 <= i < n ==> Window(slots', head, n)[i] == Window(slots, head, n)[i];
  }

  lemma StoreTailKeepsInv<T>(s: State<T>)
    requires Inv(s) && Enabled(s, StoreTail)
    ensures Inv(Do(s, StoreTail))
  {
    var k, v, s' := Held(s), s.producer.value, Do(s, StoreTail);
    assert s.slots[s.tail := v] == s.slots;
    WindowAppend(s.slots, s.head, k, v);
    assert Held(s') == k + 1;
    Assoc(s.popped, InBuffer(s), [v]);
  }

  lemma ProducerStepKeepsInv<T>(s: State<T>, step: Step<T>)
    requires Inv(s) && Enabled(s, step)
    requires step.LoadTail? || step.CheckFull? || step.BeginWrite? || step.EndWrite?
    ensures Inv(Do(s, step))
  {
    if step.BeginWrite? {
      WindowIgnores(s.slots, s.head, Held(s), step.torn);
    } else if step.EndWrite? {
      WindowIgnores(s.slots, s.head, Held(s), s.producer.value);
    }
  }

  lemma StoreHeadKeepsInv<T>(s: State<T>)
    requires Inv(s) && Enabled(s, StoreHead)
    ensures Inv(Do(s, StoreHead))
  {
    var k, w, s' := Held(s), InBuffer(s), Do(s, StoreHead);
    WindowRest(s.slots, s.head, k);
    assert Held(s') == k - 1;
    assert w[0] == s.slots[Wrap(s.head + 0, |s.slots|)];
    SplitFirst(w);
    Assoc(s.popped, [w[0]], w[1..]);
  }

  lemma ConsumerStepKeepsInv<T>(s: State<T>, step: Step<T>)
    requires Inv(s) && Enabled(s, step)
    requires step.LoadHead? || step.CheckEmpty? || step.BeginRead? || step.EndRead?
    ensures Inv(Do(s, step))
  {
  }

  lemma {:induction false} RunKeepsInv<T>(slots: seq<T>, schedule: seq<Step<T>>)
    requires 2 <= |slots|
    ensures Inv(Run(Init(slots), schedule)) && |Run(Init(slots), schedule).slots| == |slots|
  {
    if schedule != [] {
      var n := |schedule| - 1;
      RunKeepsInv(slots, schedule[..n]);
      var s, step := Run(Init(slots), schedule[..n]), schedule[n];
      if Enabled(s, step) {
        match step {
          case StoreTail => StoreTailKeepsInv(s);
          case StoreHead => StoreHeadKeepsInv(s);
          case LoadTail(_) => ProducerStepKeepsInv(s, step);
          case CheckFull => ProducerStepKeepsInv(s, step);
          case BeginWrite(_) => ProducerStepKeepsInv(s, step);
          case EndWrite => ProducerStepKeepsInv(s, step);
          case LoadHead => ConsumerStepKeepsInv(s, step);
          case CheckEmpty => ConsumerStepKeepsInv(s, step);
          case BeginRead => ConsumerStepKeepsInv(s, step);
          case EndRead => ConsumerStepKeepsInv(s, step);
        }
      }
    }
  }

  // ---- What every interleaving guarantees ----

  /** First in, first out: what was popped, then what is held, is what was pushed; and one slot is
      always left empty. */
  lemma Fifo<T>(slots: seq<T>, schedule: seq<Step<T>>)
    requires 2 <= |slots|
    ensures var s := Run(Init(slots), schedule);
            && Shape(s) && s.popped + InBuffer(s) == s.pushed && |InBuffer(s)| <= |slots| - 1
  {
    RunKeepsInv(slots, schedule);
  }

  /** The slot being written is never one being read, nor one that holds a value not yet popped. */
  lemma NoSlotRace<T>(slots: seq<T>, schedule: seq<Step<T>>)
    requires 2 <= |slots|
    ensures var s := Run(Init(slots), schedule);
            && Shape(s)
            && (s.producer.PWriting? && s.consumer.CReading? ==> s.producer.tail != s.consumer.head)
            && (s.producer.PWriting? ==> s.producer.tail !in LiveSlots(s))
  {
    RunKeepsInv(slots, schedule);
  }

  /** `push` gives up exactly when the buffer is full as it loads the other side's index, and `pop`
      exactly when it is empty. */
  lemma RefusalsAreJustified<T>(slots: seq<T>, schedule: seq<Step<T>>)
    requires 2 <= |slots|
    ensures var s := Run(Init(slots), schedule);
            && Shape(s)
            && (s.producer.PLoaded? ==>
                  (Do(s, CheckFull).producer.PIdle? <==> |InBuffer(s)| == |slots| - 1))
            && (s.consumer.CLoaded? ==>
                  (Do(s, CheckEmpty).consumer.CIdle? <==> InBuffer(s) == []))
  {
    RunKeepsInv(slots, schedule);
  }

  /** A `pop` that completes hands out the oldest value not yet popped, although the slot was read
      some steps earlier. */
  lemma PopReturnsOldest<T>(slots: seq<T>, schedule: seq<Step<T>>)
    requires 2 <= |slots|
    ensures var s := Run(Init(slots), schedule);
            s.consumer.CHolding? ==> |s.popped| < |s.pushed| && s.consumer.out == s.pushed[|s.popped|]
  {
    RunKeepsInv(slots, schedule);
    var s := Run(Init(slots), schedule);
    if s.consumer.CHolding? {
      assert s.pushed[|s.popped|] == InBuffer(s)[0] == s.slots[Wrap(s.head + 0, |s.slots|)];
    }
  }

  // ---- size, empty and full while the other side is running ----

  // Each of them loads the two indices one after the other: `first` is the state at the first load, `later` the
  // state at the second, and any steps of either thread may lie between. They change nothing.

  function SizeSeen<T>(first: State<T>, later: State<T>): nat
    requires Shape(first) && Shape(later) && |first.slots| == |later.slots|
  {
    (first.tail + |first.slots| - later.head) % |first.slots|
  }

  /** `empty` loads the head first. */
  predicate EmptySeen<T>(first: State<T>, later: State<T>)
  {
    first.head == later.tail
  }

  /** `full` loads the tail first. */
  predicate FullSeen<T>(first: State<T>, later: State<T>)
    requires Shape(first)
  {
    Advance(first.tail, |first.slots|) == later.head
  }

  predicate ByProducer<T>(step: Step<T>)
  {
    step.LoadTail? || step.CheckFull? || step.BeginWrite? || step.EndWrite? || step.StoreTail?
  }

  /** The indices count the values that went through. */
  predicate IndicesCount<T>(s: State<T>)
    requires Shape(s)
  {
    s.tail == |s.pushed| % |s.slots| && s.head == |s.popped| % |s.slots|
  }

  lemma StepCounts<T>(s: State<T>, step: Step<T>)
    requires Inv(s) && IndicesCount(s)
    ensures var s' := Do(s, step); |s'.slots| == |s.slots| && Shape(s') && IndicesCount(s')
  {
    if step.StoreTail? {
      NextMod(|s.pushed|, |s.slots|);
    } else if step.StoreHead? {
      NextMod(|s.popped|, |s.slots|);
    }
  }

  lemma {:induction false} RunCounts<T>(slots: seq<T>, schedule: seq<Step<T>>)
    requires 2 <= |slots|
    ensures var s := Run(Init(slots), schedule); Shape(s) && IndicesCount(s)
  {
    if schedule == [] {
      ModIs(0, |slots|, 0, 0);
    } else {
      var n := |schedule| - 1;
      RunCounts(slots, schedule[..n]);
      RunKeepsInv(slots, schedule[..n]);
      StepCounts(Run(Init(slots), schedule[..n]), schedule[n]);
    }
  }

  lemma {:induction false} RunConcat<T>(s: State<T>, a: seq<Step<T>>, b: seq<Step<T>>)
    ensures Run(s, a + b) == Run(Run(s, a), b)
  {
    if b == [] {
      assert a + b == a;
    } else {
      assert (a + b)[..|a + b| - 1] == a + b[..|b| - 1];
      RunConcat(s, a, b[..|b| - 1]);
    }
  }

  lemma {:induction false} OtherSideOnly<T>(s: State<T>, steps: seq<Step<T>>)
    ensures (forall i :: 0 <= i < |steps| ==> !ByProducer(steps[i])) ==> Run(s, steps).tail == s.tail
    ensures (forall i :: 0 <= i < |steps| ==> ByProducer(steps[i])) ==> Run(s, steps).head == s.head
  {
    if steps != [] {
      OtherSideOnly(s, steps[..|steps| - 1]);
    }
  }

  lemma CountIsSize(head: nat, tail: nat, m: nat)
    requires m >= 2 && head < m && tail < m
    ensures (tail + m - head) % m == Count(head, tail, m)
    ensures Count(head, tail, m) == 0 <==> head == tail
    ensures Count(head, tail, m) == m - 1 <==> Advance(tail, m) == head
  {
    if head <= tail {
      ModIs(tail + m - head, m, 1, tail - head);
    } else {
      ModIs(tail + m - head, m, 0, tail + m - head);
    }
  }

  lemma SeenWithSameTail<T>(first: State<T>, later: State<T>)
    requires Shape(first) && Shape(later) && |first.slots| == |later.slots| && later.tail == first.tail
    ensures SizeSeen(first, later) == Held(later) && (FullSeen(first, later) <==> Held(later) == |later.slots| - 1)
    ensures EmptySeen(first, later) <==> Held(first) == 0
  {
    CountIsSize(later.head, later.tail, |later.slots|);
  }

  lemma SeenWithSameHead<T>(first: State<T>, later: State<T>)
    requires Shape(first) && Shape(later) && |first.slots| == |later.slots| && later.head == first.head
    ensures SizeSeen(first, later) == Held(first) && (FullSeen(first, later) <==> Held(first) == |first.slots| - 1)
    ensures EmptySeen(first, later) <==> Held(later) == 0
  {
    CountIsSize(first.head, first.tail, |first.slots|);
  }

  /** Asked by the producer, between two pushes: whatever the consumer does meanwhile, `size` and `full` tell
      what the buffer holds as they load the head, their second load, and `empty` as it loads the head, its first. */
  lemma ProducerSees<T>(slots: seq<T>, schedule: seq<Step<T>>, more: seq<Step<T>>)
    requires 2 <= |slots| && forall i :: 0 <= i < |more| ==> !ByProducer(more[i])
    ensures var first, later := Run(Init(slots), schedule), Run(Init(slots), schedule + more);
            && Shape(first) && Shape(later) && |first.slots| == |later.slots| == |slots|
            && SizeSeen(first, later) == |InBuffer(later)|
            && (FullSeen(first, later) <==> |InBuffer(later)| == |slots| - 1)
            && (EmptySeen(first, later) <==> InBuffer(first) == [])
  {
    var first, later := Run(Init(slots), schedule), Run(Init(slots), schedule + more);
    RunKeepsInv(slots, schedule);
    RunKeepsInv(slots, schedule + more);
    RunConcat(Init(slots), schedule, more);
    OtherSideOnly(first, more);
    SeenWithSameTail(first, later);
  }

  /** Asked by the consumer, between two pops: `size` and `full` tell what the buffer holds as they load the
      tail, their first load, and `empty` as it loads the tail, its second. */
  lemma ConsumerSees<T>(slots: seq<T>, schedule: seq<Step<T>>, more: seq<Step<T>>)
    requires 2 <= |slots| && forall i :: 0 <= i < |more| ==> ByProducer(more[i])
    ensures var first, later := Run(Init(slots), schedule), Run(Init(slots), schedule + more);
            && Shape(first) && Shape(later) && |first.slots| == |later.slots| == |slots|
            && SizeSeen(first, later) == |InBuffer(first)|
            && (FullSeen(first, later) <==> |InBuffer(first)| == |slots| - 1)
            && (EmptySeen(first, later) <==> InBuffer(later) == [])
  {
    var first, later := Run(Init(slots), schedule), Run(Init(slots), schedule + more);
    RunKeepsInv(slots, schedule);
    RunKeepsInv(slots, schedule + more);
    RunConcat(Init(slots), schedule, more);
    OtherSideOnly(first, more);
    SeenWithSameHead(first, later);
  }

  lemma {:induction false} LogsGrow<T>(s: State<T>, steps: seq<Step<T>>)
    ensures |s.pushed| <= |Run(s, steps).pushed| && |s.popped| <= |Run(s, steps).popped|
  {
    if steps != [] {
      LogsGrow(s, steps[..|steps| - 1]);
    }
  }

  /** Asked by anybody else, `size` tells the values pushed before the tail was loaded less those popped before
      the head was, modulo the capacity. It is that number itself exactly if no value pushed after the first
      load was popped before the second. */
  lemma ThirdThreadSees<T>(slots: seq<T>, schedule: seq<Step<T>>, more: seq<Step<T>>)
    requires 2 <= |slots|
    ensures var first, later := Run(Init(slots), schedule), Run(Init(slots), schedule + more);
            && Shape(first) && Shape(later) && |first.slots| == |later.slots| == |slots|
            && SizeSeen(first, later) == (|first.pushed| - |later.popped|) % |slots|
            && (SizeSeen(first, later) == |first.pushed| - |later.popped| <==> |later.popped| <= |first.pushed|)
  {
    var first, later := Run(Init(slots), schedule), Run(Init(slots), schedule + more);
    RunKeepsInv(slots, schedule);
    RunKeepsInv(slots, schedule + more);
    RunCounts(slots, schedule);
    RunCounts(slots, schedule + more);
    RunConcat(Init(slots), schedule, more);
    LogsGrow(first, more);
    DifferenceMod(|first.pushed|, |later.popped|, |slots|);
    var d := |first.pushed| - |later.popped|;
    if d >= 0 {
      ModIs(d, |slots|, 0, d);
    }
  }

  /** One push and one pop of `v`, step by step. */
  function PushAndPop<T>(v: T): seq<Step<T>>
  {
    [LoadTail(v), CheckFull, BeginWrite(v), EndWrite, StoreTail] + [LoadHead, CheckEmpty, BeginRead, EndRead, StoreHead]
  }

  lemma FiveSteps<T>(s: State<T>, a: Step<T>, b: Step<T>, c: Step<T>, d: Step<T>, e: Step<T>)
    ensures Run(s, [a, b, c, d, e]) == Do(Do(Do(Do(Do(s, a), b), c), d), e)
  {
    assert [a, b, c, d, e][..4] == [a, b, c, d] && [a, b, c, d][..3] == [a, b, c];
    assert [a, b, c][..2] == [a, b] && [a, b][..1] == [a] && [a][..0] == [];
    assert Run(s, [a]) == Do(Run(s, []), a);
    assert Run(s, [a, b]) == Do(Run(s, [a]), b);
    assert Run(s, [a, b, c]) == Do(Run(s, [a, b]), c);
    assert Run(s, [a, b, c, d]) == Do(Run(s, [a, b, c]), d);
  }

  lemma PushRun<T>(slots: seq<T>, v: T)
    requires 2 <= |slots|
    ensures Run(Init(slots), [LoadTail(v), CheckFull, BeginWrite(v), EndWrite, StoreTail])
            == State(slots[0 := v], 0, 1, PIdle, CIdle, [v], [])
  {
    FiveSteps(Init(slots), LoadTail(v), CheckFull, BeginWrite(v), EndWrite, StoreTail);
    ModIs(1, |slots|, 0, 1);
    assert slots[0 := v][0 := v] == slots[0 := v];
    assert [] + [v] == [v];
  }

  lemma PopRun<T>(slots: seq<T>, v: T)
    requires 2 <= |slots| && slots[0] == v
    ensures Run(State(slots, 0, 1, PIdle, CIdle, [v], []), [LoadHead, CheckEmpty, BeginRead, EndRead, StoreHead])
            == State(slots, 1, 1, PIdle, CIdle, [v], [v])
  {
    FiveSteps(State(slots, 0, 1, PIdle, CIdle, [v], []), LoadHead, CheckEmpty, BeginRead, EndRead, StoreHead);
    ModIs(1, |slots|, 0, 1);
    assert [] + [v] == [v];
  }

  /** And otherwise it can be as wrong as possible: a third thread whose two loads lie around one push and one
      pop is told that the buffer is full, although it is empty at both. */
  lemma EmptyLooksFull<T>(slots: seq<T>, v: T)
    requires 2 <= |slots|
    ensures var first, later := Init(slots), Run(Init(slots), PushAndPop(v));
            && Shape(first) && Shape(later) && |first.slots| == |later.slots| == |slots|
            && InBuffer(first) == [] && InBuffer(later) == []
            && SizeSeen(first, later) == |slots| - 1 && FullSeen(first, later)
  {
    RunConcat(Init(slots), [LoadTail(v), CheckFull, BeginWrite(v), EndWrite, StoreTail],
              [LoadHead, CheckEmpty, BeginRead, EndRead, StoreHead]);
    PushRun(slots, v);
    PopRun(slots[0 := v], v);
    ModIs(|slots| - 1, |slots|, 0, |slots| - 1);
    ModIs(1, |slots|, 0, 1);
  }
}
