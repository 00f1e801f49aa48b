/** The single-producer, single-consumer ring buffer shared by the kernel and a process. */
module RingBuffer {
  import opened Bytes
  import opened Arith

  const HEADER: nat := 192

  /** The index after `i`. */
  function Advance(i: nat, elementSize: nat, capacity: nat): nat {
    if i + elementSize == capacity then 0 else i + elementSize
  }

  // ---------------------------------------------------------------- slots

  /** The index of the `n`-th element ever put in. */
  function At(n: nat, slots: nat, elementSize: nat): nat
    requires slots > 0
  {
    n % slots * elementSize
  }

  lemma AtBounds(n: nat, slots: nat, elementSize: nat)
    requires slots > 0
    ensures At(n, slots, elementSize) + elementSize <= slots * elementSize
  {
    var (q, r) := (n % slots, slots - 1 - n % slots);
    assert slots * elementSize == q * elementSize + elementSize + r * elementSize;
  }

  lemma AtNext(n: nat, slots: nat, elementSize: nat)
    requires slots > 0 && elementSize > 0
    ensures Advance(At(n, slots, elementSize), elementSize, slots * elementSize) == At(n + 1, slots, elementSize)
  {
    hide At;
    AtIs(n, slots, elementSize);
    AtIs(n + 1, slots, elementSize);
    ModNext(n, slots);
    var q := n % slots;
    assert q * elementSize + elementSize == (q + 1) * elementSize;
    if q + 1 != slots {
      Apart(q + 1, slots, elementSize);
    }
  }

  lemma AtIs(n: nat, slots: nat, elementSize: nat)
    requires slots > 0
    ensures At(n, slots, elementSize) == n % slots * elementSize
  {
  }

  /** Elements put in fewer than a round apart have different places. */
  lemma AtDiffers(m: nat, n: nat, slots: nat, elementSize: nat)
    requires slots > 0 && elementSize > 0 && m < n < m + slots
    ensures At(m, slots, elementSize) + elementSize <= At(n, slots, elementSize)
            || At(n, slots, elementSize) + elementSize <= At(m, slots, elementSize)
  {
    hide At;
    AtIs(m, slots, elementSize);
    AtIs(n, slots, elementSize);
    ModDiffers(m, n, slots);
    if m % slots < n % slots {
      Apart(m % slots, n % slots, elementSize);
    } else {
      Apart(n % slots, m % slots, elementSize);
    }
  }

  lemma AtRound(n: nat, slots: nat, elementSize: nat)
    requires slots > 0
    ensures At(n + slots, slots, elementSize) == At(n, slots, elementSize)
  {
    ModUnique(n + slots, n / slots + 1, slots, n % slots);
  }

  // ---------------------------------------------------------------- interleavings

  type Element = seq<byte>

  /** What the producer is in the middle of. */
  datatype Producer = Free | Copying(element: Element, copied: nat)

  /** Whether the consumer holds a pointer that front gave it. */
  datatype Consumer = Idle | Holding(ptr: nat)

  /** The shared words and bytes, what each side is doing, and what was put in and taken out. Of the
      other side's index each side has seen the value after `seenPopped` pops or `seenEmplaced`
      emplaces, and from then on may see that value or any later one. */
  datatype State = State(head: nat, tail: nat, data: seq<byte>, producer: Producer, consumer: Consumer,
                         emplaced: seq<Element>, popped: seq<Element>, seenPopped: nat, seenEmplaced: nat)

  datatype Config = Config(slots: nat, elementSize: nat)

  /** The steps the two sides may take in any order. `Check` begins an emplace: it loads the tail,
      as it was after `popped` pops. `Copy` copies one byte. `Publish` stores the head. `Front` loads
      the head, as it was after `emplaced` emplaces. `Pop` stores the tail. */
  datatype Step = Check(element: Element, popped: nat) | Copy | Publish | Front(emplaced: nat) | Pop

  predicate ConfigOk(c: Config) {
    c.slots > 0 && c.elementSize > 0
  }

  function Capacity(c: Config): nat {
    c.slots * c.elementSize
  }

  predicate CanStep(c: Config, s: State, step: Step) {
    match step
    case Check(element, popped) =>
      s.producer.Free? && |element| == c.elementSize && s.seenPopped <= popped <= |s.popped|
    case Copy =>
      s.producer.Copying? && s.producer.copied < c.elementSize && s.producer.copied < |s.producer.element|
      && s.head + s.producer.copied < |s.data|
    case Publish => s.producer.Copying? && s.producer.copied == c.elementSize
    case Front(emplaced) => s.seenEmplaced <= emplaced <= |s.emplaced|
    case Pop => s.consumer.Holding? && s.tail + c.elementSize <= |s.data|
  }

  function Next(c: Config, s: State, step: Step): State
    requires ConfigOk(c) && CanStep(c, s, step)
  {
    match step
    case Check(element, popped) =>
      if Advance(s.head, c.elementSize, Capacity(c)) == At(popped, c.slots, c.elementSize)
      then s.(seenPopped := popped)
      else s.(seenPopped := popped, producer := Copying(element, 0))
    case Copy =>
      var Copying(element, k) := s.producer;
      s.(data := s.data[s.head + k := element[k]], producer := Copying(element, k + 1))
    case Publish =>
      var next := Advance(s.head, c.elementSize, Capacity(c));
      s.(head := next, producer := Free, emplaced := s.emplaced + [s.producer.element])
    case Front(emplaced) =>
      if At(emplaced, c.slots, c.elementSize) == s.tail then s.(seenEmplaced := emplaced)
      else s.(seenEmplaced := emplaced, consumer := Holding(s.tail))
    case Pop =>
      var next := Advance(s.tail, c.elementSize, Capacity(c));
      s.(tail := next, consumer := Idle,
         popped := s.popped + [s.data[s.tail..s.tail + c.elementSize]])
  }

  // ---------------------------------------------------------------- the invariant

  /** The bytes at the place of the `n`-th element. */
  function Slot(c: Config, data: seq<byte>, n: nat): (e: Element)
    requires ConfigOk(c) && |data| == Capacity(c)
    ensures |e| == c.elementSize
  {
    AtBounds(n, c.slots, c.elementSize);
    data[At(n, c.slots, c.elementSize)..At(n, c.slots, c.elementSize) + c.elementSize]
  }

  /** The indices count what was put in and taken out, and neither side has passed the other. */
  predicate Counts(c: Config, s: State)
    requires ConfigOk(c)
  {
    && s.head == At(|s.emplaced|, c.slots, c.elementSize) && s.tail == At(|s.popped|, c.slots, c.elementSize)
    && s.seenPopped <= |s.popped| <= s.seenEmplaced <= |s.emplaced| <= s.seenPopped + c.slots - 1
  }

  /** Elements between tail and head are in their places. */
  ghost predicate Queued(c: Config, s: State)
    requires ConfigOk(c) && |s.data| == Capacity(c)
  {
    forall i: nat | |s.popped| <= i < |s.emplaced| :: Slot(c, s.data, i) == s.emplaced[i]
  }

  ghost predicate Inv(c: Config, s: State) {
    && ConfigOk(c) && |s.data| == Capacity(c) && Counts(c, s) && Queued(c, s)
    && |s.popped| <= |s.emplaced| && s.popped == s.emplaced[..|s.popped|]
    && (s.producer.Copying? ==>
          && |s.producer.element| == c.elementSize && s.producer.copied <= c.elementSize
          && |s.emplaced| + 1 <= s.seenPopped + c.slots - 1
          && Slot(c, s.data, |s.emplaced|)[..s.producer.copied] == s.producer.element[..s.producer.copied])
    && (s.consumer.Holding? ==> s.consumer.ptr == s.tail && |s.popped| < s.seenEmplaced)
  }

  /** What the queue promises: first in first out, bounded, indices at multiples of the element size. */
  predicate Safe(c: Config, s: State) {
    && |s.popped| <= |s.emplaced| <= |s.popped| + c.slots - 1 && s.popped == s.emplaced[..|s.popped|]
    && 0 < c.elementSize && s.head % c.elementSize == 0 && s.tail % c.elementSize == 0
    && s.head < Capacity(c) && s.tail < Capacity(c)
  }

  lemma InvSafe(c: Config, s: State)
    requires Inv(c, s)
    ensures Safe(c, s)
  {
    hide At, Queued;
    var (e, p) := (|s.emplaced|, |s.popped|);
    AtIs(e, c.slots, c.elementSize);
    AtIs(p, c.slots, c.elementSize);
    AtBounds(e, c.slots, c.elementSize);
    AtBounds(p, c.slots, c.elementSize);
    ModUnique(s.head, e % c.slots, c.elementSize, 0);
    ModUnique(s.tail, p % c.slots, c.elementSize, 0);
  }

  /** Equal places, fewer than a round apart, are the same element's. */
  lemma AtSame(m: nat, n: nat, slots: nat, elementSize: nat)
    requires slots > 0 && elementSize > 0 && m <= n < m + slots
    requires At(m, slots, elementSize) == At(n, slots, elementSize)
    ensures m == n
  {
    hide At;
    if m < n {
      AtDiffers(m, n, slots, elementSize);
    }
  }

  /** The test of emplace, even against a stale tail, never lets the producer in when full. */
  lemma CheckRoom(c: Config, s: State, popped: nat)
    requires Inv(c, s) && s.seenPopped <= popped <= |s.popped|
    ensures Advance(s.head, c.elementSize, Capacity(c)) == At(popped, c.slots, c.elementSize)
            <==> |s.emplaced| + 1 == popped + c.slots
  {
    hide At, Queued, Slot;
    AtNext(|s.emplaced|, c.slots, c.elementSize);
    FullTest(popped, |s.emplaced|, c.slots, c.elementSize);
  }

  lemma InvCheck(c: Config, s: State, step: Step)
    requires Inv(c, s) && step.Check? && CanStep(c, s, step)
    ensures Inv(c, Next(c, s, step))
    ensures Next(c, s, step).producer
            == if |s.emplaced| + 1 == step.popped + c.slots then Free else Copying(step.element, 0)
  {
    hide At, Advance, Slot, Capacity;
    CheckRoom(c, s, step.popped);
  }

  /** A byte written into the next free place leaves the bytes of the queued ones. */
  lemma WriteKeeps(c: Config, data: seq<byte>, n: nat, k: nat, b: byte, i: nat)
    requires ConfigOk(c) && |data| == Capacity(c) && k < c.elementSize && i < n < i + c.slots
    requires At(n, c.slots, c.elementSize) + k < |data|
    ensures Slot(c, data[At(n, c.slots, c.elementSize) + k := b], i) == Slot(c, data, i)
  {
    hide At;
    AtDiffers(i, n, c.slots, c.elementSize);
    AtBounds(i, c.slots, c.elementSize);
  }

  lemma InvCopy(c: Config, s: State)
    requires Inv(c, s) && CanStep(c, s, Copy)
    ensures Inv(c, Next(c, s, Copy))
  {
    hide At, Capacity;
    var s' := Next(c, s, Copy);
    var (n, k) := (|s.emplaced|, s.producer.copied);
    forall i: nat | |s.popped| <= i < n ensures Slot(c, s'.data, i) == s.emplaced[i] {
      WriteKeeps(c, s.data, n, k, s.producer.element[k], i);
    }
    CopiedSoFar(c, s.data, n, k, s.producer.element);
  }

  lemma CopiedSoFar(c: Config, data: seq<byte>, n: nat, k: nat, element: Element)
    requires ConfigOk(c) && |data| == Capacity(c) && k < c.elementSize == |element|
    requires At(n, c.slots, c.elementSize) + k < |data| && Slot(c, data, n)[..k] == element[..k]
    ensures Slot(c, data[At(n, c.slots, c.elementSize) + k := element[k]], n)[..k + 1] == element[..k + 1]
  {
    hide At;
    AtBounds(n, c.slots, c.elementSize);
    var (a, d) := (At(n, c.slots, c.elementSize), data[At(n, c.slots, c.elementSize) + k := element[k]]);
    SliceSlice(data, a, a + c.elementSize, 0, k);
    SliceSlice(d, a, a + c.elementSize, 0, k + 1);
    assert d[a..a + k + 1] == data[a..a + k] + [element[k]];
  }

  lemma InvPublish(c: Config, s: State)
    requires Inv(c, s) && CanStep(c, s, Publish)
    ensures Inv(c, Next(c, s, Publish))
  {
    hide At, Capacity, Advance, Slot;
    var n := |s.emplaced|;
    AtNext(n, c.slots, c.elementSize);
    CapacityIs(c);
    var element := s.producer.element;
    assert element[..c.elementSize] == element && Slot(c, s.data, n)[..c.elementSize] == Slot(c, s.data, n);
  }

  lemma CapacityIs(c: Config)
    ensures Capacity(c) == c.slots * c.elementSize
  {
  }

  lemma InvFront(c: Config, s: State, step: Step)
    requires Inv(c, s) && step.Front? && CanStep(c, s, step)
    ensures Inv(c, Next(c, s, step))
    ensures Next(c, s, step).consumer == if step.emplaced > |s.popped| then Holding(s.tail) else s.consumer
  {
    hide At, Capacity, Advance, Slot;
    if At(step.emplaced, c.slots, c.elementSize) == s.tail {
      AtSame(|s.popped|, step.emplaced, c.slots, c.elementSize);
    }
  }

  lemma InvPop(c: Config, s: State)
    requires Inv(c, s) && CanStep(c, s, Pop)
    ensures Inv(c, Next(c, s, Pop))
  {
    hide At, Advance;
    var p := |s.popped|;
    AtNext(p, c.slots, c.elementSize);
    assert Slot(c, s.data, p) == s.emplaced[p];
    assert s.emplaced[..p + 1] == s.emplaced[..p] + [s.emplaced[p]];
  }

  /** Every step keeps the invariant. */
  lemma InvStep(c: Config, s: State, step: Step)
    requires Inv(c, s) && CanStep(c, s, step)
    ensures Inv(c, Next(c, s, step))
  {
    hide Inv, CanStep, Next;
    match step
    case Check(_, _) => InvCheck(c, s, step);
    case Copy => InvCopy(c, s);
    case Publish => InvPublish(c, s);
    case Front(_) => InvFront(c, s, step);
    case Pop => InvPop(c, s);
  }

  /** No copy and no pop ever leaves the data: neither side waits for more than its own progress. */
  lemma InBounds(c: Config, s: State)
    requires Inv(c, s)
    ensures CanStep(c, s, Copy) <==> s.producer.Copying? && s.producer.copied < c.elementSize
    ensures CanStep(c, s, Publish) <==> s.producer.Copying? && s.producer.copied == c.elementSize
    ensures CanStep(c, s, Pop) <==> s.consumer.Holding?
    ensures forall e, p: nat :: CanStep(c, s, Check(e, p)) <==>
                                  s.producer.Free? && |e| == c.elementSize && s.seenPopped <= p <= |s.popped|
    ensures forall n: nat :: CanStep(c, s, Front(n)) <==> s.seenEmplaced <= n <= |s.emplaced|
  {
    hide At;
    AtBounds(|s.emplaced|, c.slots, c.elementSize);
    AtBounds(|s.popped|, c.slots, c.elementSize);
  }

  // ---------------------------------------------------------------- runs

  function Initial(data: seq<byte>): State {
    State(0, 0, data, Free, Idle, [], [], 0, 0)
  }

  lemma InvInitial(c: Config, data: seq<byte>)
    requires ConfigOk(c) && |data| == Capacity(c)
    ensures Inv(c, Initial(data))
  {
  }

  /** The state after an interleaving, if each of its steps was possible. */
  function Execute(c: Config, s: State, steps: seq<Step>): Option<State>
    requires ConfigOk(c)
    decreases |steps|
  {
    if steps == [] then Some(s)
    else if CanStep(c, s, steps[0]) then Execute(c, Next(c, s, steps[0]), steps[1..])
    else None
  }

  lemma {:induction false} InvRun(c: Config, s: State, steps: seq<Step>)
    requires Inv(c, s)
    ensures Execute(c, s, steps).Some? ==> Inv(c, Execute(c, s, steps).value)
    decreases |steps|
  {
    hide Inv, CanStep, Next;
    InvConfig(c, s);
    if steps != [] && CanStep(c, s, steps[0]) {
      InvStep(c, s, steps[0]);
      InvRun(c, Next(c, s, steps[0]), steps[1..]);
    }
  }

  lemma InvConfig(c: Config, s: State)
    requires Inv(c, s)
    ensures ConfigOk(c)
  {
  }

  // What a list of steps says by itself.

  /** The elements that are published, in order, when the last attempt to emplace was for `asked`. */
  function Puts(asked: Element, steps: seq<Step>): seq<Element>
    decreases |steps|
  {
    if steps == [] then []
    else match steps[0]
      case Check(element, _) => Puts(element, steps[1..])
      case Publish => [asked] + Puts(asked, steps[1..])
      case _ => Puts(asked, steps[1..])
  }

  function Pops(steps: seq<Step>): nat {
    if steps == [] then 0 else (if steps[0].Pop? then 1 else 0) + Pops(steps[1..])
  }

  /** What one step adds to what was put in and taken out. */
  lemma OneStep(c: Config, s: State, step: Step)
    requires Inv(c, s) && CanStep(c, s, step)
    ensures var t := Next(c, s, step);
            && t.emplaced == (if step.Publish? then s.emplaced + [s.producer.element] else s.emplaced)
            && |t.popped| == (if step.Pop? then |s.popped| + 1 else |s.popped|)
            && (t.producer.Copying? ==>
                  if step.Check? then t.producer.element == step.element
                  else s.producer.Copying? && t.producer.element == s.producer.element)
  {
    hide At, Advance, Slot, Counts, Queued;
  }

  lemma {:induction false} RunCounts(c: Config, s: State, asked: Element, steps: seq<Step>)
    requires Inv(c, s) && (s.producer.Copying? ==> s.producer.element == asked)
    ensures Execute(c, s, steps).Some? ==>
              var t := Execute(c, s, steps).value;
              t.emplaced == s.emplaced + Puts(asked, steps) && |t.popped| == |s.popped| + Pops(steps)
    decreases |steps|
  {
    hide Inv, CanStep, Next;
    InvConfig(c, s);
    if steps == [] {
      assert s.emplaced + [] == s.emplaced;
    } else if CanStep(c, s, steps[0]) {
      InvStep(c, s, steps[0]);
      OneStep(c, s, steps[0]);
      if steps[0].Publish? {
        InBounds(c, s);
        Assoc(s.emplaced, [asked], Puts(asked, steps[1..]));
      }
      RunCounts(c, Next(c, s, steps[0]), if steps[0].Check? then steps[0].element else asked, steps[1..]);
    }
  }

  /** After any interleaving of the two sides what was put in are the elements asked for last before each
      publication, in order, what was taken out are as many of the first of them as there were pops, and the
      indices are those of the two counts. */
  lemma FirstInFirstOut(c: Config, data: seq<byte>, steps: seq<Step>)
    requires ConfigOk(c) && |data| == Capacity(c)
    ensures Execute(c, Initial(data), steps).Some? ==>
              var (t, put, pops) := (Execute(c, Initial(data), steps).value, Puts([], steps), Pops(steps));
              && t.emplaced == put && pops <= |put| <= pops + c.slots - 1 && t.popped == put[..pops]
              && t.head == At(|put|, c.slots, c.elementSize) && t.tail == At(pops, c.slots, c.elementSize)
              && Safe(c, t)
  {
    hide Inv, Safe, Execute, Initial, At, Puts, Pops;
    InvInitial(c, data);
    InvRun(c, Initial(data), steps);
    NothingYet(data);
    RunCounts(c, Initial(data), [], steps);
    assert [] + Puts([], steps) == Puts([], steps);
    if Execute(c, Initial(data), steps).Some? {
      InvSafe(c, Execute(c, Initial(data), steps).value);
      InvIndices(c, Execute(c, Initial(data), steps).value);
    }
  }

  lemma NothingYet(data: seq<byte>)
    ensures var s := Initial(data); s.emplaced == [] && s.popped == [] && s.producer.Free?
  {
  }

  lemma InvIndices(c: Config, s: State)
    requires Inv(c, s)
    ensures s.seenPopped <= |s.popped| <= s.seenEmplaced <= |s.emplaced| <= |s.popped| + c.slots - 1
    ensures s.popped == s.emplaced[..|s.popped|]
    ensures s.head == At(|s.emplaced|, c.slots, c.elementSize) && s.tail == At(|s.popped|, c.slots, c.elementSize)
  {
    hide At, Queued;
  }

  /** The element behind the pointer front returned. */
  predicate Held(c: Config, s: State, element: Element) {
    s.consumer.Holding? && s.consumer.ptr + c.elementSize <= |s.data|
    && s.data[s.consumer.ptr..s.consumer.ptr + c.elementSize] == element
  }

  lemma HeldIs(c: Config, s: State)
    requires Inv(c, s) && s.consumer.Holding?
    ensures Held(c, s, s.emplaced[|s.popped|])
  {
    hide At;
    AtBounds(|s.popped|, c.slots, c.elementSize);
    assert Slot(c, s.data, |s.popped|) == s.emplaced[|s.popped|];
  }

  lemma StepKeepsHeld(c: Config, s: State, step: Step)
    requires Inv(c, s) && s.consumer.Holding? && !step.Pop? && CanStep(c, s, step)
    ensures var s' := Next(c, s, step);
            && s'.consumer == s.consumer && s'.popped == s.popped
            && |s.popped| < |s.emplaced| <= |s'.emplaced| && s'.emplaced[|s.popped|] == s.emplaced[|s.popped|]
  {
    hide At, Slot, Queued, Capacity;
    if step.Front? {
      InvFront(c, s, step);
    }
  }

  /** Until the consumer pops, the bytes behind its pointer stay those of the oldest element,
      whatever the producer does, half-finished copies included. */
  lemma {:induction false} SlotStable(c: Config, s: State, steps: seq<Step>)
    requires Inv(c, s) && s.consumer.Holding? && (forall k | 0 <= k < |steps| :: !steps[k].Pop?)
    ensures Execute(c, s, steps).Some? ==>
              var t := Execute(c, s, steps).value;
              && t.consumer == s.consumer && |s.popped| < |s.emplaced|
              && Held(c, s, s.emplaced[|s.popped|]) && Held(c, t, s.emplaced[|s.popped|])
    decreases |steps|
  {
    hide Inv, CanStep, Next, Held, Safe;
    InvConfig(c, s);
    InvSafe(c, s);
    HoldingNonEmpty(c, s);
    HeldIs(c, s);
    if steps != [] && CanStep(c, s, steps[0]) {
      InvStep(c, s, steps[0]);
      StepKeepsHeld(c, s, steps[0]);
      SlotStable(c, Next(c, s, steps[0]), steps[1..]);
    }
  }

  lemma HoldingNonEmpty(c: Config, s: State)
    requires Inv(c, s) && s.consumer.Holding?
    ensures |s.popped| < |s.emplaced|
  {
  }

  // ---------------------------------------------------------------- the operations

  // What the operations do to the elements that are in the queue.

  function Emplaced(slots: nat, queue: seq<Element>, element: Element): seq<Element> {
    if |queue| < slots - 1 then queue + [element] else queue
  }

  predicate Copied(before: seq<byte>, after: seq<byte>, at: nat, element: Element) {
    at + |element| <= |before| && after == before[..at] + element + before[at + |element|..]
  }

  lemma NoneCopied(s: seq<byte>, at: nat)
    requires at <= |s|
    ensures Copied(s, s, at, [])
  {
    assert s[..at] + [] + s[at..] == s;
  }

  lemma OneCopied(s: seq<byte>, t: seq<byte>, t': seq<byte>, at: nat, element: Element, i: nat)
    requires i < |element| && at + |element| <= |s| && Copied(s, t, at, element[..i])
    requires |t| == |s| && t' == t[at + i := element[i]]
    ensures Copied(s, t', at, element[..i + 1])
  {
    assert element[..i + 1] == element[..i] + [element[i]];
    assert t' == s[..at] + (element[..i] + [element[i]]) + s[at + i + 1..];
  }

  lemma CopiedElsewhere(c: Config, before: seq<byte>, after: seq<byte>, n: nat, element: Element, i: nat)
    requires ConfigOk(c) && |before| == Capacity(c) && |element| == c.elementSize && i < n < i + c.slots
    requires Copied(before, after, At(n, c.slots, c.elementSize), element)
    ensures |after| == |before| && Slot(c, after, i) == Slot(c, before, i)
  {
    hide At;
    AtDiffers(i, n, c.slots, c.elementSize);
    AtBounds(i, c.slots, c.elementSize);
  }

  lemma CopiedHere(c: Config, before: seq<byte>, after: seq<byte>, n: nat, element: Element)
    requires ConfigOk(c) && |before| == Capacity(c) && |element| == c.elementSize
    requires Copied(before, after, At(n, c.slots, c.elementSize), element)
    ensures |after| == |before| && Slot(c, after, n) == element
  {
    hide At;
    AtBounds(n, c.slots, c.elementSize);
  }

  lemma WholeElements(space: nat, elementSize: nat)
    requires space >= elementSize > 0
    ensures var capacity := space - space % elementSize;
            capacity == capacity / elementSize * elementSize && capacity >= elementSize
  {
    var q := space / elementSize;
    DivUnique(q, elementSize);
    if q > 0 {
      Apart(0, q, elementSize);
    }
  }

  lemma AtZero(slots: nat, elementSize: nat)
    requires slots > 0
    ensures At(0, slots, elementSize) == 0
  {
  }

  /** The test for a full queue. */
  lemma FullTest(m: nat, n: nat, slots: nat, elementSize: nat)
    requires slots > 0 && elementSize > 0 && m <= n < m + slots
    ensures At(n + 1, slots, elementSize) == At(m, slots, elementSize) <==> n + 1 == m + slots
  {
    hide At;
    if n + 1 == m + slots {
      AtRound(m, slots, elementSize);
    } else if At(n + 1, slots, elementSize) == At(m, slots, elementSize) {
      AtSame(m, n + 1, slots, elementSize);
    }
  }

  /** The contents of all places but the one before the `n`-th. */
  ghost function Stale(c: Config, data: seq<byte>, n: nat): (s: seq<Element>)
    requires ConfigOk(c) && |data| == Capacity(c)
  {
    seq(c.slots - 1, i requires 0 <= i => Slot(c, data, n + i))
  }

  class Queue {
    const elementSize: nat
    const capacity: nat
    const data: array<byte>
    var head: nat
    var tail: nat
    ghost var taken: nat
    ghost var queue: seq<Element>

    function Shape(): Config
      requires elementSize > 0
    {
      Config(capacity / elementSize, elementSize)
    }

    ghost predicate Valid()
      reads this, data
    {
      && elementSize > 0 && capacity == capacity / elementSize * elementSize && capacity >= elementSize
      && data.Length == capacity
      && var slots := capacity / elementSize;
         && tail == At(taken, slots, elementSize) && head == At(taken + |queue|, slots, elementSize)
         && |queue| <= slots - 1
         && (forall i: nat | i < |queue| :: Slot(Shape(), data[..], taken + i) == queue[i])
    }

    /** Lays the queue out in a buffer: the data gets what is left behind the header, in whole elements. */
    constructor (bufSize: nat, elementSize: nat)
      requires elementSize > 0 && bufSize >= HEADER + elementSize
      ensures Valid() && queue == [] && this.elementSize == elementSize
      ensures capacity <= bufSize - 192 < capacity + elementSize
    {
      hide At, Slot;
      this.elementSize := elementSize;
      var capacity := bufSize - HEADER;
      this.capacity := capacity - capacity % elementSize;
      WholeElements(capacity, elementSize);
      this.data := new byte[capacity - capacity % elementSize];
      head, tail, taken, queue := 0, 0, 0, [];
      AtZero((capacity - capacity % elementSize) / elementSize, elementSize);
    }

    method IsEmpty() returns (r: bool)
      requires Valid()
      ensures r <==> queue == []
    {
      hide Slot, At;
      r := head == tail;
      if r {
        AtSame(taken, taken + |queue|, capacity / elementSize, elementSize);
      }
    }

    /** Where the oldest element is. */
    method Front() returns (r: Option<nat>)
      requires Valid()
      ensures r.None? <==> queue == []
      ensures r.Some? ==> r.value + elementSize <= data.Length && data[..][r.value..r.value + elementSize] == queue[0]
    {
      hide At;
      AtBounds(taken, capacity / elementSize, elementSize);
      if head == tail {
        AtSame(taken, taken + |queue|, capacity / elementSize, elementSize);
        return None;
      }
      assert queue != [];
      assert Slot(Shape(), data[..], taken + 0) == queue[0];
      return Some(tail);
    }

    /** Drops the oldest element. There is no test for one: popping an empty queue fills it with what
        the other places happen to hold. */
    method Pop()
      requires Valid()
      modifies this
      ensures Valid() && head == old(head) && tail == Advance(old(tail), elementSize, capacity)
      ensures queue == if old(queue) != [] then old(queue)[1..] else Stale(Shape(), data[..], old(taken) + 1)
      ensures |queue| == if old(queue) != [] then |old(queue)| - 1 else capacity / elementSize - 1
    {
      hide At, Slot;
      AtNext(taken, capacity / elementSize, elementSize);
      var nextTail := tail + elementSize;
      if nextTail == capacity {
        nextTail := 0;
      }
      tail := nextTail;
      taken := taken + 1;
      if queue == [] {
        AtRound(taken - 1, capacity / elementSize, elementSize);
        queue := Stale(Shape(), data[..], taken);
      } else {
        queue := queue[1..];
        forall i: nat | i < |queue| ensures Slot(Shape(), data[..], taken + i) == queue[i] {
          assert queue[i] == old(queue)[i + 1] && taken + i == old(taken) + (i + 1);
        }
      }
    }

    /** Puts an element in, unless the queue is full. */
    method Emplace(element: Element) returns (r: bool)
      requires Valid() && |element| == elementSize
      modifies this, data
      ensures Valid() && r == (|old(queue)| < capacity / elementSize - 1) && tail == old(tail)
      ensures queue == Emplaced(capacity / elementSize, old(queue), element)
      ensures r ==> head == Advance(old(head), elementSize, capacity)
                    && Copied(old(data[..]), data[..], old(head), element)
      ensures !r ==> head == old(head) && data[..] == old(data[..])
    {
      hide At, Slot, Copied;
      ghost var n := taken + |queue|;
      AtNext(n, capacity / elementSize, elementSize);
      var nextHead := head + elementSize;
      if nextHead == capacity {
        nextHead := 0;
      }
      FullTest(taken, n, capacity / elementSize, elementSize);
      if nextHead == tail {
        return false;
      }
      ghost var before := data[..];
      AtBounds(n, capacity / elementSize, elementSize);
      CopyBytes(element, head);
      forall i: nat | i < |queue| ensures Slot(Shape(), data[..], taken + i) == queue[i] {
        CopiedElsewhere(Shape(), before, data[..], n, element, taken + i);
      }
      CopiedHere(Shape(), before, data[..], n, element);
      head := nextHead;
      queue := queue + [element];
      return true;
    }

    /** Copies an element byte by byte. */
    method CopyBytes(element: Element, at: nat)
      requires elementSize > 0 && at + |element| <= data.Length
      modifies data
      ensures Copied(old(data[..]), data[..], at, element)
    {
      hide Copied;
      NoneCopied(data[..], at);
      for i := 0 to |element|
        invariant Copied(old(data[..]), data[..], at, element[..i])
      {
        ghost var before := data[..];
        data[at + i] := element[i];
        OneCopied(old(data[..]), before, data[..], at, element, i);
      }
      assert element[..|element|] == element;
    }
  }

  // ---------------------------------------------------------------- operations as runs

  /** The elements in the queue. */
  function Waiting(s: State): seq<Element>
    requires |s.popped| <= |s.emplaced|
  {
    s.emplaced[|s.popped|..]
  }

  function Copies(n: nat): (r: seq<Step>)
    ensures |r| == n
  {
    if n == 0 then [] else [Copy] + Copies(n - 1)
  }

  lemma {:induction false} ExecuteConcat(c: Config, s: State, a: seq<Step>, b: seq<Step>)
    requires ConfigOk(c)
    ensures Execute(c, s, a + b)
            == match Execute(c, s, a) { case None => None case Some(t) => Execute(c, t, b) }
    decreases |a|
  {
    hide CanStep, Next;
    if a == [] {
      assert a + b == b;
    } else {
      assert (a + b)[1..] == a[1..] + b;
      if CanStep(c, s, a[0]) {
        ExecuteConcat(c, Next(c, s, a[0]), a[1..], b);
      }
    }
  }

  lemma ExecuteOne(c: Config, s: State, step: Step)
    requires ConfigOk(c) && CanStep(c, s, step)
    ensures Execute(c, s, [step]) == Some(Next(c, s, step))
  {
    hide CanStep, Next;
    assert [step][1..] == [];
  }

  /** The producer's copy loop. */
  lemma {:induction false} CopyRun(c: Config, s: State, n: nat) returns (t: State)
    requires Inv(c, s) && s.producer.Copying? && s.producer.copied + n == c.elementSize
    requires s.head + c.elementSize <= |s.data|
    ensures Execute(c, s, Copies(n)) == Some(t) && Inv(c, t)
    ensures t == s.(data := t.data, producer := s.producer.(copied := c.elementSize))
    ensures Copied(s.data, t.data, s.head + s.producer.copied, s.producer.element[s.producer.copied..])
    decreases n
  {
    hide Inv, CanStep, Execute, Copied;
    InvConfig(c, s);
    InvElement(c, s);
    var (k, element) := (s.producer.copied, s.producer.element);
    ExecuteStep(c, s, Copies(n));
    if n == 0 {
      t := s;
      NoneCopied(s.data, s.head + k);
    } else {
      InBounds(c, s);
      InvStep(c, s, Copy);
      var u := Next(c, s, Copy);
      t := CopyRun(c, u, n - 1);
      assert element[k..] == [element[k]] + element[k + 1..];
      CopiedFirst(s.data, u.data, t.data, s.head + k, element[k], element[k + 1..]);
    }
  }

  lemma ExecuteStep(c: Config, s: State, steps: seq<Step>)
    requires ConfigOk(c)
    ensures steps == [] ==> Execute(c, s, steps) == Some(s)
    ensures steps != [] && CanStep(c, s, steps[0]) ==>
              Execute(c, s, steps) == Execute(c, Next(c, s, steps[0]), steps[1..])
  {
    hide CanStep, Next;
  }

  lemma InvElement(c: Config, s: State)
    requires Inv(c, s) && s.producer.Copying?
    ensures |s.producer.element| == c.elementSize
  {
  }

  lemma CopiedFirst(s: seq<byte>, u: seq<byte>, t: seq<byte>, at: nat, b: byte, rest: seq<byte>)
    requires at + 1 + |rest| <= |s| && u == s[at := b] && Copied(u, t, at + 1, rest)
    ensures Copied(s, t, at, [b] + rest)
  {
    assert u[..at + 1] == s[..at] + [b] && u[at + 1 + |rest|..] == s[at + 1 + |rest|..];
    assert s[..at] + [b] + rest == s[..at] + ([b] + rest);
  }

  /** An attempt to emplace that sees the tail as it is, with nobody in between, does what Emplace does. */
  lemma EmplaceRun(c: Config, s: State, element: Element) returns (t: State)
    requires Inv(c, s) && s.producer.Free? && |element| == c.elementSize
    ensures |s.popped| <= |s.emplaced| && |s.popped| == |t.popped| <= |t.emplaced| && Inv(c, t)
    ensures Execute(c, s, [Check(element, |s.popped|)]
                          + if |Waiting(s)| < c.slots - 1 then Copies(c.elementSize) + [Publish] else []) == Some(t)
    ensures Waiting(t) == Emplaced(c.slots, Waiting(s), element)
    ensures t.tail == s.tail && t.producer == s.producer && t.consumer == s.consumer && t.popped == s.popped
    ensures |Waiting(s)| < c.slots - 1 ==>
              t.head == Advance(s.head, c.elementSize, Capacity(c)) && Copied(s.data, t.data, s.head, element)
    ensures |Waiting(s)| >= c.slots - 1 ==> t.head == s.head && t.data == s.data
  {
    hide Inv, CanStep, Execute, Copied, At, Advance;
    InvConfig(c, s);
    InvIndices(c, s);
    InBounds(c, s);
    var check := Check(element, |s.popped|);
    InvCheck(c, s, check);
    var u := Next(c, s, check);
    ExecuteOne(c, s, check);
    if |Waiting(s)| < c.slots - 1 {
      RoomInFront(c, u);
      var v := CopyRun(c, u, c.elementSize);
      InBounds(c, v);
      InvStep(c, v, Publish);
      t := Next(c, v, Publish);
      ExecuteOne(c, v, Publish);
      ExecuteConcat(c, u, Copies(c.elementSize), [Publish]);
      ExecuteConcat(c, s, [check], Copies(c.elementSize) + [Publish]);
      assert element[0..] == element;
      assert Waiting(t) == Waiting(s) + [element];
    } else {
      t := u;
      assert [check] + [] == [check];
    }
  }

  lemma RoomInFront(c: Config, s: State)
    requires Inv(c, s)
    ensures s.head + c.elementSize <= |s.data|
  {
    hide At, Queued;
    AtBounds(|s.emplaced|, c.slots, c.elementSize);
  }

  /** Asking for the front with the head as it is, and popping what was found, does what Front and Pop do. */
  lemma PopRun(c: Config, s: State) returns (t: State)
    requires Inv(c, s) && s.consumer.Idle?
    ensures |s.popped| <= |s.emplaced| && |t.popped| <= |s.emplaced| && Inv(c, t)
    ensures Execute(c, s, [Front(|s.emplaced|)] + if Waiting(s) != [] then [Pop] else []) == Some(t)
    ensures Next(c, s, Front(|s.emplaced|)).consumer == if Waiting(s) != [] then Holding(s.tail) else Idle
    ensures t.head == s.head && t.data == s.data && t.producer == s.producer && t.emplaced == s.emplaced
    ensures t.consumer.Idle?
    ensures Waiting(s) != [] ==>
              && Waiting(t) == Waiting(s)[1..] && t.popped == s.popped + [Waiting(s)[0]]
              && t.tail == Advance(s.tail, c.elementSize, Capacity(c))
    ensures Waiting(s) == [] ==> t.popped == s.popped && t.tail == s.tail
  {
    hide Inv, CanStep, Execute, At, Advance;
    InvConfig(c, s);
    InvIndices(c, s);
    InBounds(c, s);
    var front := Front(|s.emplaced|);
    InvFront(c, s, front);
    var u := Next(c, s, front);
    ExecuteOne(c, s, front);
    if Waiting(s) != [] {
      InBounds(c, u);
      InvStep(c, u, Pop);
      t := Next(c, u, Pop);
      InvIndices(c, t);
      ExecuteOne(c, u, Pop);
      ExecuteConcat(c, s, [front], [Pop]);
      assert t.popped == s.emplaced[..|s.popped| + 1] == s.popped + [s.emplaced[|s.popped|]];
    } else {
      t := u;
      assert [front] + [] == [front];
    }
  }

  /** A fresh queue with two places is not empty once it has been popped. */
  method PopFresh() returns (empty: bool)
    ensures !empty
  {
    hide At, Slot;
    var queue := new Queue(HEADER + 2, 1);
    queue.Pop();
    empty := queue.IsEmpty();
  }
}
