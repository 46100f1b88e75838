/**
 The runtime-capacity single-producer single-consumer ring of kv8scope.

 The concurrent part is a step machine: every atomic load, slot access and atomic store
 of `Push`, `Pop` and `PopBatch` is one step, and steps of the two threads interleave in
 any order.  Each thread keeps its own copies of what it loaded.  A load of the other
 thread's counter may return any value from the last one this thread saw up to the
 current one, so late visibility is part of the model.  Counters are natural numbers:
 they are taken never to reach 2^64.
 */
module SpscDynamicRing {
  import opened Bits
  import opened BoundedFifo
  import opened Options

  /** How much a pop call asks for: `Pop`, or `PopBatch` with its limit. */
  datatype Want = One | UpTo(max: nat)

  datatype Producer<T> =
    | Idle
    | Called(item: T)
    | KnowsHead(item: T, h: nat)
    | MayWrite(item: T, h: nat)
    | Wrote(item: T, h: nat)

  datatype Consumer<T> =
    | Resting
    | Asked(want: Want)
    | KnowsTail(want: Want, t: nat)
    | Reading(t: nat, n: nat, out: seq<T>)

  datatype Ring<T> = Ring(
    bits: nat,                     // capacity is 2^bits
    head: nat, tail: nat, buf: seq<T>,
    producer: Producer<T>, consumer: Consumer<T>,
    seenTail: nat, seenHead: nat,  // newest value each thread has loaded from the other
    accepted: seq<T>, dropped: nat, attempted: nat, batches: seq<seq<T>>)
  {
    function Capacity(): nat { Pow2(bits) }
    function Taken(): seq<T> { Flatten(batches) }

    /** Enough for every step to be well defined: the unsigned difference that
        `PopBatch` takes does not wrap. */
    ghost predicate Shaped() {
      |buf| == Capacity() && (consumer.KnowsTail? ==> consumer.t <= seenHead)
    }
  }

  datatype Step<T> =
    | CallPush(item: T) | LoadOwnHead | LoadTail(v: nat) | WriteSlot | StoreHead
    | CallPop(want: Want) | LoadOwnTail | LoadHead(v: nat) | ReadSlot | StoreTail

  /** One step, or None when the thread is not at that point of its code. */
  function Do<T>(s: Ring<T>, step: Step<T>): Option<Ring<T>>
    requires s.Shaped()
  {
    match step
    case CallPush(x) =>
      if s.producer.Idle? then Some(s.(producer := Called(x), attempted := s.attempted + 1)) else None
    case LoadOwnHead =>
      if s.producer.Called? then Some(s.(producer := KnowsHead(s.producer.item, s.head))) else None
    case LoadTail(v) =>
      if !s.producer.KnowsHead? || !(s.seenTail <= v <= s.tail) then None
      else if s.producer.h - v >= s.Capacity() then
        Some(s.(producer := Idle, seenTail := v, dropped := s.dropped + 1))
      else
        Some(s.(producer := MayWrite(s.producer.item, s.producer.h), seenTail := v))
    case WriteSlot =>
      if !s.producer.MayWrite? then None
      else Some(s.(producer := Wrote(s.producer.item, s.producer.h),
                   buf := s.buf[Masked(s.producer.h, s.bits) := s.producer.item]))
    case StoreHead =>
      if !s.producer.Wrote? then None
      else Some(s.(producer := Idle, head := s.producer.h + 1, accepted := s.accepted + [s.producer.item]))
    case CallPop(want) =>
      if s.consumer.Resting? then Some(s.(consumer := Asked(want))) else None
    case LoadOwnTail =>
      if s.consumer.Asked? then Some(s.(consumer := KnowsTail(s.consumer.want, s.tail))) else None
    case LoadHead(v) =>
      if !s.consumer.KnowsTail? || !(s.seenHead <= v <= s.head) then None
      else
        var t, want := s.consumer.t, s.consumer.want;
        if want.One? then
          Some(s.(consumer := if t >= v then Resting else Reading(t, 1, []), seenHead := v))
        else if v - t == 0 then
          Some(s.(consumer := Resting, seenHead := v))
        else
          Some(s.(consumer := Reading(t, if v - t < want.max then v - t else want.max, []), seenHead := v))
    case ReadSlot =>
      if !s.consumer.Reading? || |s.consumer.out| >= s.consumer.n then None
      else
        var out := s.consumer.out;
        Some(s.(consumer := s.consumer.(out := out + [s.buf[Masked(s.consumer.t + |out|, s.bits)]])))
    case StoreTail =>
      if !s.consumer.Reading? || |s.consumer.out| < s.consumer.n then None
      else Some(s.(consumer := Resting, tail := s.consumer.t + s.consumer.n, batches := s.batches + [s.consumer.out]))
  }

  function Fresh<T>(bits: nat, zero: T): (r: Ring<T>)
    ensures Inv(r)
  {
    Ring(bits, 0, 0, seq(Pow2(bits), _ => zero), Idle, Resting, 0, 0, [], 0, 0, [])
  }

  /** What holds between any two steps, whatever the interleaving. */
  ghost predicate Inv<T>(s: Ring<T>) {
    Counted(s) && ProducerAt(s) && ConsumerAt(s) && Stored(s)
  }

  ghost predicate Counted<T>(s: Ring<T>) {
    && |s.buf| == s.Capacity()
    && s.head == |s.accepted| && s.tail == |s.Taken()| && s.Taken() <= s.accepted
    && s.seenTail <= s.tail <= s.seenHead <= s.head <= s.seenTail + s.Capacity()
    && s.attempted == |s.accepted| + s.dropped + (if s.producer.Idle? then 0 else 1)
  }

  ghost predicate ProducerAt<T>(s: Ring<T>)
    requires Counted(s)
  {
    match s.producer
    case KnowsHead(_, h) => h == s.head
    case MayWrite(_, h) => h == s.head < s.seenTail + s.Capacity()
    case Wrote(x, h) => h == s.head < s.seenTail + s.Capacity() && s.buf[h % s.Capacity()] == x
    case _ => true
  }

  ghost predicate ConsumerAt<T>(s: Ring<T>)
    requires Counted(s)
  {
    match s.consumer
    case KnowsTail(_, t) => t == s.tail
    case Reading(t, n, out) => t == s.tail && t + n <= s.seenHead && |out| <= n && out == s.accepted[t..t + |out|]
    case _ => true
  }

  /** Every unread item is in its slot. */
  ghost predicate Stored<T>(s: Ring<T>)
    requires Counted(s)
  {
    forall k :: s.tail <= k < s.head ==> s.buf[k % s.Capacity()] == s.accepted[k]
  }

  /** The slot about to be written holds no unread item. */
  lemma WriteMissesUnread<T>(s: Ring<T>, k: nat)
    requires Inv(s) && s.producer.MayWrite? && s.tail <= k < s.head
    ensures Masked(k, s.bits) != Masked(s.producer.h, s.bits)
  {
    ResiduesDistinct(k, s.producer.h, s.Capacity());
  }

  lemma WriteKeepsInv<T>(s: Ring<T>)
    requires Inv(s) && s.producer.MayWrite?
    ensures Inv(Do(s, WriteSlot).value)
  {
    var s' := Do(s, WriteSlot).value;
    forall k | s.tail <= k < s.head ensures s'.buf[k % s.Capacity()] == s.accepted[k] {
      WriteMissesUnread(s, k);
    }
  }

  lemma StoreTailKeepsInv<T>(s: Ring<T>)
    requires Inv(s) && s.consumer.Reading? && |s.consumer.out| == s.consumer.n
    ensures Inv(Do(s, StoreTail).value)
  {
    FlattenAdd(s.batches, s.consumer.out);
  }

  lemma StoreHeadKeepsInv<T>(s: Ring<T>)
    requires Inv(s) && s.producer.Wrote?
    ensures Inv(Do(s, StoreHead).value)
  {
    var s' := Do(s, StoreHead).value;
    assert s.accepted <= s'.accepted;
  }

  lemma ReadKeepsInv<T>(s: Ring<T>)
    requires Inv(s) && s.consumer.Reading? && |s.consumer.out| < s.consumer.n
    ensures Inv(Do(s, ReadSlot).value)
  {
    var k := s.consumer.t + |s.consumer.out|;
    assert s.accepted[s.consumer.t..k + 1] == s.accepted[s.consumer.t..k] + [s.accepted[k]];
  }

  lemma ProducerKeepsInv<T>(s: Ring<T>, step: Step<T>)
    requires step.CallPush? || step.LoadOwnHead? || step.LoadTail?
    requires Inv(s) && Do(s, step).Some?
    ensures Inv(Do(s, step).value)
  {
  }

  lemma ConsumerKeepsInv<T>(s: Ring<T>, step: Step<T>)
    requires step.CallPop? || step.LoadOwnTail? || step.LoadHead?
    requires Inv(s) && Do(s, step).Some?
    ensures Inv(Do(s, step).value)
  {
    hide Masked, Flatten;
    if step.CallPop? { } else if step.LoadOwnTail? { } else { }
  }

  lemma StepKeepsInv<T>(s: Ring<T>, step: Step<T>)
    requires Inv(s) && Do(s, step).Some?
    ensures Inv(Do(s, step).value)
  {
    if step.WriteSlot? { WriteKeepsInv(s); }
    else if step.StoreHead? { StoreHeadKeepsInv(s); }
    else if step.ReadSlot? { ReadKeepsInv(s); }
    else if step.StoreTail? { StoreTailKeepsInv(s); }
    else if step.CallPush? || step.LoadOwnHead? || step.LoadTail? { ProducerKeepsInv(s, step); }
    else { ConsumerKeepsInv(s, step); }
  }

  /** An interleaving: the steps of both threads in the order they happened. */
  ghost function Run<T>(s: Ring<T>, steps: seq<Step<T>>): Option<Ring<T>>
    requires Inv(s)
    decreases |steps|
  {
    if steps == [] then Some(s)
    else if Do(s, steps[0]).None? then None
    else
      StepKeepsInv(s, steps[0]);
      Run(Do(s, steps[0]).value, steps[1..])
  }

  /** Safety of every interleaving from the empty ring. */
  lemma {:induction false} RunKeepsInv<T>(s: Ring<T>, steps: seq<Step<T>>)
    requires Inv(s) && Run(s, steps).Some?
    ensures Inv(Run(s, steps).value) && Run(s, steps).value.bits == s.bits
    decreases |steps|
  {
    if steps != [] {
      StepKeepsInv(s, steps[0]);
      RunKeepsInv(Do(s, steps[0]).value, steps[1..]);
    }
  }

  lemma EveryInterleavingIsSafe<T>(bits: nat, zero: T, steps: seq<Step<T>>)
    requires Run(Fresh(bits, zero), steps).Some?
    ensures var s := Run(Fresh(bits, zero), steps).value;
      && 0 <= s.head - s.tail <= Pow2(bits)
      && s.Taken() <= s.accepted && |s.Taken()| == s.tail && |s.accepted| == s.head
      && s.attempted == |s.accepted| + s.dropped + (if s.producer.Idle? then 0 else 1)
  {
    RunKeepsInv(Fresh(bits, zero), steps);
  }

  /** While the producer may write and the consumer is still reading, they are on different slots. */
  lemma NoSlotIsShared<T>(s: Ring<T>, i: nat)
    requires Inv(s) && s.producer.MayWrite? && s.consumer.Reading? && |s.consumer.out| <= i < s.consumer.n
    ensures Masked(s.consumer.t + i, s.bits) != Masked(s.producer.h, s.bits)
  {
    WriteMissesUnread(s, s.consumer.t + i);
  }

  // ----- The ring is a bounded queue ----------------------------------------------

  function Abs<T>(s: Ring<T>): Fifo<T>
    requires s.tail <= |s.accepted|
  {
    Fifo(s.accepted[s.tail..], s.Capacity())
  }

  /** The queue event a step stands for: everything happens at the two releasing stores. */
  function EventOf<T>(s: Ring<T>, step: Step<T>): Event<T> {
    if step.StoreHead? && s.producer.Wrote? then Enqueue(s.producer.item)
    else if step.StoreTail? && s.consumer.Reading? then Dequeue(s.consumer.out)
    else Silent
  }

  lemma RefinesFifo<T>(s: Ring<T>, step: Step<T>)
    requires Inv(s) && Do(s, step).Some?
    ensures var s' := Do(s, step).value;
      Inv(s') && Steps(Abs(s), EventOf(s, step), Abs(s'))
  {
    StepKeepsInv(s, step);
    if step.StoreTail? {
      StoreTailDequeues(s);
    } else if step.StoreHead? {
      StoreHeadEnqueues(s);
    } else {
      OthersAreSilent(s, step);
      hide Do, Inv;
      assert EventOf(s, step) == Silent;
    }
  }

  lemma StoreTailDequeues<T>(s: Ring<T>)
    requires Inv(s) && Do(s, StoreTail).Some?
    ensures s.consumer.Reading? && Do(s, StoreTail).value.tail <= |Do(s, StoreTail).value.accepted|
    ensures Steps(Abs(s), Dequeue(s.consumer.out), Abs(Do(s, StoreTail).value))
  {
    var t, n := s.tail, |s.consumer.out|;
    assert s.accepted[t..][..n] == s.accepted[t..t + n];
    assert s.accepted[t..][n..] == s.accepted[t + n..];
  }

  lemma StoreHeadEnqueues<T>(s: Ring<T>)
    requires Inv(s) && Do(s, StoreHead).Some?
    ensures s.producer.Wrote? && s.tail <= |Do(s, StoreHead).value.accepted|
    ensures Steps(Abs(s), Enqueue(s.producer.item), Abs(Do(s, StoreHead).value))
  {
    assert Do(s, StoreHead).value.accepted[s.tail..] == s.accepted[s.tail..] + [s.producer.item];
  }

  lemma OthersAreSilent<T>(s: Ring<T>, step: Step<T>)
    requires !step.StoreTail? && !step.StoreHead? && s.Shaped() && Do(s, step).Some?
    ensures var s' := Do(s, step).value; s'.bits == s.bits && s'.accepted == s.accepted && s'.tail == s.tail
  {
    hide Masked;
  }

  /** A push is refused exactly when the tail it loaded showed a full ring; with an up to
      date load that is exactly when the queue is full. */
  lemma PushFailsOnlyWhenFull<T>(s: Ring<T>, v: nat)
    requires Inv(s) && s.producer.KnowsHead? && s.seenTail <= v <= s.tail
    ensures var s' := Do(s, LoadTail(v)).value;
      && (s'.dropped == s.dropped + 1 <==> |s.accepted[v..]| == s.Capacity())
      && (s'.dropped == s.dropped <==> s'.producer.MayWrite?)
      && (v == s.tail ==> (s'.dropped == s.dropped + 1 <==> |Abs(s).items| == s.Capacity()))
  {
  }

  /** A pop gives up exactly when the head it loaded showed an empty ring, and otherwise
      sets out to take as much as asked for and shown. */
  lemma PopFailsOnlyWhenEmpty<T>(s: Ring<T>, v: nat)
    requires Inv(s) && s.consumer.KnowsTail? && s.seenHead <= v <= s.head
    ensures var s', shown := Do(s, LoadHead(v)).value, s.accepted[s.tail..v];
      && (s'.consumer.Resting? <==> shown == [])
      && (shown != [] ==>
           && s'.consumer.Reading?
           && s'.consumer.n == (if s.consumer.want.One? then 1 else Min(|shown|, s.consumer.want.max)))
      && (v == s.head ==> (s'.consumer.Resting? <==> Abs(s).items == []))
  {
  }

  // ----- The object, used from one thread at a time ------------------------------------

  function Unread<T>(buf: seq<T>, head: nat, tail: nat): (r: seq<T>)
    requires tail <= head && (tail < head ==> buf != [])
  {
    seq(head - tail, i requires 0 <= i < head - tail => buf[(tail + i) % |buf|])
  }

  function SizeSeen(head: nat, tail: nat): nat { if head >= tail then head - tail else 0 }

  /** `Size` on the reader thread, from a possibly old head, never exceeds the queue. */
  lemma SizeNeverOverstates<T>(s: Ring<T>, v: nat)
    requires Inv(s) && s.seenHead <= v <= s.head
    ensures SizeSeen(v, s.tail) <= |Abs(s).items|
    ensures SizeSeen(v, s.tail) == |Abs(s).items| <==> v == s.head
  {
  }

  lemma BelowWord(c: nat)
    requires 0 < c <= WORD
    ensures (c + WORD - 1) % WORD == c - 1
  {
    assert c + WORD - 1 == 1 * WORD + (c - 1);
    ModUnique(c + WORD - 1, WORD, 1, c - 1);
  }

  /** The ring as an object.  Each method runs its steps without interruption. */
  class SpscDynamicRing<T(0)> {
    var head: nat
    var tail: nat
    const data: array<T>
    const capacity: nat
    const mask: nat
    ghost const bits: nat

    ghost predicate Valid()
      reads this, data
    {
      && capacity == data.Length && tail <= head <= tail + capacity
      && (capacity == 0 || (capacity == Pow2(bits) && mask == capacity - 1))
    }

    ghost function Contents(): (r: seq<T>)
      requires Valid()
      reads this, data
    {
      Unread(data[..], head, tail)
    }

    /** A 64-bit request.  Above 2^63 the rounding wraps around and the ring has no slot at all. */
    constructor (requested: nat)
      requires requested < WORD
      ensures Valid() && fresh(data) && Contents() == []
      ensures requested == 0 ==> capacity == 1
      ensures 0 < requested <= WORD / 2 ==> IsLeastPow2(capacity, requested)
      ensures requested > WORD / 2 ==> capacity == 0
    {
      var c := NextPow2(requested);
      ghost var k: nat := 0;
      if 0 < requested <= WORD / 2 { k :| c == Pow2(k); }
      data, capacity, mask, bits := new T[c], c, (c + WORD - 1) % WORD, k;
      if c > 0 { BelowWord(c); }
      head, tail := 0, 0;
    }

    method Push(item: T) returns (ok: bool)
      requires Valid()
      modifies this`head, data
      ensures Valid() && tail == old(tail)
      ensures ok == (|old(Contents())| < capacity)
      ensures Contents() == if ok then old(Contents()) + [item] else old(Contents())
    {
      if head - tail >= capacity { return false; }
      forall k | tail <= k < head ensures k % capacity != head % capacity { ResiduesDistinct(k, head, capacity); }
      MaskIsMod(head, bits);
      data[And(head, mask)] := item;
      head := head + 1;
      assert Contents() == old(Contents()) + [item];
      ok := true;
    }

    method Pop() returns (item: Option<T>)
      requires Valid()
      modifies this`tail
      ensures Valid() && head == old(head)
      ensures item.None? <==> old(Contents()) == []
      ensures item.Some? ==> old(Contents()) == [item.value] + Contents()
    {
      if tail >= head { return None; }
      MaskIsMod(tail, bits);
      item := Some(data[And(tail, mask)]);
      tail := tail + 1;
    }

    method PopBatch(out: array<T>, maxCount: nat) returns (n: nat)
      requires Valid() && maxCount <= out.Length && out != data
      modifies this`tail, out
      ensures Valid() && head == old(head)
      ensures n == Min(|old(Contents())|, maxCount)
      ensures old(Contents()) == out[..n] + Contents()
      ensures forall k :: n <= k < out.Length ==> out[k] == old(out[k])
    {
      var avail := head - tail;
      if avail == 0 { return 0; }
      n := if avail < maxCount then avail else maxCount;
      CopyOut(out, n);
      tail := tail + n;
    }

    /** Copy the first `n` items. */
    method CopyOut(out: array<T>, n: nat)
      requires Valid() && n <= head - tail && n <= out.Length && out != data
      modifies out
      ensures out[..n] == Contents()[..n]
      ensures forall k :: n <= k < out.Length ==> out[k] == old(out[k])
    {
      hide And;
      for i := 0 to n
        invariant forall k :: 0 <= k < i ==> out[k] == Contents()[k]
        invariant forall k :: i <= k < out.Length ==> out[k] == old(out[k])
      {
        MaskIsMod(tail + i, bits);
        out[i] := data[And(tail + i, mask)];
      }
    }
  }
}
