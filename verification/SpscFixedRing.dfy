/**
 The compile-time-capacity ring of kv8zoom: indices are kept masked and one slot always
 stays empty, so N slots hold at most N - 1 items.

 The steps interleave as in the other ring.  The indices no longer count, so the model
 records the whole history of the current epoch: `accepted` and `taken` give every masked
 index an absolute position.  A load of the other thread's index returns the masked form
 of some position between the last one seen and the current one.
 */
module SpscFixedRing {
  import opened Bits
  import opened BoundedFifo
  import opened Options

  datatype Producer<T> =
    | Idle | Called(item: T) | KnowsTail(item: T, t: nat) | MayWrite(item: T, t: nat) | Wrote(item: T, t: nat)

  datatype Consumer<T> =
    | Resting | Asked | KnowsHead(h: nat) | MayRead(h: nat) | Read(h: nat, item: T)

  datatype Ring<T> = Ring(
    bits: nat,                      // N is 2^bits
    head: nat, tail: nat, buf: seq<T>,
    producer: Producer<T>, consumer: Consumer<T>,
    seenHead: nat, seenTail: nat,   // absolute positions each thread last loaded
    accepted: seq<T>, taken: seq<T>)
  {
    function N(): nat { Pow2(bits) }
  }

  datatype Step<T> =
    | CallPush(item: T) | LoadOwnTail | LoadHead(k: nat) | WriteSlot | StoreTail
    | CallPop | LoadOwnHead | LoadTail(k: nat) | ReadSlot | StoreHead
    | Clear

  function Do<T>(s: Ring<T>, step: Step<T>): Option<Ring<T>>
    requires |s.buf| == s.N()
  {
    match step
    case CallPush(x) =>
      if s.producer.Idle? then Some(s.(producer := Called(x))) else None
    case LoadOwnTail =>
      if s.producer.Called? then Some(s.(producer := KnowsTail(s.producer.item, s.tail))) else None
    case LoadHead(k) =>
      if !s.producer.KnowsTail? || !(s.seenHead <= k <= |s.taken|) then None
      else if Masked(s.producer.t + 1, s.bits) == k % s.N() then Some(s.(producer := Idle, seenHead := k))
      else Some(s.(producer := MayWrite(s.producer.item, s.producer.t), seenHead := k))
    case WriteSlot =>
      if !s.producer.MayWrite? || s.producer.t >= s.N() then None
      else Some(s.(producer := Wrote(s.producer.item, s.producer.t), buf := s.buf[s.producer.t := s.producer.item]))
    case StoreTail =>
      if !s.producer.Wrote? then None
      else Some(s.(producer := Idle, tail := Masked(s.producer.t + 1, s.bits),
                     accepted := s.accepted + [s.producer.item]))
    case CallPop =>
      if s.consumer.Resting? then Some(s.(consumer := Asked)) else None
    case LoadOwnHead =>
      if s.consumer.Asked? then Some(s.(consumer := KnowsHead(s.head))) else None
    case LoadTail(k) =>
      if !s.consumer.KnowsHead? || !(s.seenTail <= k <= |s.accepted|) then None
      else if s.consumer.h == k % s.N() then Some(s.(consumer := Resting, seenTail := k))
      else Some(s.(consumer := MayRead(s.consumer.h), seenTail := k))
    case ReadSlot =>
      if !s.consumer.MayRead? || s.consumer.h >= s.N() then None
      else Some(s.(consumer := Read(s.consumer.h, s.buf[s.consumer.h])))
    case StoreHead =>
      if !s.consumer.Read? then None
      else Some(s.(consumer := Resting, head := Masked(s.consumer.h + 1, s.bits), taken := s.taken + [s.consumer.item]))
    case Clear =>  // both threads stopped: a new epoch begins
      if !s.producer.Idle? || !s.consumer.Resting? then None
      else Some(s.(head := 0, tail := 0, seenHead := 0, seenTail := 0, accepted := [], taken := []))
  }

  function Fresh<T>(bits: nat, zero: T): (r: Ring<T>)
    requires bits >= 1
    ensures Inv(r)
  {
    Ring(bits, 0, 0, seq(Pow2(bits), _ => zero), Idle, Resting, 0, 0, [], [])
  }

  ghost predicate Inv<T>(s: Ring<T>) {
    Counted(s) && ProducerAt(s) && ConsumerAt(s) && Stored(s)
  }

  /** The masked indices are the positions modulo N, and at most N - 1 items are in. */
  ghost predicate Counted<T>(s: Ring<T>) {
    && s.bits >= 1 && |s.buf| == s.N() >= 2
    && s.tail == |s.accepted| % s.N() && s.head == |s.taken| % s.N()
    && s.taken <= s.accepted
    && s.seenHead <= |s.taken| <= s.seenTail <= |s.accepted| <= s.seenHead + s.N() - 1
  }

  ghost predicate ProducerAt<T>(s: Ring<T>)
    requires Counted(s)
  {
    match s.producer
    case KnowsTail(_, t) => t == s.tail
    case MayWrite(_, t) => t == s.tail && |s.accepted| < s.seenHead + s.N() - 1
    case Wrote(x, t) => t == s.tail && |s.accepted| < s.seenHead + s.N() - 1 && s.buf[t] == x
    case _ => true
  }

  ghost predicate ConsumerAt<T>(s: Ring<T>)
    requires Counted(s)
  {
    match s.consumer
    case KnowsHead(h) => h == s.head
    case MayRead(h) => h == s.head && |s.taken| < s.seenTail
    case Read(h, x) => h == s.head && |s.taken| < s.seenTail && x == s.accepted[|s.taken|]
    case _ => true
  }

  ghost predicate Stored<T>(s: Ring<T>)
    requires Counted(s)
  {
    forall k :: |s.taken| <= k < |s.accepted| ==> s.buf[k % s.N()] == s.accepted[k]
  }

  lemma ModStep(a: nat, n: nat)
    requires n > 0
    ensures (a % n + 1) % n == (a + 1) % n
  {
    Successor(a, n, a / n, a % n);
  }

  lemma Successor(a: nat, n: nat, q: nat, r: nat)
    requires n > 0 && a == q * n + r && r < n
    ensures (r + 1) % n == (a + 1) % n
  {
    if r + 1 == n {
      ModUnique(a + 1, n, q + 1, 0);
      ModUnique(n, n, 1, 0);
    } else {
      ModUnique(a + 1, n, q, r + 1);
      ModUnique(r + 1, n, 0, r + 1);
    }
  }

  /** Positions a <= b at most n - 1 apart: equal residues mean equal positions, and the
      residue after b meets a exactly when they are n - 1 apart. */
  lemma ResiduesTell(a: nat, b: nat, n: nat)
    requires n >= 2 && a <= b <= a + n - 1
    ensures a % n == b % n <==> a == b
    ensures (b % n + 1) % n == a % n <==> b == a + n - 1
  {
    if a < b { ResiduesDistinct(a, b, n); }
    ModStep(b, n);
    if b + 1 < a + n {
      ResiduesDistinct(a, b + 1, n);
    } else {
      ModUnique(a + n, n, a / n + 1, a % n);
    }
  }

  lemma WriteKeepsInv<T>(s: Ring<T>)
    requires Inv(s) && s.producer.MayWrite?
    ensures Inv(Do(s, WriteSlot).value)
  {
    var s' := Do(s, WriteSlot).value;
    forall k | |s.taken| <= k < |s.accepted| ensures s'.buf[k % s.N()] == s.accepted[k] {
      ResiduesDistinct(k, |s.accepted|, s.N());
    }
  }

  lemma StoresKeepInv<T>(s: Ring<T>, step: Step<T>)
    requires Inv(s) && (step.StoreTail? || step.StoreHead?) && Do(s, step).Some?
    ensures Inv(Do(s, step).value)
  {
    if step.StoreTail? {
      ModStep(|s.accepted|, s.N());
      assert s.accepted <= Do(s, step).value.accepted;
    } else {
      ModStep(|s.taken|, s.N());
    }
  }

  lemma LoadsKeepInv<T>(s: Ring<T>, step: Step<T>)
    requires Inv(s) && (step.LoadHead? || step.LoadTail?) && Do(s, step).Some?
    ensures Inv(Do(s, step).value)
  {
    if step.LoadHead? { ResiduesTell(step.k, |s.accepted|, s.N()); } else { ResiduesTell(|s.taken|, step.k, s.N()); }
  }

  lemma OthersKeepInv<T>(s: Ring<T>, step: Step<T>)
    requires step.CallPush? || step.CallPop? || step.LoadOwnTail? || step.LoadOwnHead? || step.ReadSlot? || step.Clear?
    requires Inv(s) && Do(s, step).Some?
    ensures Inv(Do(s, step).value)
  {
  }

  lemma StepKeepsInv<T>(s: Ring<T>, step: Step<T>)
    requires Inv(s) && Do(s, step).Some?
    ensures Inv(Do(s, step).value)
  {
    if step.WriteSlot? { WriteKeepsInv(s); }
    else if step.StoreTail? || step.StoreHead? { StoresKeepInv(s, step); }
    else if step.LoadHead? || step.LoadTail? { LoadsKeepInv(s, step); }
    else { OthersKeepInv(s, step); }
  }

  ghost function Run<T>(s: Ring<T>, steps: seq<Step<T>>): Option<Ring<T>>
    requires Inv(s)
    decreases |steps|
  {
    if steps == [] then Some(s)
    else if Do(s, steps[0]).None? then None
    else
      StepKeepsInv(s, steps[0]);
      Run(Do(s, steps[0]).value, steps[1..])
  }

  lemma {:induction false} RunKeepsInv<T>(s: Ring<T>, steps: seq<Step<T>>)
    requires Inv(s) && Run(s, steps).Some?
    ensures Inv(Run(s, steps).value) && Run(s, steps).value.bits == s.bits
    decreases |steps|
  {
    if steps != [] {
      StepKeepsInv(s, steps[0]);
      RunKeepsInv(Do(s, steps[0]).value, steps[1..]);
    }
  }

  // ----- The ring is a bounded queue of capacity N - 1 ----------------------------------

  function Abs<T>(s: Ring<T>): Fifo<T>
    requires |s.taken| <= |s.accepted|
  {
    Fifo(s.accepted[|s.taken|..], s.N() - 1)
  }

  function EventOf<T>(s: Ring<T>, step: Step<T>): Event<T> {
    if step.StoreTail? && s.producer.Wrote? then Enqueue(s.producer.item)
    else if step.StoreHead? && s.consumer.Read? then Dequeue([s.consumer.item])
    else if step.Clear? then Reset
    else Silent
  }

  lemma StoreTailEnqueues<T>(s: Ring<T>)
    requires Inv(s) && s.producer.Wrote?
    ensures Steps(Abs(s), Enqueue(s.producer.item), Abs(Do(s, StoreTail).value))
  {
    var x := s.producer.item;
    assert (s.accepted + [x])[|s.taken|..] == s.accepted[|s.taken|..] + [x];
  }

  lemma StoreHeadDequeues<T>(s: Ring<T>)
    requires Inv(s) && s.consumer.Read?
    ensures Inv(Do(s, StoreHead).value)
    ensures Steps(Abs(s), Dequeue([s.consumer.item]), Abs(Do(s, StoreHead).value))
  {
    StepKeepsInv(s, StoreHead);
    assert s.accepted[|s.taken|..][1..] == s.accepted[|s.taken| + 1..];
  }

  lemma OthersAreSilent<T>(s: Ring<T>, step: Step<T>)
    requires !step.StoreTail? && !step.StoreHead? && !step.Clear?
    requires |s.buf| == s.N() && Do(s, step).Some?
    ensures var s' := Do(s, step).value; s'.bits == s.bits && s'.accepted == s.accepted && s'.taken == s.taken
  {
  }

  lemma RefinesFifo<T>(s: Ring<T>, step: Step<T>)
    requires Inv(s) && Do(s, step).Some?
    ensures var s' := Do(s, step).value;
      Inv(s') && Steps(Abs(s), EventOf(s, step), Abs(s'))
  {
    StepKeepsInv(s, step);
    if step.StoreTail? { StoreTailEnqueues(s); }
    else if step.StoreHead? { StoreHeadDequeues(s); }
    else if !step.Clear? { OthersAreSilent(s, step); }
  }

  /** What every interleaving keeps: items come out in the order they went in, none is lost
      or made up, and never more than N - 1 are inside. */
  lemma EveryInterleavingIsSafe<T>(bits: nat, zero: T, steps: seq<Step<T>>)
    requires 1 <= bits <= 64 && Run(Fresh(bits, zero), steps).Some?
    ensures var s := Run(Fresh(bits, zero), steps).value;
      && s.taken <= s.accepted && |Abs(s).items| <= Pow2(bits) - 1
      && s.head < Pow2(bits) && s.tail < Pow2(bits)
      && SizeApprox(s.tail, s.head, bits) == |Abs(s).items|
  {
    RunKeepsInv(Fresh(bits, zero), steps);
    SizeIsQueueLength(Run(Fresh(bits, zero), steps).value);
  }

  /** `push` is refused exactly when the head it loaded showed N - 1 items inside. */
  lemma PushFailsOnlyWhenFull<T>(s: Ring<T>, k: nat)
    requires Inv(s) && s.producer.KnowsTail? && s.seenHead <= k <= |s.taken|
    ensures var s' := Do(s, LoadHead(k)).value;
      && (s'.producer.Idle? <==> |s.accepted[k..]| == s.N() - 1)
      && (!s'.producer.Idle? <==> s'.producer.MayWrite?)
      && (k == |s.taken| ==> (s'.producer.Idle? <==> |Abs(s).items| == s.N() - 1))
  {
    ResiduesTell(k, |s.accepted|, s.N());
  }

  /** `pop` is refused exactly when the tail it loaded showed nothing inside. */
  lemma PopFailsOnlyWhenEmpty<T>(s: Ring<T>, k: nat)
    requires Inv(s) && s.consumer.KnowsHead? && s.seenTail <= k <= |s.accepted|
    ensures var s' := Do(s, LoadTail(k)).value;
      && (s'.consumer.Resting? <==> s.accepted[|s.taken|..k] == [])
      && (!s'.consumer.Resting? <==> s'.consumer.MayRead?)
      && (k == |s.accepted| ==> (s'.consumer.Resting? <==> Abs(s).items == []))
  {
    ResiduesTell(|s.taken|, k, s.N());
  }

  /** While one thread is writing its slot and the other reading, the slots differ. */
  lemma NoSlotIsShared<T>(s: Ring<T>)
    requires Inv(s) && s.producer.MayWrite? && s.consumer.MayRead?
    ensures s.producer.t != s.consumer.h
  {
    ResiduesDistinct(|s.taken|, |s.accepted|, s.N());
  }

  /** `(tail - head) & kMask` in unsigned 64-bit arithmetic. */
  function SizeApprox(tail: nat, head: nat, bits: nat): nat {
    Masked((tail - head) % WORD, bits)
  }

  lemma ModOfMod(x: int, n: nat, m: nat)
    requires n > 0 && m > 0
    ensures x % (n * m) % n == x % n
  {
    var r, q := x % (n * m), x / (n * m);
    assert x == q * (n * m) + r;
    assert q * (n * m) == (q * m) * n;
    ModUnique(x, n, q * m + r / n, r % n);
  }

  /** The masked difference of the indices is the queue length. */
  lemma SizeIsQueueLength<T>(s: Ring<T>)
    requires Inv(s) && s.bits <= 64
    ensures SizeApprox(s.tail, s.head, s.bits) == |Abs(s).items|
  {
    var n := s.N();
    WordIsPow2();
    Pow2Adds(s.bits, 64 - s.bits);
    ModOfMod(s.tail - s.head, n, Pow2(64 - s.bits));
    DifferenceOfResidues(|s.taken|, |s.accepted|, n);
  }

  lemma DifferenceOfResidues(a: nat, b: nat, n: nat)
    requires n > 0 && a <= b < a + n
    ensures (b % n - a % n) % n == b - a
  {
    var q := b / n - a / n;
    assert b % n - a % n == -q * n + (b - a);
    ModUnique(b % n - a % n, n, -q, b - a);
  }

  // ----- The object, used from one thread at a time ------------------------------------

  /** Items from `head` up to `tail`, going round the buffer. */
  function Inside<T>(buf: seq<T>, head: nat, tail: nat): seq<T>
    requires head < |buf| && tail < |buf|
  {
    if head <= tail then buf[head..tail] else buf[head..] + buf[..tail]
  }

  /** The masked successor is one slot further round. */
  lemma NextSlot(i: nat, bits: nat)
    requires i < Pow2(bits)
    ensures Masked(i + 1, bits) == if i + 1 == Pow2(bits) then 0 else i + 1
  {
    if i + 1 == Pow2(bits) { ModUnique(i + 1, Pow2(bits), 1, 0); } else { ModUnique(i + 1, Pow2(bits), 0, i + 1); }
  }

  class SpscFixedRing<T(0)> {
    var head: nat
    var tail: nat
    const buf: array<T>
    const bits: nat

    ghost predicate Valid()
      reads this
    {
      1 <= bits <= 64 && buf.Length == Pow2(bits) && head < buf.Length && tail < buf.Length
    }

    ghost function Contents(): seq<T>
      requires Valid()
      reads this, buf
    {
      Inside(buf[..], head, tail)
    }

    constructor (bits: nat)
      requires 1 <= bits <= 64
      ensures Valid() && this.bits == bits && fresh(buf) && Contents() == []
    {
      this.bits, buf := bits, new T[Pow2(bits)];
      head, tail := 0, 0;
    }

    method Push(item: T) returns (ok: bool)
      requires Valid()
      modifies this`tail, buf
      ensures Valid() && head == old(head)
      ensures ok == (|old(Contents())| < buf.Length - 1)
      ensures Contents() == if ok then old(Contents()) + [item] else old(Contents())
    {
      NextSlot(tail, bits);
      var next := Masked(tail + 1, bits);
      if next == head { return false; }
      buf[tail] := item;
      tail := next;
      ok := true;
    }

    method Pop() returns (item: Option<T>)
      requires Valid()
      modifies this`head
      ensures Valid() && tail == old(tail)
      ensures item.None? <==> old(Contents()) == []
      ensures item.Some? ==> old(Contents()) == [item.value] + Contents()
    {
      if head == tail { return None; }
      NextSlot(head, bits);
      item := Some(buf[head]);
      head := Masked(head + 1, bits);
    }

    method SizeNow() returns (n: nat)
      requires Valid()
      ensures n == |Contents()|
    {
      var N := buf.Length;
      WordIsPow2();
      Pow2Adds(bits, 64 - bits);
      ModOfMod(tail - head, N, Pow2(64 - bits));
      ModUnique(tail - head, N, if tail < head then -1 else 0, |Contents()|);
      n := SizeApprox(tail, head, bits);
    }

    method Clear()
      requires Valid()
      modifies this
      ensures Valid() && Contents() == []
    {
      head, tail := 0, 0;
    }
  }
}
