/**
 The abstract queue both lock-free rings implement: a sequence of at most `capacity`
 items, appended to on one side and taken from on the other.
 */
module BoundedFifo {
  datatype Fifo<T> = Fifo(items: seq<T>, capacity: nat)

  datatype Event<T> = Silent | Enqueue(item: T) | Dequeue(taken: seq<T>) | Reset

  /** `g` is the queue after event `e` happened to queue `f`. */
  ghost predicate Steps<T>(f: Fifo<T>, e: Event<T>, g: Fifo<T>) {
    match e
    case Silent => g == f
    case Enqueue(x) => |f.items| < f.capacity && g == f.(items := f.items + [x])
    case Dequeue(xs) => xs <= f.items && g == f.(items := f.items[|xs|..])
    case Reset => g == f.(items := [])
  }

  function Flatten<T>(batches: seq<seq<T>>): (r: seq<T>) {
    if batches == [] then [] else Flatten(batches[..|batches| - 1]) + batches[|batches| - 1]
  }

  lemma FlattenAdd<T>(batches: seq<seq<T>>, b: seq<T>)
    ensures Flatten(batches + [b]) == Flatten(batches) + b
  {
    assert (batches + [b])[..|batches|] == batches;
  }
}
