/** The bounded worker queue with its statistics, and what the statistics mean. */
module BoundedQueue {
  import opened Records

  /** A queue seen as a value, with everything ever put in and taken out. */
  datatype View<T> = View(
    capacity: nat,
    items: seq<T>,
    maxSize: nat,
    enqueued: seq<T>,
    dequeued: seq<T>)

  /** FIFO, bounded, and with the peak size on record. */
  ghost predicate Sound<T>(q: View<T>) {
    && q.enqueued == q.dequeued + q.items
    && |q.items| <= q.maxSize <= q.capacity
    && q.capacity > 0
  }

  function Empty<T>(capacity: nat): View<T> {
    View(capacity, [], 0, [], [])
  }

  function PutView<T>(q: View<T>, x: T): View<T> {
    q.(items := q.items + [x],
       maxSize := Max(q.maxSize, |q.items| + 1),
       enqueued := q.enqueued + [x])
  }

  function GetView<T>(q: View<T>): View<T>
    requires q.items != []
  {
    q.(items := q.items[1..], dequeued := q.dequeued + [q.items[0]])
  }

  lemma PutIsSound<T>(q: View<T>, x: T)
    requires Sound(q) && |q.items| < q.capacity
    ensures Sound(PutView(q, x))
  {
    assert q.dequeued + (q.items + [x]) == (q.dequeued + q.items) + [x];
  }

  lemma GetIsSound<T>(q: View<T>)
    requires Sound(q) && q.items != []
    ensures Sound(GetView(q))
  {
    assert q.items == [q.items[0]] + q.items[1..];
    assert (q.dequeued + [q.items[0]]) + q.items[1..] == q.dequeued + q.items;
  }

  class Queue<T> {
    const capacity: nat
    var items: seq<T>
    var statsSize: nat
    var maxSizeReached: nat
    var totalEnqueued: nat
    var totalDequeued: nat
    ghost var enqueued: seq<T>
    ghost var dequeued: seq<T>

    ghost function AsView(): View<T>
      reads this
    {
      View(capacity, items, maxSizeReached, enqueued, dequeued)
    }

    /** The counters agree with the history, so enqueued - dequeued = size <= peak <= capacity. */
    ghost predicate Valid()
      reads this
    {
      && Sound(AsView())
      && statsSize == |items|
      && totalEnqueued == |enqueued| && totalDequeued == |dequeued|
    }

    constructor (capacity: nat)
      requires capacity > 0
      ensures Valid() && this.capacity == capacity && AsView() == Empty<T>(capacity)
    {
      this.capacity := capacity;
      items := [];
      statsSize, maxSizeReached, totalEnqueued, totalDequeued := 0, 0, 0, 0;
      enqueued, dequeued := [], [];
    }

    function AvailableCapacity(): int
      reads this
    {
      capacity - |items|
    }

    lemma CountersBalance()
      requires Valid()
      ensures totalEnqueued - totalDequeued == statsSize == |items|
      ensures statsSize <= maxSizeReached <= capacity
      ensures 0 <= AvailableCapacity()
    {
      assert |enqueued| == |dequeued| + |items|;
    }

    /** `put` once it runs: it waits while the queue is full, so it proceeds with room for the item. */
    method Put(x: T)
      requires Valid() && |items| < capacity
      modifies this
      ensures Valid() && AsView() == PutView(old(AsView()), x)
      ensures items == old(items) + [x] && enqueued == old(enqueued) + [x] && dequeued == old(dequeued)
      ensures maxSizeReached == if |items| > old(maxSizeReached) then |items| else old(maxSizeReached)
      ensures totalEnqueued == old(totalEnqueued) + 1 && totalDequeued == old(totalDequeued)
    {
      PutIsSound(AsView(), x);
      items := items + [x];
      statsSize := |items|;
      totalEnqueued := totalEnqueued + 1;
      enqueued := enqueued + [x];
      if statsSize > maxSizeReached {
        maxSizeReached := statsSize;
      }
    }

    /** False stands for QueueFull; nothing changes then. */
    method PutNowait(x: T) returns (ok: bool)
      requires Valid()
      modifies this
      ensures Valid()
      ensures ok <==> |old(items)| < capacity
      ensures AsView() == if ok then PutView(old(AsView()), x) else old(AsView())
    {
      ok := |items| < capacity;
      if ok {
        Put(x);
      }
    }

    /** None stands for QueueEmpty, or for a `get` that has to go on waiting. */
    method GetNowait() returns (r: Option<T>)
      requires Valid()
      modifies this
      ensures Valid()
      ensures r == if old(items) == [] then None else Some(old(items)[0])
      ensures AsView() == if old(items) == [] then old(AsView()) else GetView(old(AsView()))
      ensures old(items) != [] ==>
                && items == old(items)[1..] && dequeued == old(dequeued) + [old(items)[0]]
                && enqueued == old(enqueued) && maxSizeReached == old(maxSizeReached)
                && totalDequeued == old(totalDequeued) + 1 && totalEnqueued == old(totalEnqueued)
    {
      if items == [] {
        return None;
      }
      GetIsSound(AsView());
      r := Some(items[0]);
      dequeued := dequeued + [items[0]];
      items := items[1..];
      statsSize := |items|;
      totalDequeued := totalDequeued + 1;
    }
  }
}
