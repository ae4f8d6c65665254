/** One cycle of the claim loop and one of the recovery loop, from the task table into the worker queue. */
module Manager {
  import opened Records
  import opened TaskTable
  import opened BoundedQueue
  import Pipeline
  import Sorting

  /** The recovered rows that are dispatched again: those that recovery did not fail. */
  function PendingOnly(rows: seq<Task>, ids: seq<nat>): (r: seq<nat>)
    ensures |r| <= |ids|
  {
    if ids == [] then []
    else
      var rest := PendingOnly(rows, ids[1..]);
      if ids[0] < |rows| && rows[ids[0]].status.Pending? then [ids[0]] + rest else rest
  }

  lemma {:induction false} PendingOnlyAppend(rows: seq<Task>, ids: seq<nat>, x: nat)
    ensures PendingOnly(rows, ids + [x])
         == PendingOnly(rows, ids) + (if x < |rows| && rows[x].status.Pending? then [x] else [])
  {
    if ids == [] {
      assert ids + [x] == [x];
    } else {
      assert (ids + [x])[1..] == ids[1..] + [x];
      PendingOnlyAppend(rows, ids[1..], x);
    }
  }

  class TaskManager {
    const store: TaskStore
    const queue: Queue?<nat>
    const workerConcurrency: nat
    const leaseSeconds: nat
    const maxAttempts: nat

    constructor (store: TaskStore, queue: Queue?<nat>, workerConcurrency: nat, leaseSeconds: nat, maxAttempts: nat)
      ensures this.store == store && this.queue == queue && this.workerConcurrency == workerConcurrency
      ensures this.leaseSeconds == leaseSeconds && this.maxAttempts == maxAttempts
    {
      this.store, this.queue := store, queue;
      this.workerConcurrency, this.leaseSeconds, this.maxAttempts := workerConcurrency, leaseSeconds, maxAttempts;
    }

    function BatchSize(): int
      requires queue != null
      reads queue
    {
      Min(queue.AvailableCapacity(), workerConcurrency)
    }

    function LeaseEnd(now: int): int {
      now + leaseSeconds
    }

    /** The dispatch loop: one `put` per task, in order. */
    method Dispatch(tasks: seq<nat>)
      requires queue != null && queue.Valid() && |queue.items| + |tasks| <= queue.capacity
      modifies queue
      ensures queue.Valid()
      ensures queue.items == old(queue.items) + tasks
      ensures queue.enqueued == old(queue.enqueued) + tasks && queue.dequeued == old(queue.dequeued)
    {
      for n := 0 to |tasks|
        invariant queue.Valid()
        invariant queue.items == old(queue.items) + tasks[..n]
        invariant queue.enqueued == old(queue.enqueued) + tasks[..n] && queue.dequeued == old(queue.dequeued)
      {
        queue.Put(tasks[n]);
        assert tasks[..n + 1] == tasks[..n] + [tasks[n]];
      }
      assert tasks[..|tasks|] == tasks;
    }

    method ClaimAndDispatch(limit: int, lease: int, locked: set<nat>) returns (claimed: seq<nat>)
      requires queue != null && queue.Valid() && limit <= queue.AvailableCapacity()
      modifies store`rows, queue
      ensures queue.Valid()
      ensures claimed == ClaimQuery(old(store.rows), locked, None, limit)
      ensures UniqueIds(old(store.rows)) ==>
                ClaimsFirst(old(store.rows), locked, {UserRequest, Refresh}, limit, claimed)
      ensures ClaimedOnly(old(store.rows), store.rows, claimed, lease)
      ensures queue.items == old(queue.items) + claimed
      ensures queue.enqueued == old(queue.enqueued) + claimed && queue.dequeued == old(queue.dequeued)
    {
      queue.CountersBalance();
      claimed := store.ClaimTasks(limit, lease, None, locked);
      Dispatch(claimed);
    }

    /**
     A claim cycle that nobody interrupts: it claims the first `batch` unlocked pending rows, finds
     room for every one of them, and the queue grows by exactly the batch, in claim order. Without a
     worker pool it claims nothing.
     */
    method ClaimCycle(now: int, locked: set<nat>) returns (claimed: seq<nat>)
      requires queue != null ==> queue.Valid()
      modifies store`rows, queue
      ensures queue == null ==> claimed == [] && store.rows == old(store.rows)
      ensures queue != null ==>
                && queue.Valid()
                && claimed == ClaimQuery(old(store.rows), locked, None, old(BatchSize()))
                && (UniqueIds(old(store.rows)) ==>
                      ClaimsFirst(old(store.rows), locked, {UserRequest, Refresh},
                                  Min(queue.capacity - |old(queue.items)|, workerConcurrency), claimed))
                && ClaimedOnly(old(store.rows), store.rows, claimed, now + leaseSeconds)
                && queue.items == old(queue.items) + claimed
                && queue.enqueued == old(queue.enqueued) + claimed && queue.dequeued == old(queue.dequeued)
    {
      if queue == null {
        return [];
      }
      var batchSize := BatchSize();
      if batchSize <= 0 {
        return [];
      }
      claimed := ClaimAndDispatch(batchSize, LeaseEnd(now), locked);
    }

    method RecoverAndDispatch(limit: int, now: int, locked: set<nat>) returns (recovered: seq<nat>)
      requires queue != null && queue.Valid() && limit <= queue.AvailableCapacity()
      modifies store`rows, queue
      ensures queue.Valid()
      ensures recovered == RecoveryQuery(old(store.rows), locked, now, limit)
      ensures UniqueIds(old(store.rows)) ==> RecoversFirst(old(store.rows), locked, now, limit, recovered)
      ensures RecoveredOnly(old(store.rows), store.rows, recovered, maxAttempts)
      ensures queue.items == old(queue.items) + PendingOnly(store.rows, recovered)
    {
      queue.CountersBalance();
      recovered := store.RecoverExpiredTasks(limit, now, maxAttempts, locked);
      var dispatched := SelectPending(recovered);
      Dispatch(dispatched);
    }

    method SelectPending(tasks: seq<nat>) returns (pending: seq<nat>)
      ensures pending == PendingOnly(store.rows, tasks)
    {
      pending := [];
      for n := 0 to |tasks|
        invariant pending == PendingOnly(store.rows, tasks[..n])
      {
        assert tasks[..n + 1] == tasks[..n] + [tasks[n]];
        PendingOnlyAppend(store.rows, tasks[..n], tasks[n]);
        if tasks[n] < |store.rows| && store.rows[tasks[n]].status == Pending {
          pending := pending + [tasks[n]];
        }
      }
      assert tasks[..|tasks|] == tasks;
    }

    /**
     A recovery cycle: exhausted tasks fail and are not dispatched, the others are, still PENDING.
     Without a worker pool it recovers nothing.
     */
    method RecoveryCycle(now: int, locked: set<nat>) returns (recovered: seq<nat>)
      requires queue != null ==> queue.Valid()
      modifies store`rows, queue
      ensures queue == null ==> recovered == [] && store.rows == old(store.rows)
      ensures queue != null ==>
                && queue.Valid()
                && recovered == RecoveryQuery(old(store.rows), locked, now, old(BatchSize()))
                && (UniqueIds(old(store.rows)) ==>
                      RecoversFirst(old(store.rows), locked, now,
                                    Min(queue.capacity - |old(queue.items)|, workerConcurrency), recovered))
                && RecoveredOnly(old(store.rows), store.rows, recovered, maxAttempts)
                && queue.items == old(queue.items) + PendingOnly(store.rows, recovered)
    {
      if queue == null {
        return [];
      }
      var batchSize := BatchSize();
      if batchSize <= 0 {
        return [];
      }
      recovered := RecoverAndDispatch(batchSize, now, locked);
    }
  }

  /** Recovery hands on exactly the tasks that have attempts left, and fails exactly the others. */
  lemma {:induction false} RedispatchedHaveBudget(rows: seq<Task>, all: set<nat>, ids: seq<nat>, max: nat, i: nat)
    requires forall k :: k in ids ==> k < |rows| && k in all
    ensures i in PendingOnly(RecoverRows(rows, all, max), ids) <==> i in ids && rows[i].attempts < max
    ensures i in ids ==> (RecoverRows(rows, all, max)[i].status.Failed? <==> rows[i].attempts >= max)
  {
    if ids != [] {
      assert ids == [ids[0]] + ids[1..];
      assert forall k :: k in ids[1..] ==> k in ids;
      RedispatchedHaveBudget(rows, all, ids[1..], max, i);
    }
  }

  lemma {:induction false} PendingOnlyIsDistinct(rows: seq<Task>, ids: seq<nat>)
    requires Sorting.Distinct(ids)
    ensures Sorting.Distinct(PendingOnly(rows, ids))
    ensures forall i :: i in PendingOnly(rows, ids) ==> i in ids
  {
    if ids != [] {
      assert ids == [ids[0]] + ids[1..];
      PendingOnlyIsDistinct(rows, ids[1..]);
      assert ids[0] !in ids[1..];
    }
  }

  /**
   A recovery cycle, whatever else is locked, is one recovery step of the pipeline: it changes the
   same rows, and the tasks it dispatches are exactly the copies that the step puts in the loop's hands.
   */
  lemma RecoveryCycleIsAStep(c: Pipeline.Limits, s: Pipeline.State, locked: set<nat>, limit: int)
    ensures var b := RecoveryQuery(s.db.rows, locked, s.now, limit);
            var e := Pipeline.Recover(Elems(b));
            && Pipeline.Enabled(s, e)
            && Pipeline.Apply(c, s, e).db.rows == RecoverRows(s.db.rows, Elems(b), c.recovery)
            && Pipeline.Apply(c, s, e).held
               == s.held + multiset(PendingOnly(RecoverRows(s.db.rows, Elems(b), c.recovery), b))
  {
    var b := RecoveryQuery(s.db.rows, locked, s.now, limit);
    var dispatched := PendingOnly(RecoverRows(s.db.rows, Elems(b), c.recovery), b);
    SelectIsDistinct(s.db.rows, locked, ExpiredFilter(s.now), limit);
    PendingOnlyIsDistinct(RecoverRows(s.db.rows, Elems(b), c.recovery), b);
    forall i: nat ensures i in dispatched <==> i in Pipeline.Redispatched(s.db.rows, Elems(b), c.recovery) {
      RedispatchedHaveBudget(s.db.rows, Elems(b), b, c.recovery, i);
    }
    assert Elems(dispatched) == Pipeline.Redispatched(s.db.rows, Elems(b), c.recovery);
    Pipeline.ElemsAsMultiset(dispatched);
  }
}
