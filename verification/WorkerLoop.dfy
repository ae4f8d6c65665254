/** The worker's loop: take the oldest task from the queue, end it with one final write, go on. */
module WorkerLoop {
  import opened Records
  import opened TaskTable
  import opened BoundedQueue
  import opened DomainProcessor
  import Pipeline

  /** The tables after the tasks of `items` were ended in turn, as far as outcomes are given. */
  function Worked(db: Tables, items: seq<nat>, outcomes: seq<Outcome>, max: nat): Tables
    decreases |items|
  {
    if items == [] || outcomes == [] then db
    else Worked(WriteOutcome(db, items[0], outcomes[0], max), items[1..], outcomes[1..], max)
  }

  lemma {:induction false} WorkedOneMore(db: Tables, items: seq<nat>, outcomes: seq<Outcome>, n: nat, max: nat)
    requires n < |outcomes|
    ensures Worked(db, items, outcomes[..n + 1], max)
         == if n < |items| then WriteOutcome(Worked(db, items, outcomes[..n], max), items[n], outcomes[n], max)
            else Worked(db, items, outcomes[..n], max)
    decreases |items|
  {
    var now, later := outcomes[..n], outcomes[..n + 1];
    if items != [] && n > 0 {
      assert now[0] == later[0] == outcomes[0];
      assert now[1..] == outcomes[1..][..n - 1] && later[1..] == outcomes[1..][..n];
      WorkedOneMore(WriteOutcome(db, items[0], outcomes[0], max), items[1..], outcomes[1..], n - 1, max);
    } else if items != [] {
      assert later[0] == outcomes[0] && later[1..] == [];
    }
  }

  class Worker {
    const queue: Queue<nat>
    const processor: Processor

    constructor (queue: Queue<nat>, processor: Processor)
      ensures this.queue == queue && this.processor == processor
    {
      this.queue, this.processor := queue, processor;
    }

    /** The final write of one worker run; rejected and failed probes, errors and 408/429 choose the outcome. */
    method Process(row: nat, outcome: Outcome)
      modifies processor.store
      ensures processor.store.View() == WriteOutcome(old(processor.store.View()), row, outcome, processor.maxAttempts)
    {
      match outcome {
        case Complete => processor.WriteCompleteTask(row);
        case Fail => processor.WriteFailTask(row);
        case Reschedule => processor.WriteRescheduleTask(row);
        case NoWrite =>
      }
      FinishedDetermines(old(processor.store.View()), processor.store.View(), row, outcome, processor.maxAttempts);
    }

    /** One iteration: nothing at all when no task arrives in time, else the oldest one is ended. */
    method RunOnce(outcome: Outcome) returns (taken: Option<nat>)
      requires queue.Valid()
      modifies queue, processor.store
      ensures queue.Valid()
      ensures taken == if old(queue.items) == [] then None else Some(old(queue.items)[0])
      ensures taken.None? ==> queue.AsView() == old(queue.AsView())
                              && processor.store.View() == old(processor.store.View())
      ensures taken.Some? ==> queue.AsView() == GetView(old(queue.AsView()))
                              && processor.store.View()
                                 == WriteOutcome(old(processor.store.View()), taken.value, outcome,
                                                 processor.maxAttempts)
    {
      taken := queue.GetNowait();
      if taken.Some? {
        Process(taken.value, outcome);
      }
    }

    /** The loop while the worker runs: tasks are ended in the order of the queue, one outcome each. */
    method RunLoop(outcomes: seq<Outcome>)
      requires queue.Valid()
      modifies queue, processor.store
      ensures queue.Valid()
      ensures queue.items == old(queue.items)[Min(|outcomes|, |old(queue.items)|)..]
      ensures processor.store.View()
           == Worked(old(processor.store.View()), old(queue.items), outcomes, processor.maxAttempts)
    {
      ghost var items, db := queue.items, processor.store.View();
      for n := 0 to |outcomes|
        invariant queue.Valid()
        invariant queue.items == items[Min(n, |items|)..]
        invariant processor.store.View() == Worked(db, items, outcomes[..n], processor.maxAttempts)
      {
        WorkedOneMore(db, items, outcomes, n, processor.maxAttempts);
        var taken := RunOnce(outcomes[n]);
      }
      assert outcomes[..|outcomes|] == outcomes;
    }
  }

  /** The steps that the transition system takes for the loop. */
  function Steps(items: seq<nat>, outcomes: seq<Outcome>): seq<Pipeline.Event> {
    if items == [] || outcomes == [] then []
    else
      [Pipeline.Dequeue(items[0])] + ([Pipeline.Finish(items[0], outcomes[0])] + Steps(items[1..], outcomes[1..]))
  }

  ghost predicate Reaches(c: Pipeline.Limits, s: Pipeline.State, es: seq<Pipeline.Event>, end: Pipeline.State) {
    Pipeline.Valid(c, s, es) && Pipeline.Exec(c, s, es) == end
  }

  /** The tables are written and the queue has lost its head; nothing else has changed. */
  function AfterOne(c: Pipeline.Limits, s: Pipeline.State, row: nat, o: Outcome): Pipeline.State {
    s.(db := WriteOutcome(s.db, row, o, c.worker), queued := s.queued - multiset{row})
  }

  ghost function AfterLoop(
    c: Pipeline.Limits, s: Pipeline.State, items: seq<nat>, outcomes: seq<Outcome>): Pipeline.State
  {
    s.(db := Worked(s.db, items, outcomes, c.worker),
       queued := s.queued - multiset(items[..Min(|outcomes|, |items|)]))
  }

  lemma OneIteration(
    c: Pipeline.Limits, s: Pipeline.State, row: nat, o: Outcome, rest: seq<Pipeline.Event>, end: Pipeline.State)
    requires row in s.queued && Reaches(c, AfterOne(c, s, row, o), rest, end)
    ensures Reaches(c, s, [Pipeline.Dequeue(row)] + ([Pipeline.Finish(row, o)] + rest), end)
  {
    var mid := Pipeline.Apply(c, s, Pipeline.Dequeue(row));
    var finish := [Pipeline.Finish(row, o)] + rest;
    var es := [Pipeline.Dequeue(row)] + finish;
    assert Pipeline.Apply(c, mid, Pipeline.Finish(row, o)) == AfterOne(c, s, row, o);
    assert finish[0] == Pipeline.Finish(row, o) && finish[1..] == rest;
    assert Reaches(c, mid, finish, end);
    assert es[0] == Pipeline.Dequeue(row) && es[1..] == finish;
  }

  lemma QueueShrinks(queued: multiset<nat>, items: seq<nat>, k: nat)
    requires multiset(items) <= queued && 1 <= k <= |items|
    ensures items[0] in queued && multiset(items[1..]) <= queued - multiset{items[0]}
    ensures queued - multiset{items[0]} - multiset(items[1..][..k - 1]) == queued - multiset(items[..k])
  {
    assert items == [items[0]] + items[1..];
    assert items[..k] == [items[0]] + items[1..][..k - 1];
  }

  lemma AfterLoopUnfold(c: Pipeline.Limits, s: Pipeline.State, items: seq<nat>, outcomes: seq<Outcome>)
    requires items != [] && outcomes != [] && multiset(items) <= s.queued
    ensures var s' := AfterOne(c, s, items[0], outcomes[0]);
            && items[0] in s.queued && multiset(items[1..]) <= s'.queued
            && AfterLoop(c, s', items[1..], outcomes[1..]) == AfterLoop(c, s, items, outcomes)
  {
    QueueShrinks(s.queued, items, Min(|outcomes|, |items|));
  }

  /**
   Refinement: whatever else is queued or running, the worker's loop over the tasks at the head of its
   queue is a run of the transition system, which ends with the loop's tables, with those tasks gone
   from the queue, and with nothing else changed.
   */
  lemma {:induction false} LoopIsARun(
    c: Pipeline.Limits, s: Pipeline.State, items: seq<nat>, outcomes: seq<Outcome>)
    requires multiset(items) <= s.queued
    ensures Reaches(c, s, Steps(items, outcomes), AfterLoop(c, s, items, outcomes))
    decreases |items|
  {
    if items == [] || outcomes == [] {
      assert items[..Min(|outcomes|, |items|)] == [];
    } else {
      AfterLoopUnfold(c, s, items, outcomes);
      LoopIsARun(c, AfterOne(c, s, items[0], outcomes[0]), items[1..], outcomes[1..]);
      OneIteration(c, s, items[0], outcomes[0], Steps(items[1..], outcomes[1..]), AfterLoop(c, s, items, outcomes));
    }
  }
}
