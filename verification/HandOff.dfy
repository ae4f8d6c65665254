/**
 The claim and recovery loops sharing one bounded queue with the workers. A loop reads the free
 capacity, later holds up to that many tasks, and puts them one by one, waiting whenever the queue is
 full; between any two of its steps the other loop and the workers act.
 */
module HandOff {
  import opened Records
  import opened BoundedQueue

  datatype Loop = Sleeping | Planned(batch: nat) | Holding(items: seq<nat>)

  datatype State = State(queue: View<nat>, claim: Loop, recovery: Loop)

  datatype Event =
    | Plan(claiming: bool)
    | Fetch(claiming: bool, tasks: seq<nat>)
    | Put(claiming: bool)
    | Get
    | Drop(claiming: bool)

  function LoopOf(s: State, claiming: bool): Loop {
    if claiming then s.claim else s.recovery
  }

  function WithLoop(s: State, claiming: bool, l: Loop): State {
    if claiming then s.(claim := l) else s.(recovery := l)
  }

  predicate Enabled(s: State, e: Event) {
    match e
    case Plan(c) => LoopOf(s, c).Sleeping?
    case Fetch(c, tasks) => LoopOf(s, c).Planned? && |tasks| <= LoopOf(s, c).batch
    case Put(c) =>
      LoopOf(s, c).Holding? && LoopOf(s, c).items != [] && |s.queue.items| < s.queue.capacity
    case Get => s.queue.items != []
    case Drop(_) => true
  }

  /** `batch_size = min(available_capacity, worker_concurrency)`; a batch of none sends the loop back to sleep. */
  function BatchSize(q: View<nat>, concurrency: nat): int {
    Min(q.capacity - |q.items|, concurrency)
  }

  function Apply(concurrency: nat, s: State, e: Event): State
    requires Enabled(s, e)
  {
    match e
    case Plan(c) =>
      var n := BatchSize(s.queue, concurrency);
      if n <= 0 then s else WithLoop(s, c, Planned(n))
    case Fetch(c, tasks) => WithLoop(s, c, if tasks == [] then Sleeping else Holding(tasks))
    case Put(c) =>
      var items := LoopOf(s, c).items;
      WithLoop(s.(queue := PutView(s.queue, items[0])), c,
               if |items| == 1 then Sleeping else Holding(items[1..]))
    case Get => s.(queue := GetView(s.queue))
    case Drop(c) => WithLoop(s, c, Sleeping)
  }

  ghost predicate Valid(concurrency: nat, s: State, es: seq<Event>)
    decreases |es|
  {
    es == [] || (Enabled(s, es[0]) && Valid(concurrency, Apply(concurrency, s, es[0]), es[1..]))
  }

  ghost function Exec(concurrency: nat, s: State, es: seq<Event>): State
    requires Valid(concurrency, s, es)
    decreases |es|
  {
    if es == [] then s else Exec(concurrency, Apply(concurrency, s, es[0]), es[1..])
  }

  /** What a loop holds, or has room reserved for in its head. */
  function InHand(l: Loop): nat {
    match l
    case Sleeping => 0
    case Planned(n) => n
    case Holding(items) => |items|
  }

  function Start(capacity: nat): State {
    State(Empty(capacity), Sleeping, Sleeping)
  }

  ghost predicate Inv(concurrency: nat, s: State) {
    var most := Min(s.queue.capacity, concurrency);
    && Sound(s.queue)
    && InHand(s.claim) <= most && InHand(s.recovery) <= most
    && InHand(s.claim) + InHand(s.recovery) + |s.queue.items| <= s.queue.capacity + most
  }

  lemma StepKeepsInv(concurrency: nat, s: State, e: Event)
    requires Inv(concurrency, s) && Enabled(s, e)
    ensures Inv(concurrency, Apply(concurrency, s, e))
    ensures Apply(concurrency, s, e).queue.capacity == s.queue.capacity
  {
    match e
    case Put(c) => PutIsSound(s.queue, LoopOf(s, c).items[0]);
    case Get => GetIsSound(s.queue);
    case _ =>
  }

  lemma {:induction false} RunKeepsInv(concurrency: nat, s: State, es: seq<Event>)
    requires Inv(concurrency, s) && Valid(concurrency, s, es)
    ensures Inv(concurrency, Exec(concurrency, s, es))
    ensures Exec(concurrency, s, es).queue.capacity == s.queue.capacity
    decreases |es|
  {
    if es != [] {
      StepKeepsInv(concurrency, s, es[0]);
      RunKeepsInv(concurrency, Apply(concurrency, s, es[0]), es[1..]);
    }
  }

  /**
   In every run of both loops and the workers: tasks in the loops' hands plus tasks queued never
   exceed capacity + min(capacity, worker_concurrency), the queue never exceeds its capacity, and
   what was dequeued followed by what is queued is what was enqueued, in order.
   */
  lemma BoundedHandOff(concurrency: nat, capacity: nat, es: seq<Event>)
    requires capacity > 0 && Valid(concurrency, Start(capacity), es)
    ensures var s := Exec(concurrency, Start(capacity), es);
            && InHand(s.claim) + InHand(s.recovery) + |s.queue.items| <= capacity + Min(capacity, concurrency)
            && |s.queue.items| <= s.queue.maxSize <= capacity
            && s.queue.dequeued + s.queue.items == s.queue.enqueued
            && |s.queue.enqueued| - |s.queue.dequeued| == |s.queue.items|
  {
    RunKeepsInv(concurrency, Start(capacity), es);
  }

  /** One loop alone would never wait for room: the second producer is what makes `put` block. */
  lemma LoneLoopNeverWaits(concurrency: nat, s: State, es: seq<Event>, claiming: bool)
    requires Inv(concurrency, s) && LoopOf(s, !claiming).Sleeping?
    requires InHand(LoopOf(s, claiming)) + |s.queue.items| <= s.queue.capacity
    requires Valid(concurrency, s, es)
    requires forall k :: 0 <= k < |es| ==> es[k] != Plan(!claiming)
    ensures var s' := Exec(concurrency, s, es);
            LoopOf(s', claiming).Holding? && LoopOf(s', claiming).items != [] ==> Enabled(s', Put(claiming))
    decreases |es|
  {
    if es != [] {
      StepKeepsInv(concurrency, s, es[0]);
      assert es[0] != Plan(!claiming);
      assert forall k :: 0 <= k < |es[1..]| ==> es[1..][k] == es[k + 1];
      LoneLoopNeverWaits(concurrency, Apply(concurrency, s, es[0]), es[1..], claiming);
    }
  }

  /** A worker takes the oldest task whenever there is one, and nothing else moves. */
  lemma WorkerTakesTheOldest(concurrency: nat, s: State)
    requires s.queue.items != []
    ensures Enabled(s, Get)
    ensures var q := s.queue;
            Apply(concurrency, s, Get)
            == s.(queue := q.(items := q.items[1..], dequeued := q.dequeued + [q.items[0]]))
  {
  }

  function InLoop(l: Loop): seq<nat> {
    if l.Holding? then l.items else []
  }

  function FetchedBy(e: Event): multiset<nat> {
    if e.Fetch? then multiset(e.tasks) else multiset{}
  }

  function Fetched(es: seq<Event>): multiset<nat> {
    if es == [] then multiset{} else FetchedBy(es[0]) + Fetched(es[1..])
  }

  ghost predicate NoLoss(es: seq<Event>) {
    forall k :: 0 <= k < |es| ==> !es[k].Drop?
  }

  /** Everything that was ever enqueued, or is in a loop's hands. */
  function Accounted(s: State): multiset<nat> {
    multiset(s.queue.enqueued) + multiset(InLoop(s.claim)) + multiset(InLoop(s.recovery))
  }

  lemma SumsAssociate(a: multiset<nat>, b: multiset<nat>, c: multiset<nat>)
    ensures (a + b) + c == a + (b + c)
  {
  }

  lemma PutAccounts(concurrency: nat, s: State, claiming: bool)
    requires Enabled(s, Put(claiming))
    ensures Accounted(Apply(concurrency, s, Put(claiming))) == Accounted(s)
  {
    var items := LoopOf(s, claiming).items;
    assert items == [items[0]] + items[1..];
    assert multiset(items) == multiset{items[0]} + multiset(items[1..]);
  }

  lemma StepAccounts(concurrency: nat, s: State, e: Event)
    requires Enabled(s, e) && !e.Drop?
    ensures Accounted(Apply(concurrency, s, e)) == Accounted(s) + FetchedBy(e)
  {
    if e.Put? {
      PutAccounts(concurrency, s, e.claiming);
    }
  }

  /**
   Nothing is lost or doubled on the way: in every run in which no loop is cut off, the tasks that the loops
   fetched are exactly those enqueued so far together with those still in their hands.
   */
  lemma {:induction false} FetchedAreHandedOn(concurrency: nat, s: State, es: seq<Event>)
    requires Valid(concurrency, s, es) && NoLoss(es)
    ensures Accounted(Exec(concurrency, s, es)) == Accounted(s) + Fetched(es)
    decreases |es|
  {
    if es != [] {
      var e, rest := es[0], es[1..];
      StepAccounts(concurrency, s, e);
      assert NoLoss(rest) by {
        assert forall k :: 0 <= k < |rest| ==> rest[k] == es[k + 1];
      }
      FetchedAreHandedOn(concurrency, Apply(concurrency, s, e), rest);
      SumsAssociate(Accounted(s), FetchedBy(e), Fetched(rest));
    }
  }

  /** A loop that found nothing, or has put its last task, sleeps until its next cycle. */
  lemma EmptyHandedLoopSleeps(concurrency: nat, s: State, claiming: bool, batch: nat)
    ensures LoopOf(s, claiming) == Planned(batch) ==>
              Enabled(s, Fetch(claiming, []))
              && LoopOf(Apply(concurrency, s, Fetch(claiming, [])), claiming) == Sleeping
    ensures LoopOf(s, claiming).Holding? && |LoopOf(s, claiming).items| == 1
            && |s.queue.items| < s.queue.capacity ==>
              Enabled(s, Put(claiming)) && LoopOf(Apply(concurrency, s, Put(claiming)), claiming) == Sleeping
    ensures LoopOf(s, claiming) == Sleeping ==> Enabled(s, Plan(claiming))
  {
  }

  /** A loop that is cut off loses what it has in hand, and nothing else. */
  lemma CutOffLoopLosesItsTasks(concurrency: nat, s: State, claiming: bool)
    ensures Enabled(s, Drop(claiming))
    ensures var s' := Apply(concurrency, s, Drop(claiming));
            LoopOf(s', claiming) == Sleeping && LoopOf(s', !claiming) == LoopOf(s, !claiming) && s'.queue == s.queue
  {
  }

  // ---- When a put meets a full queue ----

  /** There is room in the queue for everything that the loops hold or may still fetch. */
  predicate Room(s: State) {
    InHand(s.claim) + InHand(s.recovery) + |s.queue.items| <= s.queue.capacity
  }

  /** The loop has a task in hand and stands in front of a full queue. */
  predicate Blocked(s: State, claiming: bool) {
    && LoopOf(s, claiming).Holding? && LoopOf(s, claiming).items != []
    && !Enabled(s, Put(claiming))
  }

  ghost predicate NoPlan(es: seq<Event>) {
    forall k :: 0 <= k < |es| ==> !es[k].Plan?
  }

  /** The run ends with a loop blocked, without any loop having read the free capacity again. */
  ghost predicate LeadsToWaiting(concurrency: nat, s: State, es: seq<Event>) {
    Valid(concurrency, s, es) && NoPlan(es)
    && (Blocked(Exec(concurrency, s, es), true) || Blocked(Exec(concurrency, s, es), false))
  }

  lemma Cons(concurrency: nat, s: State, e: Event, es: seq<Event>)
    requires Enabled(s, e) && Valid(concurrency, Apply(concurrency, s, e), es)
    ensures Valid(concurrency, s, [e] + es)
    ensures Exec(concurrency, s, [e] + es) == Exec(concurrency, Apply(concurrency, s, e), es)
  {
    assert ([e] + es)[1..] == es;
  }

  lemma Later(concurrency: nat, s: State, e: Event, es: seq<Event>)
    requires Enabled(s, e) && !e.Plan? && LeadsToWaiting(concurrency, Apply(concurrency, s, e), es)
    ensures LeadsToWaiting(concurrency, s, [e] + es)
  {
    Cons(concurrency, s, e, es);
  }

  /** Without planning, what is in hand or queued never grows. */
  lemma {:induction false} RoomStays(concurrency: nat, s: State, es: seq<Event>)
    requires Inv(concurrency, s) && Room(s) && Valid(concurrency, s, es) && NoPlan(es)
    ensures Room(Exec(concurrency, s, es))
    decreases |es|
  {
    if es != [] {
      StepKeepsInv(concurrency, s, es[0]);
      assert !es[0].Plan?;
      assert forall k :: 0 <= k < |es[1..]| ==> es[1..][k] == es[k + 1];
      RoomStays(concurrency, Apply(concurrency, s, es[0]), es[1..]);
    }
  }

  /** With both batches fetched and no room for them, putting task after task ends in front of a full queue. */
  lemma {:induction false} PutUntilFull(concurrency: nat, s: State) returns (es: seq<Event>)
    requires Inv(concurrency, s) && !Room(s) && !s.claim.Planned? && !s.recovery.Planned?
    ensures LeadsToWaiting(concurrency, s, es)
    decreases s.queue.capacity - |s.queue.items|
  {
    var c := InHand(s.claim) > 0;
    if |s.queue.items| == s.queue.capacity {
      es := [];
      assert Blocked(s, c);
    } else {
      StepKeepsInv(concurrency, s, Put(c));
      var rest := PutUntilFull(concurrency, Apply(concurrency, s, Put(c)));
      Later(concurrency, s, Put(c), rest);
      es := [Put(c)] + rest;
    }
  }

  /** A loop that has planned a batch may find as many tasks as it planned for. */
  lemma FetchAll(concurrency: nat, s: State, c: bool) returns (e: Event)
    requires Inv(concurrency, s) && LoopOf(s, c).Planned?
    ensures !e.Plan? && Enabled(s, e) && Inv(concurrency, Apply(concurrency, s, e))
    ensures var s' := Apply(concurrency, s, e);
            && !LoopOf(s', c).Planned? && LoopOf(s', !c) == LoopOf(s, !c) && s'.queue == s.queue
            && InHand(LoopOf(s', c)) == InHand(LoopOf(s, c))
  {
    e := Fetch(c, seq(LoopOf(s, c).batch, k => k));
    StepKeepsInv(concurrency, s, e);
  }

  lemma NoRoomLeadsToWaiting(concurrency: nat, s: State) returns (es: seq<Event>)
    requires Inv(concurrency, s) && !Room(s)
    ensures LeadsToWaiting(concurrency, s, es)
    decreases (if s.claim.Planned? then 1 else 0) + (if s.recovery.Planned? then 1 else 0)
  {
    if s.claim.Planned? || s.recovery.Planned? {
      var e := FetchAll(concurrency, s, s.claim.Planned?);
      var rest := NoRoomLeadsToWaiting(concurrency, Apply(concurrency, s, e));
      Later(concurrency, s, e, rest);
      es := [e] + rest;
    } else {
      es := PutUntilFull(concurrency, s);
    }
  }

  /**
   Exactly when a put can meet a full queue: from a state of any run, the batches that are planned or
   held by then can lead a loop in front of a full queue if and only if there is no room for them.
   */
  lemma WaitingIffNoRoom(concurrency: nat, s: State)
    requires Inv(concurrency, s)
    ensures !Room(s) <==> exists es :: LeadsToWaiting(concurrency, s, es)
  {
    if !Room(s) {
      var es := NoRoomLeadsToWaiting(concurrency, s);
    }
    forall es | LeadsToWaiting(concurrency, s, es) ensures !Room(s) {
      if Room(s) {
        RoomStays(concurrency, s, es);
        RunKeepsInv(concurrency, s, es);
      }
    }
  }

  /** What a loop would have to check, beside its own batch size, before it relies on the free capacity. */
  predicate PlanIsSafe(concurrency: nat, s: State, claiming: bool) {
    var other := InHand(LoopOf(s, !claiming));
    || other == 0
    || |s.queue.items| == s.queue.capacity
    || concurrency + other + |s.queue.items| <= s.queue.capacity
  }

  /**
   The capacity check alone keeps room exactly when the other loop has nothing in hand, the queue is full
   already, or even a batch of full size fits beside what the other loop has.
   */
  lemma PlanKeepsRoomIff(concurrency: nat, s: State, claiming: bool)
    requires Inv(concurrency, s) && Room(s) && Enabled(s, Plan(claiming))
    ensures Room(Apply(concurrency, s, Plan(claiming))) <==> PlanIsSafe(concurrency, s, claiming)
  {
  }

  ghost predicate PlansAreSafe(concurrency: nat, s: State, es: seq<Event>)
    requires Valid(concurrency, s, es)
    decreases |es|
  {
    es == [] || ((es[0].Plan? ==> PlanIsSafe(concurrency, s, es[0].claiming))
                 && PlansAreSafe(concurrency, Apply(concurrency, s, es[0]), es[1..]))
  }

  /** In a run whose plans are all safe, at no time a loop stands in front of a full queue. */
  lemma {:induction false} SafePlansNeverWait(concurrency: nat, s: State, es: seq<Event>, claiming: bool)
    requires Inv(concurrency, s) && Room(s) && Valid(concurrency, s, es) && PlansAreSafe(concurrency, s, es)
    ensures Room(Exec(concurrency, s, es)) && !Blocked(Exec(concurrency, s, es), claiming)
    decreases |es|
  {
    if es != [] {
      StepKeepsInv(concurrency, s, es[0]);
      if es[0].Plan? {
        PlanKeepsRoomIff(concurrency, s, es[0].claiming);
      }
      SafePlansNeverWait(concurrency, Apply(concurrency, s, es[0]), es[1..], claiming);
    }
  }

  lemma {:induction false} Compose(concurrency: nat, s: State, es: seq<Event>, more: seq<Event>)
    requires Valid(concurrency, s, es) && Valid(concurrency, Exec(concurrency, s, es), more)
    ensures Valid(concurrency, s, es + more)
    ensures Exec(concurrency, s, es + more) == Exec(concurrency, Exec(concurrency, s, es), more)
    decreases |es|
  {
    if es == [] {
      assert es + more == more;
    } else {
      var s' := Apply(concurrency, s, es[0]);
      Compose(concurrency, s', es[1..], more);
      assert es + more == [es[0]] + (es[1..] + more);
      Cons(concurrency, s, es[0], es[1..] + more);
    }
  }

  /** The claim loop alone puts one task more. */
  lemma OneMore(concurrency: nat, s: State) returns (es: seq<Event>)
    requires concurrency > 0 && s.claim.Sleeping? && |s.queue.items| < s.queue.capacity
    ensures Valid(concurrency, s, es)
    ensures Exec(concurrency, s, es) == s.(queue := PutView(s.queue, 0))
  {
    var n := BatchSize(s.queue, concurrency);
    var s1 := s.(claim := Planned(n));
    var s2 := s.(claim := Holding([0]));
    var s3 := s.(queue := PutView(s.queue, 0));
    assert Valid(concurrency, s3, []) && Exec(concurrency, s3, []) == s3;
    assert Apply(concurrency, s2, Put(true)) == s3;
    Cons(concurrency, s2, Put(true), []);
    assert Apply(concurrency, s1, Fetch(true, [0])) == s2;
    Cons(concurrency, s1, Fetch(true, [0]), [Put(true)] + []);
    Cons(concurrency, s, Plan(true), [Fetch(true, [0])] + ([Put(true)] + []));
    es := [Plan(true)] + ([Fetch(true, [0])] + ([Put(true)] + []));
  }

  lemma {:induction false} Fill(concurrency: nat, capacity: nat, n: nat) returns (es: seq<Event>)
    requires concurrency > 0 && n <= capacity
    ensures Valid(concurrency, Start(capacity), es)
    ensures var s := Exec(concurrency, Start(capacity), es);
            s.claim.Sleeping? && s.recovery.Sleeping? && s.queue.capacity == capacity && |s.queue.items| == n
  {
    if n == 0 {
      es := [];
    } else {
      var before := Fill(concurrency, capacity, n - 1);
      var one := OneMore(concurrency, Exec(concurrency, Start(capacity), before));
      Compose(concurrency, Start(capacity), before, one);
      es := before + one;
    }
  }

  /** Both loops read the same free capacity before either of them has put anything. */
  lemma BothPlan(concurrency: nat, s: State) returns (es: seq<Event>)
    requires s.claim.Sleeping? && s.recovery.Sleeping? && BatchSize(s.queue, concurrency) > 0
    ensures Valid(concurrency, s, es)
    ensures var n := BatchSize(s.queue, concurrency);
            Exec(concurrency, s, es) == State(s.queue, Planned(n), Planned(n))
  {
    var n := BatchSize(s.queue, concurrency);
    var s1 := s.(claim := Planned(n));
    var s2 := s1.(recovery := Planned(n));
    assert Valid(concurrency, s2, []) && Exec(concurrency, s2, []) == s2;
    Cons(concurrency, s1, Plan(false), []);
    Cons(concurrency, s, Plan(true), [Plan(false)] + []);
    es := [Plan(true)] + ([Plan(false)] + []);
  }

  /** The bound on what is in hand and queued is reached, for all sizes of the queue and of the batches. */
  lemma TwoLoopsOvercommit(concurrency: nat, capacity: nat) returns (es: seq<Event>)
    requires capacity > 0 && concurrency > 0
    ensures Valid(concurrency, Start(capacity), es)
    ensures var s := Exec(concurrency, Start(capacity), es);
            InHand(s.claim) + InHand(s.recovery) + |s.queue.items| == capacity + Min(capacity, concurrency)
  {
    var filled := Fill(concurrency, capacity, capacity - Min(capacity, concurrency));
    var both := BothPlan(concurrency, Exec(concurrency, Start(capacity), filled));
    Compose(concurrency, Start(capacity), filled, both);
    es := filled + both;
  }

  /**
   So the capacity check does not rule out a full queue at dispatch, for any sizes: a run from the empty
   queue ends with a loop that holds a task and cannot put it.
   */
  lemma PutMeetsFullQueue(concurrency: nat, capacity: nat) returns (es: seq<Event>, claiming: bool)
    requires capacity > 0 && concurrency > 0
    ensures Valid(concurrency, Start(capacity), es)
    ensures var s := Exec(concurrency, Start(capacity), es);
            && LoopOf(s, claiming).Holding? && LoopOf(s, claiming).items != []
            && |s.queue.items| == capacity && !Enabled(s, Put(claiming))
  {
    var over := TwoLoopsOvercommit(concurrency, capacity);
    var s := Exec(concurrency, Start(capacity), over);
    RunKeepsInv(concurrency, Start(capacity), over);
    var rest := NoRoomLeadsToWaiting(concurrency, s);
    Compose(concurrency, Start(capacity), over, rest);
    RunKeepsInv(concurrency, Start(capacity), over + rest);
    es := over + rest;
    claiming := Blocked(Exec(concurrency, Start(capacity), es), true);
  }
}
