/** How often one task can be handed to a worker when leases expire, crashes happen and copies multiply. */
module Dispatch {
  import opened Records
  import opened TaskTable
  import opened Pipeline

  /** The hand-overs of `row` to a worker in a run. */
  function Deliveries(es: seq<Event>, row: nat): nat {
    if es == [] then 0
    else (if es[0] == Dequeue(row) then 1 else 0) + Deliveries(es[1..], row)
  }

  /** max_attempts claims, and one re-dispatch by recovery for each attempt value below its limit. */
  function Bound(c: Limits): nat {
    Budget(c) + Max(0, c.recovery - 1)
  }

  /** The hand-overs that `row` can still receive. */
  function Potential(c: Limits, s: State, row: nat): nat {
    if row >= |s.db.rows| then Bound(c)
    else
      var t := s.db.rows[row];
      var claims := Max(0, Budget(c) - t.attempts);
      var recoveries := Max(0, c.recovery - t.attempts - (if t.status.Processing? then 0 else 1));
      s.held[row] + s.queued[row] + claims + recoveries
  }

  lemma StepSpendsPotential(c: Limits, s: State, e: Event, row: nat)
    requires ValidLimits(c) && Inv(c, s) && Enabled(s, e)
    ensures (if e == Dequeue(row) then 1 else 0) + Potential(c, Apply(c, s, e), row) <= Potential(c, s, row)
  {
    var s' := Apply(c, s, e);
    match e {
      case Submit(_, _) =>
        assert row >= |s.db.rows| ==> row !in s.held && row !in s.queued;
      case RefreshTick(_, _) =>
        RefreshRowsAreNew(s.db.rows, e.domains, e.freshIds, s.now);
        assert row >= |s.db.rows| ==> row !in s.held && row !in s.queued;
      case Claim(ids, _) =>
        assert row < |s.db.rows| ==> RowInv(c, s.db.rows[row]);
      case Recover(expired) =>
        assert row < |s.db.rows| ==> RowInv(c, s.db.rows[row]);
        assert row in Redispatched(s.db.rows, expired, c.recovery) ==> row in expired;
      case Finish(i, o) =>
        FinishSpends(c, s, i, o, row);
      case _ =>
    }
  }

  lemma FinishSpends(c: Limits, s: State, i: nat, o: Outcome, row: nat)
    requires Inv(c, s) && Enabled(s, Finish(i, o))
    ensures Potential(c, Apply(c, s, Finish(i, o)), row) <= Potential(c, s, row)
  {
  }

  lemma {:induction false} RunSpendsPotential(c: Limits, s: State, es: seq<Event>, row: nat)
    requires ValidLimits(c) && Inv(c, s) && Valid(c, s, es)
    ensures Deliveries(es, row) + Potential(c, Exec(c, s, es), row) <= Potential(c, s, row)
    decreases |es|
  {
    if es != [] {
      StepKeepsInv(c, s, es[0]);
      StepSpendsPotential(c, s, es[0], row);
      RunSpendsPotential(c, Apply(c, s, es[0]), es[1..], row);
    }
  }

  /**
   In every run, however leases expire, a task is handed to workers at most Budget + recovery - 1
   times, which is 2 * max_attempts - 1 when both settings agree.
   */
  lemma ProcessingBound(c: Limits, now: int, es: seq<Event>, row: nat)
    requires ValidLimits(c) && Valid(c, Start(now), es)
    ensures Deliveries(es, row) <= Bound(c) <= 2 * Budget(c) - 1
  {
    RunSpendsPotential(c, Start(now), es, row);
  }

  // ---- The bound is reached ----

  function Row(status: Status, attempts: nat, lease: Option<int>): Task {
    Task(0, Some(0), 0, UserRequest, status, attempts, lease, 0)
  }

  function Solo(t: Task, held: multiset<nat>, queued: multiset<nat>, running: multiset<nat>, now: int): State {
    State(Tables([t], map[0 := Pending]), held, queued, running, now)
  }

  function Idle(attempts: nat, now: int): State {
    Solo(Row(Pending, attempts, None), multiset{}, multiset{}, multiset{}, now)
  }

  lemma ClaimAndEnqueue(c: Limits, a: nat, now: int)
    ensures var es := [Claim({0}, now), Enqueue(0)];
            && Valid(c, Idle(a, now), es)
            && Exec(c, Idle(a, now), es)
               == Solo(Row(Processing, a + 1, Some(now)), multiset{}, multiset{0}, multiset{}, now)
  {
    var t := Row(Processing, a + 1, Some(now));
    var s1 := Solo(t, multiset{0}, multiset{}, multiset{}, now);
    var s2 := Solo(t, multiset{}, multiset{0}, multiset{}, now);
    assert Apply(c, Idle(a, now), Claim({0}, now)).db.rows == [t];
    Chain(c, Idle(a, now), Claim({0}, now), s1, Enqueue(0), s2);
  }

  /** One claim whose worker ends without writing, or reschedules: delivered once. */
  lemma ClaimRound(c: Limits, a: nat, now: int, o: Outcome) returns (es: seq<Event>)
    requires o.NoWrite? || (o.Reschedule? && a + 1 < c.worker)
    ensures var end := if o.NoWrite? then Row(Processing, a + 1, Some(now)) else Row(Pending, a + 1, None);
            && Valid(c, Idle(a, now), es)
            && Exec(c, Idle(a, now), es) == Solo(end, multiset{}, multiset{}, multiset{}, now)
            && Deliveries(es, 0) == 1
  {
    var t := Row(Processing, a + 1, Some(now));
    var s2 := Solo(t, multiset{}, multiset{0}, multiset{}, now);
    var s3 := Solo(t, multiset{}, multiset{}, multiset{0}, now);
    var end := if o.NoWrite? then t else Row(Pending, a + 1, None);
    var s4 := Solo(end, multiset{}, multiset{}, multiset{}, now);
    ClaimAndEnqueue(c, a, now);
    Chain(c, s2, Dequeue(0), s3, Finish(0, o), s4);
    RunsCompose(c, Idle(a, now), [Claim({0}, now), Enqueue(0)], [Dequeue(0), Finish(0, o)]);
    DeliveriesAdd([Claim({0}, now), Enqueue(0)], [Dequeue(0), Finish(0, o)], 0);
    CountTwo(Claim({0}, now), Enqueue(0));
    CountTwo(Dequeue(0), Finish(0, o));
    es := [Claim({0}, now), Enqueue(0)] + [Dequeue(0), Finish(0, o)];
  }

  lemma ExpiryRound(c: Limits, a: nat, now: int)
    requires a < c.recovery
    ensures var s := Solo(Row(Processing, a, Some(now)), multiset{}, multiset{}, multiset{}, now);
            && Valid(c, s, [Advance(1), Recover({0})])
            && Exec(c, s, [Advance(1), Recover({0})])
               == Solo(Row(Pending, a, None), multiset{0}, multiset{}, multiset{}, now + 1)
  {
    var p := Row(Processing, a, Some(now));
    var t := Row(Pending, a, None);
    var s0 := Solo(p, multiset{}, multiset{}, multiset{}, now);
    var s1 := Solo(p, multiset{}, multiset{}, multiset{}, now + 1);
    var s2 := Solo(t, multiset{0}, multiset{}, multiset{}, now + 1);
    assert Apply(c, s1, Recover({0})).db.rows == [t];
    assert Redispatched([p], {0}, c.recovery) == {0};
    Chain(c, s0, Advance(1), s1, Recover({0}), s2);
  }

  lemma HandOverRound(c: Limits, t: Task, now: int)
    ensures var s := Solo(t, multiset{0}, multiset{}, multiset{}, now);
            var es := [Enqueue(0), Dequeue(0)] + [Finish(0, NoWrite), Advance(0)];
            && Valid(c, s, es)
            && Exec(c, s, es) == Solo(t, multiset{}, multiset{}, multiset{}, now)
  {
    var s2 := Solo(t, multiset{0}, multiset{}, multiset{}, now);
    var s3 := Solo(t, multiset{}, multiset{0}, multiset{}, now);
    var s4 := Solo(t, multiset{}, multiset{}, multiset{0}, now);
    var s5 := Solo(t, multiset{}, multiset{}, multiset{}, now);
    Chain(c, s2, Enqueue(0), s3, Dequeue(0), s4);
    Chain(c, s4, Finish(0, NoWrite), s5, Advance(0), s5);
    RunsCompose(c, s2, [Enqueue(0), Dequeue(0)], [Finish(0, NoWrite), Advance(0)]);
  }

  /** The lease expires, recovery hands the copy on, and a second worker gets it. */
  lemma RecoveryRound(c: Limits, a: nat, now: int) returns (es: seq<Event>)
    requires 1 <= a < c.recovery
    ensures var s := Solo(Row(Processing, a, Some(now)), multiset{}, multiset{}, multiset{}, now);
            && Valid(c, s, es)
            && Exec(c, s, es) == Idle(a, now + 1)
            && Deliveries(es, 0) == 1
  {
    var s := Solo(Row(Processing, a, Some(now)), multiset{}, multiset{}, multiset{}, now);
    var handOver := [Enqueue(0), Dequeue(0)] + [Finish(0, NoWrite), Advance(0)];
    ExpiryRound(c, a, now);
    HandOverRound(c, Row(Pending, a, None), now + 1);
    RunsCompose(c, s, [Advance(1), Recover({0})], handOver);
    DeliveriesAdd([Enqueue(0), Dequeue(0)], [Finish(0, NoWrite), Advance(0)], 0);
    DeliveriesAdd([Advance(1), Recover({0})], handOver, 0);
    CountTwo(Enqueue(0), Dequeue(0));
    CountTwo(Finish(0, NoWrite), Advance(0));
    CountTwo(Advance(1), Recover({0}));
    es := [Advance(1), Recover({0})] + handOver;
  }

  lemma CountTwo(e0: Event, e1: Event)
    ensures Deliveries([e0, e1], 0) == (if e0 == Dequeue(0) then 1 else 0) + (if e1 == Dequeue(0) then 1 else 0)
  {
    DeliveriesAdd([e0], [e1], 0);
    assert [e0] + [e1] == [e0, e1];
    assert [e0][1..] == [] && [e1][1..] == [];
  }

  lemma Chain(c: Limits, s0: State, e0: Event, s1: State, e1: Event, s2: State)
    requires Enabled(s0, e0) && Apply(c, s0, e0) == s1
    requires Enabled(s1, e1) && Apply(c, s1, e1) == s2
    ensures Valid(c, s0, [e0, e1]) && Exec(c, s0, [e0, e1]) == s2
  {
    assert [e0, e1][1..] == [e1] && [e1][1..] == [];
    assert Valid(c, s2, []);
    assert Valid(c, s1, [e1]) && Exec(c, s1, [e1]) == s2;
  }

  lemma {:induction false} DeliveriesAdd(a: seq<Event>, b: seq<Event>, row: nat)
    ensures Deliveries(a + b, row) == Deliveries(a, row) + Deliveries(b, row)
  {
    if a == [] {
      assert a + b == b;
    } else {
      DeliveriesAdd(a[1..], b, row);
      assert (a + b)[1..] == a[1..] + b;
    }
  }

  lemma Join(c: Limits, s: State, a: seq<Event>, mid: State, b: seq<Event>)
    requires Valid(c, s, a) && Exec(c, s, a) == mid && Valid(c, mid, b)
    ensures Valid(c, s, a + b) && Exec(c, s, a + b) == Exec(c, mid, b)
    ensures Deliveries(a + b, 0) == Deliveries(a, 0) + Deliveries(b, 0)
  {
    RunsCompose(c, s, a, b);
    DeliveriesAdd(a, b, 0);
  }

  /** One more attempt used up, with two hand-overs while recovery still re-dispatches, else with one. */
  lemma OneAttempt(c: Limits, a: nat, now: int) returns (es: seq<Event>, later: int)
    requires ValidLimits(c) && a + 1 < Budget(c)
    ensures Valid(c, Idle(a, now), es) && Exec(c, Idle(a, now), es) == Idle(a + 1, later)
    ensures Deliveries(es, 0) == if a + 1 < c.recovery then 2 else 1
  {
    if a + 1 < c.recovery {
      var first := ClaimRound(c, a, now, NoWrite);
      var second := RecoveryRound(c, a + 1, now);
      var mid := Solo(Row(Processing, a + 1, Some(now)), multiset{}, multiset{}, multiset{}, now);
      Join(c, Idle(a, now), first, mid, second);
      es, later := first + second, now + 1;
    } else {
      es := ClaimRound(c, a, now, Reschedule);
      later := now;
    }
  }

  lemma {:induction false} WorstCase(c: Limits, a: nat, now: int) returns (es: seq<Event>)
    requires ValidLimits(c) && a < Budget(c)
    ensures Valid(c, Idle(a, now), es)
    ensures Deliveries(es, 0) == Budget(c) - a + Max(0, c.recovery - 1 - a)
    decreases Budget(c) - a
  {
    if a + 1 < Budget(c) {
      var first, later := OneAttempt(c, a, now);
      var rest := WorstCase(c, a + 1, later);
      Join(c, Idle(a, now), first, Idle(a + 1, later), rest);
      es := first + rest;
    } else {
      es := ClaimRound(c, a, now, NoWrite);
    }
  }

  lemma SubmitOne(c: Limits, now: int) returns (e: Event)
    ensures e == Submit(0, [Row(Pending, 0, None)])
    ensures Enabled(Start(now), e) && Apply(c, Start(now), e) == Idle(0, now)
  {
    e := Submit(0, [Row(Pending, 0, None)]);
    assert Apply(c, Start(now), e).db.rows == [Row(Pending, 0, None)];
  }

  /** For all limits, some run from the empty database hands one task over exactly `Bound` times. */
  lemma BoundIsReached(c: Limits, now: int) returns (es: seq<Event>)
    requires ValidLimits(c)
    ensures Valid(c, Start(now), es) && Deliveries(es, 0) == Bound(c)
  {
    var e := SubmitOne(c, now);
    var rest := WorstCase(c, 0, now);
    assert ([e] + rest)[1..] == rest;
    es := [e] + rest;
  }
}
