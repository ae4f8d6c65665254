/**
 Termination of the pipeline under every interleaving, and what a run that has stopped has reached.
 */
module Termination {
  import opened Records
  import opened TaskTable
  import opened Pipeline

  /** What row `i` can still cause: unused attempts, an open lease, and copies by how far they got. */
  function Weight(c: Limits, s: State, i: nat): nat
    requires i < |s.db.rows|
  {
    var t := s.db.rows[i];
    8 * Max(0, Budget(c) - t.attempts) + (if t.status.Processing? then 4 else 0)
    + 3 * s.held[i] + 2 * s.queued[i] + s.running[i]
  }

  function Sum(ws: seq<nat>): nat {
    if ws == [] then 0 else ws[0] + Sum(ws[1..])
  }

  function Weights(c: Limits, s: State): (ws: seq<nat>)
    ensures |ws| == |s.db.rows|
    ensures forall i :: 0 <= i < |ws| ==> ws[i] == Weight(c, s, i)
  {
    seq(|s.db.rows|, i requires 0 <= i < |s.db.rows| => Weight(c, s, i))
  }

  function Measure(c: Limits, s: State): nat {
    Sum(Weights(c, s))
  }

  lemma {:induction false} SumDrops(a: seq<nat>, b: seq<nat>)
    requires |a| == |b| && forall i :: 0 <= i < |a| ==> b[i] <= a[i]
    ensures Sum(b) <= Sum(a)
    ensures (exists i :: 0 <= i < |a| && b[i] < a[i]) ==> Sum(b) < Sum(a)
  {
    if a != [] {
      SumDrops(a[1..], b[1..]);
      if i :| 0 <= i < |a| && b[i] < a[i] {
        if i > 0 {
          assert b[1..][i - 1] < a[1..][i - 1];
        }
      }
    }
  }

  lemma {:induction false} SumGrows(a: seq<nat>, b: seq<nat>, w: nat)
    requires |a| <= |b| && (forall i :: 0 <= i < |a| ==> b[i] == a[i]) && (forall i :: |a| <= i < |b| ==> b[i] == w)
    ensures Sum(b) + w * |a| == Sum(a) + w * |b|
    decreases |b|
  {
    if a != [] {
      SumGrows(a[1..], b[1..], w);
    } else if b != [] {
      SumGrows([], b[1..], w);
    }
  }

  /** The step did something other than let time pass. */
  predicate Changes(s: State, s': State) {
    s'.(now := s.now) != s
  }

  /** Every row weighs at most what it did, and some row weighs less. */
  ghost predicate Lighter(c: Limits, s: State, s': State) {
    && |s'.db.rows| == |s.db.rows|
    && (forall i {:trigger Weight(c, s', i)} :: 0 <= i < |s.db.rows| ==> Weight(c, s', i) <= Weight(c, s, i))
    && (exists i {:trigger Weight(c, s', i)} :: 0 <= i < |s.db.rows| && Weight(c, s', i) < Weight(c, s, i))
  }

  /** Polls that find nothing, and crashes that lose nothing, are not changes. */
  lemma EmptyBatchesChangeNothing(c: Limits, s: State, lease: int)
    ensures Apply(c, s, Claim({}, lease)) == s
    ensures Apply(c, s, Recover({})) == s
    ensures Apply(c, s, Crash(multiset{}, multiset{}, multiset{})) == s
  {
    assert Apply(c, s, Claim({}, lease)).db.rows == s.db.rows;
    assert Apply(c, s, Recover({})).db.rows == s.db.rows;
    assert Redispatched(s.db.rows, {}, c.recovery) == {};
  }

  lemma ClaimLightens(c: Limits, s: State, e: Event)
    requires ValidLimits(c) && Inv(c, s) && Enabled(s, e) && e.Claim? && e.ids != {}
    ensures Lighter(c, s, Apply(c, s, e))
  {
    var s' := Apply(c, s, e);
    var k :| k in e.ids;
    forall i | 0 <= i < |s.db.rows|
      ensures Weight(c, s', i) <= Weight(c, s, i) && (i in e.ids ==> Weight(c, s', i) < Weight(c, s, i))
    {
      assert RowInv(c, s.db.rows[i]);
    }
    assert Weight(c, s', k) < Weight(c, s, k);
  }

  lemma RecoverLightens(c: Limits, s: State, e: Event)
    requires ValidLimits(c) && Inv(c, s) && Enabled(s, e) && e.Recover? && e.expired != {}
    ensures Lighter(c, s, Apply(c, s, e))
  {
    var s' := Apply(c, s, e);
    var k :| k in e.expired;
    forall i | 0 <= i < |s.db.rows|
      ensures Weight(c, s', i) <= Weight(c, s, i) && (i in e.expired ==> Weight(c, s', i) < Weight(c, s, i))
    {
      assert RowInv(c, s.db.rows[i]);
      assert i in Redispatched(s.db.rows, e.expired, c.recovery) ==> i in e.expired;
    }
    assert Weight(c, s', k) < Weight(c, s, k);
  }

  lemma QueueLightens(c: Limits, s: State, e: Event)
    requires Inv(c, s) && Enabled(s, e) && (e.Enqueue? || e.Dequeue?)
    ensures Lighter(c, s, Apply(c, s, e))
  {
    var s' := Apply(c, s, e);
    assert Weight(c, s', e.row) < Weight(c, s, e.row);
  }

  /** A worker's last write leaves the attempts alone and never makes a task PROCESSING. */
  lemma WritesOnlyEnd(db: Tables, i: nat, o: Outcome, max: nat, k: nat)
    requires k < |db.rows|
    ensures var db' := WriteOutcome(db, i, o, max);
            && |db'.rows| == |db.rows|
            && db'.rows[k].attempts == db.rows[k].attempts
            && (db'.rows[k].status.Processing? ==> db.rows[k].status.Processing?)
            && (k != i ==> db'.rows[k] == db.rows[k])
  {
  }

  lemma FinishLightens(c: Limits, s: State, e: Event)
    requires Inv(c, s) && Enabled(s, e) && e.Finish?
    ensures Lighter(c, s, Apply(c, s, e))
  {
    var s' := Apply(c, s, e);
    forall i | 0 <= i < |s.db.rows|
      ensures |s'.db.rows| == |s.db.rows|
      ensures Weight(c, s', i) <= Weight(c, s, i) && (i == e.row ==> Weight(c, s', i) < Weight(c, s, i))
    {
      WritesOnlyEnd(s.db, e.row, e.outcome, c.worker, i);
    }
    assert Weight(c, s', e.row) < Weight(c, s, e.row);
  }

  lemma CrashLightens(c: Limits, s: State, e: Event, k: nat)
    requires Inv(c, s) && Enabled(s, e) && e.Crash?
    requires k in e.lostHeld || k in e.lostQueued || k in e.lostRunning
    ensures Lighter(c, s, Apply(c, s, e))
  {
    var s' := Apply(c, s, e);
    forall i | 0 <= i < |s.db.rows|
      ensures Weight(c, s', i) <= Weight(c, s, i)
    {
      assert s'.held[i] <= s.held[i] && s'.queued[i] <= s.queued[i] && s'.running[i] <= s.running[i];
    }
    assert k in s.held || k in s.queued || k in s.running;
    assert Weight(c, s', k) < Weight(c, s, k);
  }

  lemma ChangingCrashLightens(c: Limits, s: State, e: Event)
    requires Inv(c, s) && Enabled(s, e) && e.Crash? && Changes(s, Apply(c, s, e))
    ensures Lighter(c, s, Apply(c, s, e))
  {
    if e.lostHeld != multiset{} {
      var k :| k in e.lostHeld;
      CrashLightens(c, s, e, k);
    } else if e.lostQueued != multiset{} {
      var k :| k in e.lostQueued;
      CrashLightens(c, s, e, k);
    } else if e.lostRunning != multiset{} {
      var k :| k in e.lostRunning;
      CrashLightens(c, s, e, k);
    } else {
      EmptyBatchesChangeNothing(c, s, 0);
    }
  }

  lemma ChangeLightens(c: Limits, s: State, e: Event)
    requires ValidLimits(c) && Inv(c, s) && Enabled(s, e) && !Creates(e) && Changes(s, Apply(c, s, e))
    ensures Lighter(c, s, Apply(c, s, e))
  {
    match e {
      case Claim(ids, lease) =>
        if ids == {} {
          EmptyBatchesChangeNothing(c, s, lease);
        } else {
          ClaimLightens(c, s, e);
        }
      case Recover(expired) =>
        if expired == {} {
          EmptyBatchesChangeNothing(c, s, 0);
        } else {
          RecoverLightens(c, s, e);
        }
      case Crash(_, _, _) => ChangingCrashLightens(c, s, e);
      case Finish(_, _) => FinishLightens(c, s, e);
      case Enqueue(_) => QueueLightens(c, s, e);
      case Dequeue(_) => QueueLightens(c, s, e);
      case Advance(_) =>
    }
  }

  lemma LighterMeansLess(c: Limits, s: State, s': State)
    requires Lighter(c, s, s')
    ensures Measure(c, s') < Measure(c, s)
  {
    SumDrops(Weights(c, s), Weights(c, s'));
    var k :| 0 <= k < |s.db.rows| && Weight(c, s', k) < Weight(c, s, k);
    assert Weights(c, s')[k] < Weights(c, s)[k];
  }

  lemma TimeWeighsNothing(c: Limits, s: State, s': State)
    requires !Changes(s, s')
    ensures Measure(c, s') == Measure(c, s) && |s'.db.rows| == |s.db.rows|
  {
    assert forall i :: 0 <= i < |s.db.rows| ==> Weight(c, s', i) == Weight(c, s, i);
    assert Weights(c, s') == Weights(c, s);
  }

  /** The weighted measure strictly drops on every step that changes anything, creation aside. */
  lemma StepLowersMeasure(c: Limits, s: State, e: Event)
    requires ValidLimits(c) && Inv(c, s) && Enabled(s, e) && !Creates(e)
    ensures |Apply(c, s, e).db.rows| == |s.db.rows|
    ensures Changes(s, Apply(c, s, e)) ==> Measure(c, Apply(c, s, e)) < Measure(c, s)
    ensures !Changes(s, Apply(c, s, e)) ==> Measure(c, Apply(c, s, e)) == Measure(c, s)
  {
    var s' := Apply(c, s, e);
    if Changes(s, s') {
      ChangeLightens(c, s, e);
      LighterMeansLess(c, s, s');
    } else {
      TimeWeighsNothing(c, s, s');
    }
  }

  /** A created row weighs 8 for each attempt it may make, and nothing else gets heavier. */
  lemma CreationAddsBudget(c: Limits, s: State, e: Event)
    requires ValidLimits(c) && Inv(c, s) && Enabled(s, e) && Creates(e)
    ensures var s' := Apply(c, s, e);
            |s'.db.rows| >= |s.db.rows|
            && Measure(c, s') + 8 * Budget(c) * |s.db.rows| == Measure(c, s) + 8 * Budget(c) * |s'.db.rows|
  {
    var s' := Apply(c, s, e);
    if e.RefreshTick? {
      RefreshRowsAreNew(s.db.rows, e.domains, e.freshIds, s.now);
    }
    forall i | |s.db.rows| <= i < |s'.db.rows| ensures Weight(c, s', i) == 8 * Budget(c) {
      assert i !in s.held && i !in s.queued && i !in s.running;
    }
    SumGrows(Weights(c, s), Weights(c, s'), 8 * Budget(c));
  }

  /** The steps of a run that change something and are not the arrival of new work. */
  ghost function Changing(c: Limits, s: State, es: seq<Event>): nat
    requires Valid(c, s, es)
    decreases |es|
  {
    if es == [] then 0
    else
      var s' := Apply(c, s, es[0]);
      (if !Creates(es[0]) && Changes(s, s') then 1 else 0) + Changing(c, s', es[1..])
  }

  /** Every run pays for each changing step out of the measure; only new rows add to it. */
  lemma {:induction false} RunsPayForSteps(c: Limits, s: State, es: seq<Event>)
    requires ValidLimits(c) && Inv(c, s) && Valid(c, s, es)
    ensures |Exec(c, s, es).db.rows| >= |s.db.rows|
    ensures Changing(c, s, es) + Measure(c, Exec(c, s, es)) + 8 * Budget(c) * |s.db.rows|
            <= Measure(c, s) + 8 * Budget(c) * |Exec(c, s, es).db.rows|
    decreases |es|
  {
    if es != [] {
      var s' := Apply(c, s, es[0]);
      StepKeepsInv(c, s, es[0]);
      if Creates(es[0]) {
        CreationAddsBudget(c, s, es[0]);
      } else {
        StepLowersMeasure(c, s, es[0]);
      }
      RunsPayForSteps(c, s', es[1..]);
    }
  }

  /**
   Termination under every interleaving: whatever is claimed, recovered, re-dispatched, written
   late or lost in a crash, a run from the empty database makes at most 8 * max_attempts changing
   steps for each task ever created; so with a fixed task set every run stops changing.
   */
  lemma EveryRunIsFinite(c: Limits, now: int, es: seq<Event>)
    requires ValidLimits(c) && Valid(c, Start(now), es)
    ensures Changing(c, Start(now), es) <= 8 * Budget(c) * |Exec(c, Start(now), es).db.rows|
  {
    RunsPayForSteps(c, Start(now), es);
  }

  // ---- Quiescence ----

  function Later(s: State, seconds: nat): State {
    s.(now := s.now + seconds)
  }

  /** No step, now or after any wait, changes anything; only new work could. */
  ghost predicate Quiescent(c: Limits, s: State) {
    forall d: nat, e: Event {:trigger Enabled(Later(s, d), e)} ::
      !Creates(e) && Enabled(Later(s, d), e) ==> !Changes(Later(s, d), Apply(c, Later(s, d), e))
  }

  ghost predicate Done(s: State) {
    && (forall i :: 0 <= i < |s.db.rows| ==> Terminal(s.db.rows[i].status))
    && s.held == multiset{} && s.queued == multiset{} && s.running == multiset{}
  }

  /** A copy of a task can always be moved on, or its worker can stop. */
  lemma CopyMovesOn(c: Limits, s: State, k: nat) returns (e: Event)
    requires k in s.held || k in s.queued || k in s.running
    ensures !Creates(e) && Enabled(s, e) && Changes(s, Apply(c, s, e))
  {
    if k in s.held {
      e := Enqueue(k);
      assert Apply(c, s, e).held[k] == s.held[k] - 1;
    } else if k in s.queued {
      e := Dequeue(k);
      assert Apply(c, s, e).queued[k] == s.queued[k] - 1;
    } else {
      e := Finish(k, NoWrite);
      assert Apply(c, s, e).running[k] == s.running[k] - 1;
    }
  }

  /** A row that is not terminal can be claimed, or recovered once its lease has passed. */
  lemma RowMovesOn(c: Limits, s: State, i: nat) returns (d: nat, e: Event)
    requires ValidLimits(c) && Inv(c, s) && i < |s.db.rows| && !Terminal(s.db.rows[i].status)
    ensures !Creates(e) && Enabled(Later(s, d), e) && Changes(Later(s, d), Apply(c, Later(s, d), e))
  {
    assert RowInv(c, s.db.rows[i]);
    if s.db.rows[i].status.Pending? {
      d, e := 0, Claim({i}, 0);
      assert Apply(c, Later(s, d), e).db.rows[i].status.Processing?;
    } else {
      d, e := Max(0, s.db.rows[i].lease.value + 1 - s.now), Recover({i});
      assert !Apply(c, Later(s, d), e).db.rows[i].status.Processing?;
    }
  }

  /** A step that still has something to do, found from a state that is not done. */
  lemma WorkRemains(c: Limits, s: State) returns (d: nat, e: Event)
    requires ValidLimits(c) && Inv(c, s) && !Done(s)
    ensures !Creates(e) && Enabled(Later(s, d), e) && Changes(Later(s, d), Apply(c, Later(s, d), e))
  {
    if k :| k in s.held || k in s.queued || k in s.running {
      d := 0;
      assert Later(s, 0) == s;
      e := CopyMovesOn(c, s, k);
    } else {
      assert s.held == multiset{} && s.queued == multiset{} && s.running == multiset{};
      var i :| 0 <= i < |s.db.rows| && !Terminal(s.db.rows[i].status);
      d, e := RowMovesOn(c, s, i);
    }
  }

  /**
   Quiescence means done, and only that: nothing can happen now or later exactly when every task is
   COMPLETED or FAILED and no copy of a task is left anywhere.
   */
  lemma QuiescentIffDone(c: Limits, now: int, es: seq<Event>)
    requires ValidLimits(c) && Valid(c, Start(now), es)
    ensures Quiescent(c, Exec(c, Start(now), es)) <==> Done(Exec(c, Start(now), es))
  {
    RunKeepsInv(c, Start(now), es);
    var s := Exec(c, Start(now), es);
    if !Done(s) {
      var d, e := WorkRemains(c, s);
      assert !Quiescent(c, s);
    } else {
      forall d: nat, e: Event | !Creates(e) && Enabled(Later(s, d), e)
        ensures !Changes(Later(s, d), Apply(c, Later(s, d), e))
      {
        DoneIsStill(c, Later(s, d), e);
      }
    }
  }

  lemma DoneIsStill(c: Limits, s: State, e: Event)
    requires Done(s) && Enabled(s, e) && !Creates(e)
    ensures !Changes(s, Apply(c, s, e))
  {
    EmptyBatchesChangeNothing(c, s, if e.Claim? then e.lease else 0);
    match e
    case Claim(ids, _) => assert ids == {};
    case Recover(expired) => assert expired == {};
    case Crash(h, q, r) => assert h == q == r == multiset{};
    case _ =>
  }

  ghost predicate NoCreation(es: seq<Event>) {
    forall k :: 0 <= k < |es| ==> !Creates(es[k])
  }

  lemma Prepend(c: Limits, s: State, e: Event, s': State, es: seq<Event>)
    requires Enabled(s, e) && s' == Apply(c, s, e) && Valid(c, s', es)
    ensures Valid(c, s, [e] + es) && Exec(c, s, [e] + es) == Exec(c, s', es)
    ensures !Creates(e) && NoCreation(es) ==> NoCreation([e] + es)
  {
    assert ([e] + es)[1..] == es;
  }

  /** Wait, then take a step that has something to do. */
  lemma NextStep(c: Limits, s: State) returns (d: nat, e: Event)
    requires ValidLimits(c) && Inv(c, s) && !Done(s)
    ensures !Creates(e) && Enabled(Later(s, d), e)
    ensures var s' := Apply(c, Later(s, d), e);
            Inv(c, s') && Measure(c, s') < Measure(c, s) && |s'.db.rows| == |s.db.rows|
  {
    d, e := WorkRemains(c, s);
    StepKeepsInv(c, s, Advance(d));
    StepLowersMeasure(c, s, Advance(d));
    StepLowersMeasure(c, Later(s, d), e);
    StepKeepsInv(c, Later(s, d), e);
  }

  lemma WaitAndStep(c: Limits, s: State, d: nat, e: Event, rest: seq<Event>)
    requires Enabled(Later(s, d), e) && !Creates(e)
    requires Valid(c, Apply(c, Later(s, d), e), rest) && NoCreation(rest)
    ensures var es := [Advance(d)] + ([e] + rest);
            Valid(c, s, es) && NoCreation(es) && Exec(c, s, es) == Exec(c, Apply(c, Later(s, d), e), rest)
  {
    var s1 := Later(s, d);
    var s2 := Apply(c, s1, e);
    Prepend(c, s1, e, s2, rest);
    Prepend(c, s, Advance(d), s1, [e] + rest);
  }

  /** From every reachable state the system can still bring every task to an end: no state is a dead end. */
  lemma {:induction false} CanAlwaysFinish(c: Limits, s: State) returns (es: seq<Event>)
    requires ValidLimits(c) && Inv(c, s)
    ensures Valid(c, s, es) && NoCreation(es)
    ensures Done(Exec(c, s, es)) && |Exec(c, s, es).db.rows| == |s.db.rows|
    decreases Measure(c, s)
  {
    if Done(s) {
      es := [];
    } else {
      var d, e := NextStep(c, s);
      var s' := Apply(c, Later(s, d), e);
      var rest := CanAlwaysFinish(c, s');
      WaitAndStep(c, s, d, e, rest);
      es := [Advance(d)] + ([e] + rest);
    }
  }
}
