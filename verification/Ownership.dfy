/** What holds as long as no lease expires: single ownership, absorbing ends, and one live refresh. */
module Ownership {
  import opened Records
  import opened TaskTable
  import opened Pipeline
  import opened Dispatch

  function Copies(s: State, i: nat): nat {
    s.held[i] + s.queued[i] + s.running[i]
  }

  /** A task has at most one copy anywhere, and only while its row is PROCESSING. */
  ghost predicate SingleOwner(s: State) {
    forall i: nat {:trigger Copies(s, i)} ::
      Copies(s, i) <= 1 && (Copies(s, i) == 1 ==> i < |s.db.rows| && s.db.rows[i].status.Processing?)
  }

  ghost predicate CompletedJobsAreDone(s: State) {
    forall j :: j in s.db.jobs && s.db.jobs[j].Completed? ==> JobDone(s.db.rows, j)
  }

  ghost predicate OneLiveRefresh(s: State) {
    forall d: nat :: !ManyLive(s.db.rows, d)
  }

  ghost predicate Owned(s: State) {
    SingleOwner(s) && CompletedJobsAreDone(s) && OneLiveRefresh(s)
  }

  /** Once ended, a task row is never written again, and a completed job stays completed. */
  ghost predicate EndsAreKept(s: State, s': State) {
    && |s.db.rows| <= |s'.db.rows|
    && (forall i :: 0 <= i < |s.db.rows| && Terminal(s.db.rows[i].status) ==> s'.db.rows[i] == s.db.rows[i])
    && (forall j :: j in s.db.jobs && s.db.jobs[j].Completed? ==> j in s'.db.jobs && s'.db.jobs[j].Completed?)
  }

  ghost predicate NoRecovery(es: seq<Event>) {
    forall k :: 0 <= k < |es| ==> !es[k].Recover?
  }

  lemma ClaimKeepsSingleOwner(c: Limits, s: State, e: Event)
    requires SingleOwner(s) && Enabled(s, e) && e.Claim?
    ensures SingleOwner(Apply(c, s, e))
  {
    var s' := Apply(c, s, e);
    forall i: nat
      ensures Copies(s', i) <= 1 && (Copies(s', i) == 1 ==> i < |s'.db.rows| && s'.db.rows[i].status.Processing?)
    {
      assert Copies(s, i) <= 1;
      assert i in e.ids ==> Copies(s, i) == 0;
    }
  }

  lemma FinishKeepsSingleOwner(c: Limits, s: State, e: Event)
    requires SingleOwner(s) && Enabled(s, e) && e.Finish?
    ensures SingleOwner(Apply(c, s, e))
  {
    var s' := Apply(c, s, e);
    assert Copies(s, e.row) == 1;
    forall i: nat
      ensures Copies(s', i) <= 1 && (Copies(s', i) == 1 ==> i < |s'.db.rows| && s'.db.rows[i].status.Processing?)
    {
      assert Copies(s, i) <= 1;
    }
  }

  lemma CopyKeepsSingleOwner(c: Limits, s: State, e: Event)
    requires SingleOwner(s) && Enabled(s, e) && !e.Claim? && !e.Finish? && !e.Recover?
    ensures SingleOwner(Apply(c, s, e))
  {
    var s' := Apply(c, s, e);
    if e.RefreshTick? {
      RefreshRowsAreNew(s.db.rows, e.domains, e.freshIds, s.now);
    }
    assert s.db.rows <= s'.db.rows;
    forall i: nat
      ensures Copies(s', i) <= 1 && (Copies(s', i) == 1 ==> i < |s'.db.rows| && s'.db.rows[i].status.Processing?)
    {
      assert Copies(s, i) <= 1;
      assert Copies(s', i) <= Copies(s, i);
    }
  }

  lemma StepKeepsSingleOwner(c: Limits, s: State, e: Event)
    requires SingleOwner(s) && Enabled(s, e) && !e.Recover?
    ensures SingleOwner(Apply(c, s, e))
  {
    if e.Claim? {
      ClaimKeepsSingleOwner(c, s, e);
    } else if e.Finish? {
      FinishKeepsSingleOwner(c, s, e);
    } else {
      CopyKeepsSingleOwner(c, s, e);
    }
  }

  lemma StepKeepsEnds(c: Limits, s: State, e: Event)
    requires SingleOwner(s) && Enabled(s, e) && !e.Recover?
    ensures |s.db.rows| <= |Apply(c, s, e).db.rows|
    ensures forall i :: 0 <= i < |s.db.rows| && Terminal(s.db.rows[i].status) ==>
              Apply(c, s, e).db.rows[i] == s.db.rows[i]
  {
    if e.RefreshTick? {
      RefreshRowsAreNew(s.db.rows, e.domains, e.freshIds, s.now);
    } else if e.Finish? {
      FinishOfOwner(c, s, e.row, e.outcome);
    }
  }

  /** Each row keeps its job, domain and type, and only a finishing, unshared row changes status. */
  lemma FinishOfOwner(c: Limits, s: State, i: nat, o: Outcome)
    requires SingleOwner(s) && Enabled(s, Finish(i, o))
    ensures i < |s.db.rows| && s.db.rows[i].status.Processing?
    ensures var rows' := Apply(c, s, Finish(i, o)).db.rows;
            && |rows'| == |s.db.rows|
            && rows' == s.db.rows[i := s.db.rows[i].(status := rows'[i].status, lease := rows'[i].lease)]
  {
    assert Copies(s, i) == 1;
  }

  lemma FinishKeepsJobs(c: Limits, s: State, i: nat, o: Outcome)
    requires SingleOwner(s) && CompletedJobsAreDone(s) && Enabled(s, Finish(i, o))
    ensures CompletedJobsAreDone(Apply(c, s, Finish(i, o)))
    ensures forall j :: j in s.db.jobs && s.db.jobs[j].Completed? ==>
              j in Apply(c, s, Finish(i, o)).db.jobs && Apply(c, s, Finish(i, o)).db.jobs[j].Completed?
  {
    var s' := Apply(c, s, Finish(i, o));
    FinishOfOwner(c, s, i, o);
    forall j | j in s'.db.jobs && s'.db.jobs[j].Completed? ensures JobDone(s'.db.rows, j) {
      OpenCountsJob(s'.db.rows, j);
      if j in s.db.jobs && s.db.jobs[j].Completed? {
        assert JobDone(s.db.rows, j);
        assert s.db.rows[i].job != Some(j);
      }
    }
  }

  lemma StepKeepsJobs(c: Limits, s: State, e: Event)
    requires SingleOwner(s) && CompletedJobsAreDone(s) && Enabled(s, e) && !e.Recover?
    ensures CompletedJobsAreDone(Apply(c, s, e))
    ensures forall j :: j in s.db.jobs && s.db.jobs[j].Completed? ==>
              j in Apply(c, s, e).db.jobs && Apply(c, s, e).db.jobs[j].Completed?
  {
    var s' := Apply(c, s, e);
    match e {
      case Finish(i, o) => FinishKeepsJobs(c, s, i, o);
      case RefreshTick(domains, ids) =>
        RefreshRowsAreNew(s.db.rows, domains, ids, s.now);
        assert forall i :: |s.db.rows| <= i < |s'.db.rows| ==> s'.db.rows[i].job == None;
      case Submit(job, tasks) =>
        assert forall i :: |s.db.rows| <= i < |s'.db.rows| ==> s'.db.rows[i] == tasks[i - |s.db.rows|];
        assert forall j :: j in s'.db.jobs && s'.db.jobs[j].Completed? ==> j in s.db.jobs && j != job;
      case Claim(ids, _) =>
        forall j | j in s'.db.jobs && s'.db.jobs[j].Completed? ensures JobDone(s'.db.rows, j) {
          assert JobDone(s.db.rows, j);
        }
      case _ =>
    }
  }

  lemma StepKeepsOneLive(c: Limits, s: State, e: Event)
    requires SingleOwner(s) && OneLiveRefresh(s) && Enabled(s, e) && !e.Recover?
    ensures OneLiveRefresh(Apply(c, s, e))
  {
    var s' := Apply(c, s, e);
    if e.Finish? {
      FinishOfOwner(c, s, e.row, e.outcome);
    }
    forall d: nat ensures !ManyLive(s'.db.rows, d) {
      assert !ManyLive(s.db.rows, d);
      if e.RefreshTick? {
        CreateRefreshAppends(s.db.rows, e.domains, e.freshIds, s.now);
      } else if e.Submit? {
        assert forall i :: |s.db.rows| <= i < |s'.db.rows| ==> s'.db.rows[i] == e.tasks[i - |s.db.rows|];
        assert forall i :: 0 <= i < |s'.db.rows| && IsLive(s'.db.rows[i], d) ==>
                 i < |s.db.rows| && IsLive(s.db.rows[i], d);
      } else {
        assert forall i :: 0 <= i < |s'.db.rows| && IsLive(s'.db.rows[i], d) ==> IsLive(s.db.rows[i], d);
      }
    }
  }

  lemma StepKeepsOwned(c: Limits, s: State, e: Event)
    requires Owned(s) && Enabled(s, e) && !e.Recover?
    ensures Owned(Apply(c, s, e)) && EndsAreKept(s, Apply(c, s, e))
  {
    StepKeepsSingleOwner(c, s, e);
    StepKeepsEnds(c, s, e);
    StepKeepsJobs(c, s, e);
    StepKeepsOneLive(c, s, e);
  }

  /**
   In every run without a recovery step, crashes and late finishes included: each task has at most
   one copy held, queued or in flight, and only while PROCESSING; COMPLETED and FAILED rows are
   never written again; a COMPLETED job stays COMPLETED with all its tasks terminal; and no domain
   ever has two live REFRESH tasks.
   */
  lemma {:induction false} SingleOwnershipWithoutExpiry(c: Limits, s: State, es: seq<Event>)
    requires Owned(s) && Valid(c, s, es) && NoRecovery(es)
    ensures Owned(Exec(c, s, es)) && EndsAreKept(s, Exec(c, s, es))
    decreases |es|
  {
    if es != [] {
      StepKeepsOwned(c, s, es[0]);
      assert NoRecovery(es[1..]) by {
        assert forall k :: 0 <= k < |es[1..]| ==> es[1..][k] == es[k + 1];
      }
      SingleOwnershipWithoutExpiry(c, Apply(c, s, es[0]), es[1..]);
    }
  }

  lemma EmptyDatabaseIsOwned(now: int)
    ensures Owned(Start(now))
  {
    assert forall i: nat :: Copies(Start(now), i) == 0;
  }

  /** In every reachable state of a run without recovery, a domain has at most one refresh that is not finished. */
  lemma OneLiveRefreshPerDomain(c: Limits, now: int, es: seq<Event>, i: nat, j: nat)
    requires Valid(c, Start(now), es) && NoRecovery(es)
    requires i < |Exec(c, Start(now), es).db.rows| && j < |Exec(c, Start(now), es).db.rows|
    ensures var rows := Exec(c, Start(now), es).db.rows;
            (&& rows[i].kind.Refresh? && rows[i].status in {Pending, Processing}
             && rows[j].kind.Refresh? && rows[j].status in {Pending, Processing}
             && rows[i].domain == rows[j].domain)
            ==> i == j
  {
    EmptyDatabaseIsOwned(now);
    SingleOwnershipWithoutExpiry(c, Start(now), es);
    var rows := Exec(c, Start(now), es).db.rows;
    assert !ManyLive(rows, rows[i].domain);
    assert forall k :: 0 <= k < |rows| && rows[k].kind.Refresh? && rows[k].status in {Pending, Processing} ==>
             IsLive(rows[k], rows[k].domain);
  }

  /**
   The hypothesis is needed: one expired lease is enough. Recovery re-dispatches a task whose first
   worker is still running; the second worker completes it, and the job with it; then the first one
   reports a transient error and the completed task of the completed job is PENDING again.
   */
  lemma RecoveryRevivesEndedTasks(c: Limits, now: int) returns (es: seq<Event>, late: Event)
    requires c.worker >= 2 && c.recovery >= 2
    ensures Valid(c, Start(now), es) && Enabled(Exec(c, Start(now), es), late)
    ensures var s := Exec(c, Start(now), es);
            var s' := Apply(c, s, late);
            && |s.db.rows| == 1 && s.db.rows[0].status.Completed? && s.db.jobs == map[0 := Completed]
            && |s'.db.rows| == 1 && s'.db.rows[0].status.Pending? && s'.db.jobs == map[0 := Completed]
  {
    var done := Row(Completed, 1, None);
    var s8 := Solo(Row(Pending, 1, None), multiset{}, multiset{}, TWO_COPIES, now + 1);
    var s9 := State(Tables([done], map[0 := Completed]), multiset{}, multiset{}, multiset{0}, now + 1);
    var first := DispatchOnce(c, now);
    var second := DispatchAgain(c, now);
    RunsCompose(c, Start(now), first, second);
    CompletingTheOnlyTask(c, s8, s9, Row(Pending, 1, None), done);
    Chain(c, s8, Finish(0, Complete), s9, Advance(0), s9);
    RunsCompose(c, Start(now), first + second, [Finish(0, Complete), Advance(0)]);
    es := first + second + [Finish(0, Complete), Advance(0)];
    late := Finish(0, Reschedule);
    LateReschedule(c, s9);
  }

  lemma LateReschedule(c: Limits, s: State)
    requires c.worker >= 2 && 0 in s.running && s.db.rows == [Row(Completed, 1, None)]
    ensures Enabled(s, Finish(0, Reschedule))
    ensures var s' := Apply(c, s, Finish(0, Reschedule));
            s'.db.rows == [Row(Pending, 1, None)] && s'.db.jobs == s.db.jobs
  {
  }

  lemma DispatchOnce(c: Limits, now: int) returns (es: seq<Event>)
    ensures Valid(c, Start(now), es)
    ensures Exec(c, Start(now), es)
         == Solo(Row(Processing, 1, Some(now)), multiset{}, multiset{}, multiset{0}, now)
  {
    var submit := SubmitOne(c, now);
    var claim := [Claim({0}, now), Enqueue(0)];
    var s2 := Solo(Row(Processing, 1, Some(now)), multiset{}, multiset{0}, multiset{}, now);
    var s3 := Solo(Row(Processing, 1, Some(now)), multiset{}, multiset{}, multiset{0}, now);
    ClaimAndEnqueue(c, 0, now);
    Chain(c, s2, Dequeue(0), s3, Advance(0), s3);
    Join(c, Idle(0, now), claim, s2, [Dequeue(0), Advance(0)]);
    Chain(c, Start(now), submit, Idle(0, now), Advance(0), Idle(0, now));
    Join(c, Start(now), [submit, Advance(0)], Idle(0, now), claim + [Dequeue(0), Advance(0)]);
    es := [submit, Advance(0)] + (claim + [Dequeue(0), Advance(0)]);
  }

  ghost const TWO_COPIES: multiset<nat> := multiset{0} + multiset{0}

  lemma LeaseExpires(c: Limits, now: int)
    requires c.recovery >= 2
    ensures var s := Solo(Row(Processing, 1, Some(now)), multiset{}, multiset{}, multiset{0}, now);
            Valid(c, s, [Advance(1), Recover({0})])
            && Exec(c, s, [Advance(1), Recover({0})])
               == Solo(Row(Pending, 1, None), multiset{0}, multiset{}, multiset{0}, now + 1)
  {
    var t := Row(Processing, 1, Some(now));
    var p := Row(Pending, 1, None);
    var s4 := Solo(t, multiset{}, multiset{}, multiset{0}, now);
    var s5 := Solo(t, multiset{}, multiset{}, multiset{0}, now + 1);
    var s6 := Solo(p, multiset{0}, multiset{}, multiset{0}, now + 1);
    assert Apply(c, s5, Recover({0})).db.rows == [p];
    assert Redispatched([t], {0}, c.recovery) == {0};
    Chain(c, s4, Advance(1), s5, Recover({0}), s6);
  }

  lemma DispatchAgain(c: Limits, now: int) returns (es: seq<Event>)
    requires c.recovery >= 2
    ensures var s := Solo(Row(Processing, 1, Some(now)), multiset{}, multiset{}, multiset{0}, now);
            Valid(c, s, es)
            && Exec(c, s, es) == Solo(Row(Pending, 1, None), multiset{}, multiset{}, TWO_COPIES, now + 1)
  {
    var p := Row(Pending, 1, None);
    var s4 := Solo(Row(Processing, 1, Some(now)), multiset{}, multiset{}, multiset{0}, now);
    var s6 := Solo(p, multiset{0}, multiset{}, multiset{0}, now + 1);
    var s7 := Solo(p, multiset{}, multiset{0}, multiset{0}, now + 1);
    var s8 := Solo(p, multiset{}, multiset{}, TWO_COPIES, now + 1);
    LeaseExpires(c, now);
    Chain(c, s6, Enqueue(0), s7, Dequeue(0), s8);
    RunsCompose(c, s4, [Advance(1), Recover({0})], [Enqueue(0), Dequeue(0)]);
    es := [Advance(1), Recover({0})] + [Enqueue(0), Dequeue(0)];
  }

  lemma CompletingTheOnlyTask(c: Limits, s: State, s': State, t: Task, done: Task)
    requires t.job == Some(0) && done == t.(status := Completed)
    requires s == Solo(t, multiset{}, multiset{}, TWO_COPIES, s.now)
    requires s' == State(Tables([done], map[0 := Completed]), multiset{}, multiset{}, multiset{0}, s.now)
    ensures Enabled(s, Finish(0, Complete)) && Apply(c, s, Finish(0, Complete)) == s'
  {
    OpenCountsJob([done], 0);
    assert [t][0 := done] == [done];
    assert s.db.jobs[0 := Completed] == map[0 := Completed];
  }
}
