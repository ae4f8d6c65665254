/** What the runs of the pipeline make of the jobs: a job is COMPLETED when its last task ends, and not before. */
module JobProgress {
  import opened Records
  import opened TaskTable
  import opened Pipeline
  import Ownership

  /** A worker's last write, late or not, ends its task as the outcome says, and its job follows its tasks. */
  lemma FinishEndsTask(c: Limits, s: State, i: nat, o: Outcome)
    requires Enabled(s, Finish(i, o))
    ensures var s' := Apply(c, s, Finish(i, o));
            && Finished(s.db, s'.db, i, o, c.worker)
            && s'.running == s.running - multiset{i} && s'.held == s.held && s'.queued == s.queued
  {
    OutcomeFinishes(s.db, i, o, c.worker);
  }

  /** A job whose tasks have all ended is COMPLETED. */
  ghost predicate NoLostCompletion(s: State) {
    forall j :: j in s.db.jobs && JobDone(s.db.rows, j) ==> s.db.jobs[j].Completed?
  }

  /** No task of a job runs out of attempts in this recovery. */
  ghost predicate FailsNoJobTask(c: Limits, s: State, e: Event) {
    e.Recover? ==>
      forall i :: i in e.expired && i < |s.db.rows| && s.db.rows[i].job.Some? ==> s.db.rows[i].attempts < c.recovery
  }

  predicate HasValidDomain(tasks: seq<Task>) {
    exists k :: 0 <= k < |tasks| && tasks[k].status.Pending?
  }

  /** Every job of the run has a valid domain, and recovery fails no task of a job. */
  ghost predicate Orderly(c: Limits, s: State, es: seq<Event>)
    requires Valid(c, s, es)
    decreases |es|
  {
    es == [] ||
    (&& FailsNoJobTask(c, s, es[0])
     && (es[0].Submit? ==> HasValidDomain(es[0].tasks))
     && Orderly(c, Apply(c, s, es[0]), es[1..]))
  }

  lemma FinishKeepsLaw(c: Limits, s: State, i: nat, o: Outcome)
    requires NoLostCompletion(s) && Enabled(s, Finish(i, o))
    ensures NoLostCompletion(Apply(c, s, Finish(i, o)))
  {
    var s' := Apply(c, s, Finish(i, o));
    FinishEndsTask(c, s, i, o);
    forall j | j in s'.db.jobs && JobDone(s'.db.rows, j) ensures s'.db.jobs[j].Completed? {
      if i < |s.db.rows| && s.db.rows[i].job == Some(j) {
        assert Terminal(s'.db.rows[i].status);
      } else {
        assert JobDone(s.db.rows, j);
      }
    }
  }

  lemma CreationKeepsLaw(c: Limits, s: State, e: Event)
    requires NoLostCompletion(s) && Enabled(s, e) && Creates(e)
    requires e.Submit? ==> HasValidDomain(e.tasks)
    ensures NoLostCompletion(Apply(c, s, e))
  {
    var s' := Apply(c, s, e);
    if e.RefreshTick? {
      RefreshRowsAreNew(s.db.rows, e.domains, e.freshIds, s.now);
    }
    forall j | j in s'.db.jobs && JobDone(s'.db.rows, j) ensures s'.db.jobs[j].Completed? {
      assert forall i :: 0 <= i < |s.db.rows| ==> s'.db.rows[i] == s.db.rows[i];
      assert JobDone(s.db.rows, j);
      if e.Submit? && j == e.job {
        var k :| 0 <= k < |e.tasks| && e.tasks[k].status.Pending?;
        assert s'.db.rows[|s.db.rows| + k] == e.tasks[k];
      }
    }
  }

  lemma StepKeepsLaw(c: Limits, s: State, e: Event)
    requires NoLostCompletion(s) && Enabled(s, e) && FailsNoJobTask(c, s, e)
    requires e.Submit? ==> HasValidDomain(e.tasks)
    ensures NoLostCompletion(Apply(c, s, e))
  {
    var s' := Apply(c, s, e);
    match e {
      case Submit(_, _) => CreationKeepsLaw(c, s, e);
      case RefreshTick(_, _) => CreationKeepsLaw(c, s, e);
      case Finish(i, o) => FinishKeepsLaw(c, s, i, o);
      case _ =>
        forall j | j in s'.db.jobs && JobDone(s'.db.rows, j) ensures JobDone(s.db.rows, j) {
          assert forall i :: 0 <= i < |s.db.rows| && s.db.rows[i].job == Some(j) ==> Terminal(s'.db.rows[i].status);
        }
    }
  }

  lemma {:induction false} RunKeepsLaw(c: Limits, s: State, es: seq<Event>)
    requires NoLostCompletion(s) && Valid(c, s, es) && Orderly(c, s, es)
    ensures NoLostCompletion(Exec(c, s, es))
    decreases |es|
  {
    if es != [] {
      StepKeepsLaw(c, s, es[0]);
      RunKeepsLaw(c, Apply(c, s, es[0]), es[1..]);
    }
  }

  /**
   No lost completion over the whole pipeline: in every run whose jobs have a valid domain each and whose
   recoveries fail no task of a job, whatever else expires, crashes or is written late, a job whose tasks
   have all ended is COMPLETED.
   */
  lemma EveryCompletionIsNoticed(c: Limits, now: int, es: seq<Event>, job: nat)
    requires Valid(c, Start(now), es) && Orderly(c, Start(now), es)
    ensures var s := Exec(c, Start(now), es);
            job in s.db.jobs && JobDone(s.db.rows, job) ==> s.db.jobs[job].Completed?
  {
    RunKeepsLaw(c, Start(now), es);
  }

  /** In runs without recovery, a job is COMPLETED at every moment exactly when its tasks have all ended. */
  lemma CompletedExactlyWhenDone(c: Limits, now: int, es: seq<Event>, job: nat)
    requires Valid(c, Start(now), es) && Orderly(c, Start(now), es) && Ownership.NoRecovery(es)
    ensures var s := Exec(c, Start(now), es);
            job in s.db.jobs ==> (s.db.jobs[job].Completed? <==> JobDone(s.db.rows, job))
  {
    EveryCompletionIsNoticed(c, now, es, job);
    Ownership.EmptyDatabaseIsOwned(now);
    Ownership.SingleOwnershipWithoutExpiry(c, Start(now), es);
  }
}
