/** The domain processor's write helpers: one short session each, on the shared task store. */
module DomainProcessor {
  import opened Records
  import opened TaskTable

  class Processor {
    const maxAttempts: nat
    const store: TaskStore

    constructor (store: TaskStore, maxAttempts: nat)
      ensures this.store == store && this.maxAttempts == maxAttempts
    {
      this.store := store;
      this.maxAttempts := maxAttempts;
    }

    /** The `count(*)` of the completion check, as a scan of the job's tasks. */
    method CountOpenTasks(job: nat) returns (open: nat)
      ensures open == Open(JobStatuses(store.rows, job))
      ensures open == 0 <==> JobDone(store.rows, job)
    {
      open := 0;
      var i := |store.rows|;
      while i > 0
        invariant 0 <= i <= |store.rows|
        invariant open == Open(JobStatuses(store.rows[i..], job))
      {
        i := i - 1;
        assert store.rows[i..][0] == store.rows[i] && store.rows[i..][1..] == store.rows[i + 1..];
        var rest := JobStatuses(store.rows[i + 1..], job);
        if store.rows[i].job == Some(job) {
          assert ([store.rows[i].status] + rest)[1..] == rest;
          if !Terminal(store.rows[i].status) {
            open := open + 1;
          }
        } else {
          assert [] + rest == rest;
        }
      }
      assert store.rows[0..] == store.rows;
      OpenCountsJob(store.rows, job);
    }

    /** Sets the job COMPLETED when none of its tasks is open, PROCESSING when it was untouched so far. */
    method CheckAndUpdateJobStatus(job: Option<nat>)
      modifies store`jobs
      ensures store.View() == Settle(old(store.View()), job)
      ensures job.Some? && job.value in store.jobs && JobDone(store.rows, job.value) ==>
                store.jobs[job.value].Completed?
      ensures job.Some? && job.value in old(store.jobs) && !JobDone(store.rows, job.value) ==>
                store.jobs[job.value] == (if old(store.jobs)[job.value].Pending? then Processing
                                          else old(store.jobs)[job.value])
      ensures forall j :: j in old(store.jobs) && job != Some(j) ==>
                j in store.jobs && store.jobs[j] == old(store.jobs)[j]
    {
      if job.None? || job.value !in store.jobs {
        return;
      }
      var open := CountOpenTasks(job.value);
      var current := store.jobs[job.value];
      if open == 0 {
        if current != Completed {
          store.jobs := store.jobs[job.value := Completed];
        }
      } else if current == Pending {
        store.jobs := store.jobs[job.value := Processing];
      }
      assert store.jobs == Settle(old(store.View()), job).jobs;
    }

    method WriteCompleteTask(row: nat)
      modifies store
      ensures row < |old(store.rows)| ==>
                && store.rows == old(store.rows)[row := old(store.rows)[row].(status := Completed)]
                && JobsFollow(old(store.jobs), store.jobs, store.rows, old(store.rows)[row].job)
      ensures row >= |old(store.rows)| ==> store.View() == old(store.View())
    {
      if row < |store.rows| {
        store.rows := store.rows[row := store.rows[row].(status := Completed)];
        CheckAndUpdateJobStatus(store.rows[row].job);
      }
    }

    method WriteFailTask(row: nat)
      modifies store
      ensures row < |old(store.rows)| ==>
                && store.rows == old(store.rows)[row := old(store.rows)[row].(status := Failed)]
                && JobsFollow(old(store.jobs), store.jobs, store.rows, old(store.rows)[row].job)
      ensures row >= |old(store.rows)| ==> store.View() == old(store.View())
    {
      if row < |store.rows| {
        store.rows := store.rows[row := store.rows[row].(status := Failed)];
        CheckAndUpdateJobStatus(store.rows[row].job);
      }
    }

    method WriteRescheduleTask(row: nat)
      modifies store
      ensures row < |old(store.rows)| && old(store.rows)[row].attempts >= maxAttempts ==>
                && store.rows == old(store.rows)[row := old(store.rows)[row].(status := Failed, lease := None)]
                && JobsFollow(old(store.jobs), store.jobs, store.rows, old(store.rows)[row].job)
      ensures row < |old(store.rows)| && old(store.rows)[row].attempts < maxAttempts ==>
                && store.rows == old(store.rows)[row := old(store.rows)[row].(status := Pending, lease := None)]
                && store.jobs == old(store.jobs)
      ensures row >= |old(store.rows)| ==> store.View() == old(store.View())
    {
      if row < |store.rows| {
        var task := store.rows[row];
        if task.attempts >= maxAttempts {
          store.rows := store.rows[row := task.(status := Failed, lease := None)];
          CheckAndUpdateJobStatus(task.job);
        } else {
          store.rows := store.rows[row := task.(status := Pending, lease := None)];
        }
      }
    }
  }
}
