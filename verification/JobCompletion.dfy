/**
 The completion transaction opened into its statements, with any number of workers interleaved:
 update the task row, lock the job row, count the open tasks, set the job and commit. Between any
 two statements other sessions claim, reschedule and recover rows that no transaction has locked.
 `rows` and `job` are the committed state of one job; a worker's update is visible to itself only.
 */
module JobCompletion {
  import opened Records

  datatype Txn =
    | Idle
    | Wrote(row: nat, status: Status)
    | Locked(row: nat, status: Status)
    | Counted(row: nat, status: Status, open: nat)

  datatype State = State(rows: seq<Status>, job: Status, txns: seq<Txn>)

  datatype Event =
    | WriteTask(w: nat, row: nat, status: Status)
    | LockJob(w: nat)
    | CountOpen(w: nat)
    | Commit(w: nat)
    | Rollback(w: nat)
    | Claim(row: nat)
    | Reschedule(row: nat)
    | RecoverToPending(row: nat)
    | RecoverToFailed(row: nat)

  predicate Holding(t: Txn) {
    t.Locked? || t.Counted?
  }

  predicate RowLocked(s: State, row: nat) {
    exists w :: 0 <= w < |s.txns| && !s.txns[w].Idle? && s.txns[w].row == row
  }

  predicate JobLocked(s: State) {
    exists w :: 0 <= w < |s.txns| && Holding(s.txns[w])
  }

  /** The task rows as the transaction itself sees them. */
  function Overlay(rows: seq<Status>, t: Txn): seq<Status> {
    if t.Idle? || t.row >= |rows| then rows else rows[t.row := t.status]
  }

  predicate Enabled(s: State, e: Event) {
    match e
    case WriteTask(w, row, status) =>
      w < |s.txns| && s.txns[w].Idle? && row < |s.rows| && !RowLocked(s, row) && Terminal(status)
    case LockJob(w) => w < |s.txns| && s.txns[w].Wrote? && !JobLocked(s)
    case CountOpen(w) => w < |s.txns| && s.txns[w].Locked?
    case Commit(w) => w < |s.txns| && s.txns[w].Counted?
    case Rollback(w) => w < |s.txns|
    case Claim(row) => row < |s.rows| && !RowLocked(s, row) && s.rows[row].Pending?
    case Reschedule(row) => row < |s.rows| && !RowLocked(s, row)
    case RecoverToPending(row) => row < |s.rows| && !RowLocked(s, row) && s.rows[row].Processing?
    case RecoverToFailed(row) => row < |s.rows| && !RowLocked(s, row) && s.rows[row].Processing?
  }

  function Apply(s: State, e: Event): State
    requires Enabled(s, e)
  {
    match e
    case WriteTask(w, row, status) => s.(txns := s.txns[w := Wrote(row, status)])
    case LockJob(w) => s.(txns := s.txns[w := Locked(s.txns[w].row, s.txns[w].status)])
    case CountOpen(w) =>
      var t := s.txns[w];
      s.(txns := s.txns[w := Counted(t.row, t.status, Open(Overlay(s.rows, t)))])
    case Commit(w) =>
      var t := s.txns[w];
      State(Overlay(s.rows, t), NextJobStatus(s.job, t.open), s.txns[w := Idle])
    case Rollback(w) => s.(txns := s.txns[w := Idle])
    case Claim(row) => s.(rows := s.rows[row := Processing])
    case Reschedule(row) => s.(rows := s.rows[row := Pending])
    case RecoverToPending(row) => s.(rows := s.rows[row := Pending])
    case RecoverToFailed(row) => s.(rows := s.rows[row := Failed])
  }

  ghost predicate Valid(s: State, es: seq<Event>)
    decreases |es|
  {
    es == [] || (Enabled(s, es[0]) && Valid(Apply(s, es[0]), es[1..]))
  }

  ghost function Exec(s: State, es: seq<Event>): State
    requires Valid(s, es)
    decreases |es|
  {
    if es == [] then s else Exec(Apply(s, es[0]), es[1..])
  }

  ghost predicate AllTerminal(rows: seq<Status>) {
    forall k :: 0 <= k < |rows| ==> Terminal(rows[k])
  }

  /** A job as creation commits it: its valid domains pending, its invalid ones failed, nobody at work. */
  ghost predicate Created(s: State) {
    && s.job.Pending?
    && (forall k :: 0 <= k < |s.rows| ==> s.rows[k].Pending? || s.rows[k].Failed?)
    && (forall w :: 0 <= w < |s.txns| ==> s.txns[w].Idle?)
  }

  /** The law: whenever every task of the job is committed as terminal, the job is COMPLETED. */
  ghost predicate NoLostCompletion(s: State) {
    AllTerminal(s.rows) ==> s.job.Completed?
  }

  /** What the row and job locks give at every moment of every run. */
  ghost predicate LockInv(s: State) {
    && (forall w :: 0 <= w < |s.txns| && !s.txns[w].Idle? ==> s.txns[w].row < |s.rows| && Terminal(s.txns[w].status))
    && (forall v, w :: 0 <= v < w < |s.txns| && !s.txns[v].Idle? && !s.txns[w].Idle? ==>
          s.txns[v].row != s.txns[w].row)
    && (forall v, w :: 0 <= v < w < |s.txns| ==> !(Holding(s.txns[v]) && Holding(s.txns[w])))
  }

  /** A count that found open tasks is still right to have found them when its transaction commits. */
  ghost predicate CountsHold(s: State) {
    forall w :: 0 <= w < |s.txns| && s.txns[w].Counted? && AllTerminal(Overlay(s.rows, s.txns[w])) ==>
      s.txns[w].open == 0 || s.job.Completed?
  }

  ghost predicate Inv(s: State) {
    LockInv(s) && CountsHold(s) && NoLostCompletion(s)
  }

  lemma StepKeepsLocks(s: State, e: Event)
    requires LockInv(s) && Enabled(s, e)
    ensures LockInv(Apply(s, e)) && |Apply(s, e).rows| == |s.rows|
    ensures JobRank(Apply(s, e).job) >= JobRank(s.job)
  {
  }

  /**
   The exact condition under which failing a task in recovery keeps the law: the job is already
   COMPLETED, or another task keeps it open both as committed and as the holder of the job lock is
   about to commit it.
   */
  ghost predicate RecoveryIsSafe(s: State, row: nat)
    requires row < |s.rows|
  {
    || s.job.Completed?
    || (&& !AllTerminal(s.rows[row := Failed])
        && forall w :: 0 <= w < |s.txns| && s.txns[w].Counted? && s.txns[w].open > 0 ==>
             !AllTerminal(Overlay(s.rows[row := Failed], s.txns[w])))
  }

  /**
   The count that a commit acts on: zero exactly when, with the transaction's own write, no task of the job
   is open any more; and counting changes nothing else.
   */
  lemma CountIsExact(s: State, w: nat)
    requires Enabled(s, CountOpen(w))
    ensures var t := s.txns[w];
            var s' := Apply(s, CountOpen(w));
            && s'.rows == s.rows && s'.job == s.job
            && (forall v :: 0 <= v < |s.txns| && v != w ==> s'.txns[v] == s.txns[v])
            && s'.txns[w].Counted? && s'.txns[w].row == t.row && s'.txns[w].status == t.status
            && (s'.txns[w].open == 0 <==> AllTerminal(Overlay(s.rows, t)))
  {
    OpenIsZero(Overlay(s.rows, s.txns[w]));
  }

  /** What a commit leaves: its own write, and the job COMPLETED exactly when the count was zero or it was before. */
  lemma CommitSettles(s: State, w: nat)
    requires Enabled(s, Commit(w)) && s.txns[w].row < |s.rows|
    ensures var t := s.txns[w];
            var s' := Apply(s, Commit(w));
            && s'.rows == s.rows[t.row := t.status] && s'.txns == s.txns[w := Idle]
            && (s'.job.Completed? <==> t.open == 0 || s.job.Completed?)
            && (t.open > 0 ==> s'.job == if s.job.Pending? then Processing else s.job)
  {
  }

  lemma StepKeepsInv(s: State, e: Event)
    requires Inv(s) && Enabled(s, e)
    requires e.RecoverToFailed? ==> RecoveryIsSafe(s, e.row)
    ensures Inv(Apply(s, e))
  {
    StepKeepsLocks(s, e);
    var s' := Apply(s, e);
    match e {
      case CountOpen(w) =>
        OpenIsZero(Overlay(s.rows, s.txns[w]));
        assert Overlay(s'.rows, s'.txns[w]) == Overlay(s.rows, s.txns[w]);
        CountKeepsInv(s, w);
      case Commit(w) =>
        CommitKeepsInv(s, w);
      case Claim(row) =>
        OtherWriteKeepsInv(s, row, Processing);
      case Reschedule(row) =>
        OtherWriteKeepsInv(s, row, Pending);
      case RecoverToPending(row) =>
        OtherWriteKeepsInv(s, row, Pending);
      case RecoverToFailed(row) =>
      case _ =>
    }
  }

  lemma CountKeepsInv(s: State, w: nat)
    requires Inv(s) && Enabled(s, CountOpen(w))
    ensures CountsHold(Apply(s, CountOpen(w)))
  {
    var s' := Apply(s, CountOpen(w));
    OpenIsZero(Overlay(s.rows, s.txns[w]));
    forall v | 0 <= v < |s'.txns| && s'.txns[v].Counted? && AllTerminal(Overlay(s'.rows, s'.txns[v]))
      ensures s'.txns[v].open == 0 || s'.job.Completed?
    {
      if v == w {
        assert Overlay(s'.rows, s'.txns[w]) == Overlay(s.rows, s.txns[w]);
      }
    }
  }

  lemma CommitKeepsInv(s: State, w: nat)
    requires Inv(s) && Enabled(s, Commit(w))
    ensures NoLostCompletion(Apply(s, Commit(w))) && CountsHold(Apply(s, Commit(w)))
  {
    var s' := Apply(s, Commit(w));
    assert forall v :: 0 <= v < |s.txns| && v != w ==> !Holding(s.txns[v]);
    assert s'.rows == Overlay(s.rows, s.txns[w]);
  }

  /** Making an unlocked row non-terminal reopens the job for everyone. */
  lemma OtherWriteKeepsInv(s: State, row: nat, status: Status)
    requires Inv(s) && row < |s.rows| && !RowLocked(s, row) && !Terminal(status)
    ensures NoLostCompletion(s.(rows := s.rows[row := status])) && CountsHold(s.(rows := s.rows[row := status]))
  {
    var rows' := s.rows[row := status];
    assert rows'[row] == status;
    forall w | 0 <= w < |s.txns| && s.txns[w].Counted? ensures !AllTerminal(Overlay(rows', s.txns[w])) {
      assert s.txns[w].row != row;
      assert Overlay(rows', s.txns[w])[row] == status;
    }
  }

  /** Recovery failures in the run all happen where they are safe. */
  ghost predicate RecoveriesAreSafe(s: State, es: seq<Event>)
    requires Valid(s, es)
    decreases |es|
  {
    es == [] ||
    ((es[0].RecoverToFailed? ==> RecoveryIsSafe(s, es[0].row)) && RecoveriesAreSafe(Apply(s, es[0]), es[1..]))
  }

  lemma {:induction false} RunKeepsInv(s: State, es: seq<Event>)
    requires Inv(s) && Valid(s, es) && RecoveriesAreSafe(s, es)
    ensures Inv(Exec(s, es))
    decreases |es|
  {
    if es != [] {
      StepKeepsInv(s, es[0]);
      RunKeepsInv(Apply(s, es[0]), es[1..]);
    }
  }

  /** The job status never moves backwards, in any run at all. */
  lemma {:induction false} JobNeverMovesBack(s: State, es: seq<Event>)
    requires LockInv(s) && Valid(s, es)
    ensures JobRank(s.job) <= JobRank(Exec(s, es).job)
    decreases |es|
  {
    if es != [] {
      StepKeepsLocks(s, es[0]);
      JobNeverMovesBack(Apply(s, es[0]), es[1..]);
    }
  }

  /**
   No lost completion: from a created job with at least one valid domain, however workers, claims,
   reschedules and recoveries interleave, and unless recovery failed a task where that was unsafe,
   every committed state whose tasks are all terminal has the job COMPLETED.
   */
  lemma LastCompletionIsNotLost(s: State, es: seq<Event>)
    requires Created(s) && !AllTerminal(s.rows)
    requires Valid(s, es) && RecoveriesAreSafe(s, es)
    ensures NoLostCompletion(Exec(s, es))
  {
    RunKeepsInv(s, es);
  }

  lemma {:induction false} WithoutFailuresAllSafe(s: State, es: seq<Event>)
    requires Valid(s, es) && forall k :: 0 <= k < |es| ==> !es[k].RecoverToFailed?
    ensures RecoveriesAreSafe(s, es)
    decreases |es|
  {
    if es != [] {
      assert forall k :: 0 <= k < |es[1..]| ==> es[1..][k] == es[k + 1];
      WithoutFailuresAllSafe(Apply(s, es[0]), es[1..]);
    }
  }

  /** In particular no completion is lost when no task fails through lease recovery. */
  lemma NoFailedRecoveryNoLoss(s: State, es: seq<Event>)
    requires Created(s) && !AllTerminal(s.rows) && Valid(s, es)
    requires forall k :: 0 <= k < |es| ==> !es[k].RecoverToFailed?
    ensures NoLostCompletion(Exec(s, es))
  {
    WithoutFailuresAllSafe(s, es);
    LastCompletionIsNotLost(s, es);
  }

  /**
   The guard is exact. In a state that satisfies the invariant, failing a task in recovery breaks the
   law, at once or at the commit of the transaction that is holding the job lock, if and only if
   the guard does not hold.
   */
  lemma RecoveryGuardIsExact(s: State, row: nat)
    requires Inv(s) && Enabled(s, RecoverToFailed(row))
    ensures var s' := Apply(s, RecoverToFailed(row));
            RecoveryIsSafe(s, row) <==>
            && NoLostCompletion(s')
            && forall w: nat {:trigger Commit(w)} :: Enabled(s', Commit(w)) ==> NoLostCompletion(Apply(s', Commit(w)))
  {
    var s' := Apply(s, RecoverToFailed(row));
    if RecoveryIsSafe(s, row) {
      StepKeepsInv(s, RecoverToFailed(row));
      forall w: nat | Enabled(s', Commit(w)) ensures NoLostCompletion(Apply(s', Commit(w))) {
        StepKeepsInv(s', Commit(w));
      }
    } else if !AllTerminal(s.rows[row := Failed]) {
      var w: nat :| w < |s.txns| && s.txns[w].Counted? && s.txns[w].open > 0
                    && AllTerminal(Overlay(s.rows[row := Failed], s.txns[w]));
      assert Enabled(s', Commit(w));
      assert !NoLostCompletion(Apply(s', Commit(w)));
    }
  }

  /** A job of invalid domains only is created all terminal and still PENDING: the law needs a valid one. */
  lemma CreatedJobNeedsAValidDomain(s: State)
    requires Created(s)
    ensures NoLostCompletion(s) <==> !AllTerminal(s.rows)
    ensures NoLostCompletion(s) <==> exists k :: 0 <= k < |s.rows| && s.rows[k].Pending?
  {
  }

  /**
   A worker that nobody holds up: its statements can run in order, and they end its task and leave the job
   COMPLETED if no task is open any more, in progress if not.
   */
  lemma AloneCompletion(s: State, w: nat, row: nat, status: Status)
    requires w < |s.txns| && s.txns[w].Idle? && row < |s.rows| && (status.Completed? || status.Failed?)
    requires forall v :: 0 <= v < |s.txns| ==>
               s.txns[v].Idle? || (s.txns[v].Wrote? && s.txns[v].row != row)
    ensures var es := [WriteTask(w, row, status), LockJob(w), CountOpen(w), Commit(w)];
            var rows' := s.rows[row := status];
            && Valid(s, es)
            && Exec(s, es)
               == State(rows',
                        if AllTerminal(rows') then Completed else if s.job.Pending? then Processing else s.job, s.txns)
  {
    var s1 := Apply(s, WriteTask(w, row, status));
    var s2 := Apply(s1, LockJob(w));
    var s3 := Apply(s2, CountOpen(w));
    var s4 := Apply(s3, Commit(w));
    CountIsExact(s2, w);
    assert s1.txns[w := Idle] == s.txns && s4.txns == s.txns;
    assert Valid(s4, []) && Exec(s4, []) == s4;
    var last := [Commit(w)];
    assert last[1..] == [] && Valid(s3, last) && Exec(s3, last) == s4;
    var two := [CountOpen(w), Commit(w)];
    assert two[1..] == last && Valid(s2, two) && Exec(s2, two) == s4;
    var three := [LockJob(w), CountOpen(w), Commit(w)];
    assert three[1..] == two && Valid(s1, three) && Exec(s1, three) == s4;
    assert [WriteTask(w, row, status), LockJob(w), CountOpen(w), Commit(w)][1..] == three;
  }

  /** Other sessions write a row that no completion has written, as its status allows, and touch nothing else. */
  lemma OtherSessionsWrite(s: State, row: nat)
    requires row < |s.rows| && forall v :: 0 <= v < |s.txns| ==> s.txns[v].Idle? || s.txns[v].row != row
    ensures Enabled(s, Reschedule(row)) && Apply(s, Reschedule(row)) == s.(rows := s.rows[row := Pending])
    ensures s.rows[row] == Pending ==>
              Enabled(s, Claim(row)) && Apply(s, Claim(row)) == s.(rows := s.rows[row := Processing])
    ensures s.rows[row] == Processing ==>
              && Enabled(s, RecoverToPending(row))
              && Apply(s, RecoverToPending(row)) == s.(rows := s.rows[row := Pending])
              && Enabled(s, RecoverToFailed(row))
              && Apply(s, RecoverToFailed(row)) == s.(rows := s.rows[row := Failed])
  {
  }

  /** A claim or recovery finds only rows of its status, and no session writes a row that a completion has written. */
  lemma LocksAndStatusesBlock(s: State, row: nat, v: nat)
    requires row < |s.rows|
    ensures s.rows[row] != Pending ==> !Enabled(s, Claim(row))
    ensures s.rows[row] != Processing ==> !Enabled(s, RecoverToPending(row)) && !Enabled(s, RecoverToFailed(row))
    ensures v < |s.txns| && !s.txns[v].Idle? && s.txns[v].row == row ==>
              && !Enabled(s, Claim(row)) && !Enabled(s, Reschedule(row))
              && !Enabled(s, RecoverToPending(row)) && !Enabled(s, RecoverToFailed(row))
              && forall w, status :: !Enabled(s, WriteTask(w, row, status))
    ensures v < |s.txns| && (s.txns[v].Locked? || s.txns[v].Counted?) ==> forall w :: !Enabled(s, LockJob(w))
  {
  }

  /** A worker has one completion at a time, and its statements follow on each other only. */
  lemma StatementsFollow(s: State, w: nat, row: nat, status: Status)
    ensures Enabled(s, WriteTask(w, row, status)) ==> w < |s.txns| && s.txns[w] == Idle
    ensures Enabled(s, LockJob(w)) ==> w < |s.txns| && s.txns[w].Wrote?
    ensures Enabled(s, CountOpen(w)) <==> w < |s.txns| && s.txns[w].Locked?
    ensures Enabled(s, Commit(w)) <==> w < |s.txns| && s.txns[w].Counted?
  {
  }

  /** A completion that is rolled back leaves neither its write nor its locks. */
  lemma RollbackLeavesNothing(s: State, w: nat)
    requires w < |s.txns|
    ensures Enabled(s, Rollback(w)) && Apply(s, Rollback(w)) == s.(txns := s.txns[w := Idle])
  {
  }

  // ---- The converse: COMPLETED means done ----

  /** The converse law, and what it takes of a count of zero that has not been committed yet. */
  ghost predicate DoneInv(s: State) {
    && LockInv(s)
    && (s.job.Completed? ==> AllTerminal(s.rows))
    && (forall w :: 0 <= w < |s.txns| && s.txns[w].Counted? && s.txns[w].open == 0 ==>
          AllTerminal(Overlay(s.rows, s.txns[w])))
  }

  /** The exact condition under which rescheduling an ended task keeps it: the job is not COMPLETED, nor about to be. */
  ghost predicate RescheduleIsSafe(s: State) {
    !s.job.Completed? && forall w :: 0 <= w < |s.txns| && s.txns[w].Counted? ==> s.txns[w].open > 0
  }

  lemma OverlayOfOthers(s: State, w: nat, row: nat, status: Status)
    requires w < |s.txns| && row < |s.rows| && !RowLocked(s, row)
    ensures Overlay(s.rows[row := status], s.txns[w]) == Overlay(s.rows, s.txns[w])[row := status]
  {
    if !s.txns[w].Idle? {
      assert s.txns[w].row != row;
    }
  }

  /** A write to an unlocked row that is still open cannot fall into anybody's final count. */
  lemma OpenRowKeepsDone(s: State, row: nat, status: Status)
    requires DoneInv(s) && row < |s.rows| && !RowLocked(s, row) && !Terminal(s.rows[row])
    ensures DoneInv(s.(rows := s.rows[row := status]))
  {
    forall w | 0 <= w < |s.txns| && s.txns[w].Counted? ensures s.txns[w].open > 0 {
      OverlayOfOthers(s, w, row, s.rows[row]);
      assert Overlay(s.rows, s.txns[w])[row] == s.rows[row];
    }
  }

  lemma CountKeepsDone(s: State, w: nat)
    requires DoneInv(s) && Enabled(s, CountOpen(w))
    ensures DoneInv(Apply(s, CountOpen(w)))
  {
    var s' := Apply(s, CountOpen(w));
    StepKeepsLocks(s, CountOpen(w));
    CountIsExact(s, w);
    forall v | 0 <= v < |s'.txns| && s'.txns[v].Counted? && s'.txns[v].open == 0
      ensures AllTerminal(Overlay(s'.rows, s'.txns[v]))
    {
      if v == w {
        assert Overlay(s'.rows, s'.txns[w]) == Overlay(s.rows, s.txns[w]);
      }
    }
  }

  lemma CommitKeepsDone(s: State, w: nat)
    requires DoneInv(s) && Enabled(s, Commit(w))
    ensures DoneInv(Apply(s, Commit(w)))
  {
    var s' := Apply(s, Commit(w));
    StepKeepsLocks(s, Commit(w));
    assert s'.rows == Overlay(s.rows, s.txns[w]);
    assert forall v :: 0 <= v < |s.txns| && v != w ==> !Holding(s.txns[v]);
  }

  lemma StepKeepsDone(s: State, e: Event)
    requires DoneInv(s) && Enabled(s, e)
    requires e.Reschedule? ==> Terminal(s.rows[e.row]) ==> RescheduleIsSafe(s)
    ensures DoneInv(Apply(s, e))
  {
    StepKeepsLocks(s, e);
    match e {
      case CountOpen(w) => CountKeepsDone(s, w);
      case Commit(w) => CommitKeepsDone(s, w);
      case Claim(row) => OpenRowKeepsDone(s, row, Processing);
      case RecoverToPending(row) => OpenRowKeepsDone(s, row, Pending);
      case RecoverToFailed(row) => OpenRowKeepsDone(s, row, Failed);
      case Reschedule(row) =>
        if !Terminal(s.rows[row]) {
          OpenRowKeepsDone(s, row, Pending);
        }
      case _ =>
    }
  }

  /** Every rescheduling of the run finds its task open still, or happens where that does no harm. */
  ghost predicate ReschedulesAreSafe(s: State, es: seq<Event>)
    requires Valid(s, es)
    decreases |es|
  {
    es == [] ||
    ((es[0].Reschedule? ==> !Terminal(s.rows[es[0].row]) || RescheduleIsSafe(s))
     && ReschedulesAreSafe(Apply(s, es[0]), es[1..]))
  }

  lemma {:induction false} RunKeepsDone(s: State, es: seq<Event>)
    requires DoneInv(s) && Valid(s, es) && ReschedulesAreSafe(s, es)
    ensures DoneInv(Exec(s, es))
    decreases |es|
  {
    if es != [] {
      StepKeepsDone(s, es[0]);
      RunKeepsDone(Apply(s, es[0]), es[1..]);
    }
  }

  /**
   No early completion: from a created job, however its sessions and lease recoveries interleave, and
   unless a task that had ended was rescheduled where that was unsafe, a COMPLETED job has no open task.
   */
  lemma CompletedMeansDone(s: State, es: seq<Event>)
    requires Created(s) && Valid(s, es) && ReschedulesAreSafe(s, es)
    ensures Exec(s, es).job.Completed? ==> AllTerminal(Exec(s, es).rows)
  {
    RunKeepsDone(s, es);
  }

  /** Both directions: at every moment of such a run the job is COMPLETED exactly when all its tasks have ended. */
  lemma CompletedIffDone(s: State, es: seq<Event>)
    requires Created(s) && !AllTerminal(s.rows)
    requires Valid(s, es) && RecoveriesAreSafe(s, es) && ReschedulesAreSafe(s, es)
    ensures Exec(s, es).job.Completed? <==> AllTerminal(Exec(s, es).rows)
  {
    LastCompletionIsNotLost(s, es);
    CompletedMeansDone(s, es);
  }

  /** No task fails in recovery, and none that has ended is rescheduled. */
  ghost predicate Undisturbed(s: State, es: seq<Event>)
    requires Valid(s, es)
    decreases |es|
  {
    es == [] ||
    (!es[0].RecoverToFailed? && (es[0].Reschedule? ==> !Terminal(s.rows[es[0].row]))
     && Undisturbed(Apply(s, es[0]), es[1..]))
  }

  lemma {:induction false} UndisturbedIsSafe(s: State, es: seq<Event>)
    requires Valid(s, es) && Undisturbed(s, es)
    ensures RecoveriesAreSafe(s, es) && ReschedulesAreSafe(s, es)
    decreases |es|
  {
    if es != [] {
      UndisturbedIsSafe(Apply(s, es[0]), es[1..]);
    }
  }

  /** In particular in every run with no recovery failure and no rescheduling of a task that has ended. */
  lemma CompletedIffDoneUndisturbed(s: State, es: seq<Event>)
    requires Created(s) && !AllTerminal(s.rows) && Valid(s, es) && Undisturbed(s, es)
    ensures Exec(s, es).job.Completed? <==> AllTerminal(Exec(s, es).rows)
  {
    UndisturbedIsSafe(s, es);
    CompletedIffDone(s, es);
  }

  /**
   The guard is exact: rescheduling a task breaks the converse law, at once or at the commit of the
   transaction that is holding the job lock, if and only if the guard does not hold.
   */
  lemma RescheduleGuardIsExact(s: State, row: nat)
    requires DoneInv(s) && Enabled(s, Reschedule(row))
    ensures var s' := Apply(s, Reschedule(row));
            (!Terminal(s.rows[row]) || RescheduleIsSafe(s)) <==>
            && (s'.job.Completed? ==> AllTerminal(s'.rows))
            && forall w: nat {:trigger Commit(w)} :: Enabled(s', Commit(w)) ==>
                 (Apply(s', Commit(w)).job.Completed? ==> AllTerminal(Apply(s', Commit(w)).rows))
  {
    var s' := Apply(s, Reschedule(row));
    if !Terminal(s.rows[row]) || RescheduleIsSafe(s) {
      StepKeepsDone(s, Reschedule(row));
      forall w: nat | Enabled(s', Commit(w))
        ensures Apply(s', Commit(w)).job.Completed? ==> AllTerminal(Apply(s', Commit(w)).rows)
      {
        CommitKeepsDone(s', w);
      }
    } else if !s.job.Completed? {
      var w: nat :| w < |s.txns| && s.txns[w].Counted? && s.txns[w].open == 0;
      OverlayOfOthers(s, w, row, Pending);
      assert Enabled(s', Commit(w));
      assert Apply(s', Commit(w)).rows[row] == Pending;
    } else {
      assert s'.rows[row] == Pending;
    }
  }

  /** A concrete loss: the only task's lease expires on its last attempt and nobody updates the job. */
  lemma RecoveryCanLoseCompletion()
    ensures var s := State([Pending], Pending, []);
            var es := [Claim(0), RecoverToFailed(0)];
            Created(s) && !AllTerminal(s.rows) && Valid(s, es) && !NoLostCompletion(Exec(s, es))
  {
    var s := State([Pending], Pending, []);
    var s1 := Apply(s, Claim(0));
    assert s1.rows == [Processing];
    var s2 := Apply(s1, RecoverToFailed(0));
    assert s2.rows == [Failed];
    assert s.rows[0].Pending?;
    var es := [Claim(0), RecoverToFailed(0)];
    assert es[1..] == [RecoverToFailed(0)] && es[1..][1..] == [];
    assert Valid(s2, []);
    assert Valid(s1, es[1..]) && Exec(s1, es[1..]) == s2;
  }
}
