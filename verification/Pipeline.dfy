/**
 The durable task pipeline as one transition system. A step is one short database session, one
 queue operation, a crash, or the passing of time. Copies of a task live in the hands of a manager
 loop (`held`), in a worker queue (`queued`) or in a worker (`running`); several copies of one task
 can exist, and any set of copies can be lost at any time. Batches are arbitrary sets of eligible
 rows, so any number of managers and worker pools is covered.
 */
module Pipeline {
  import opened Records
  import opened TaskTable
  import Sorting

  /** The attempt limit of the processors' settings and the one that recovery reads for itself. */
  datatype Limits = Limits(worker: nat, recovery: nat)

  datatype State = State(
    db: Tables,
    held: multiset<nat>,
    queued: multiset<nat>,
    running: multiset<nat>,
    now: int)

  datatype Event =
    | Submit(job: nat, tasks: seq<Task>)
    | RefreshTick(domains: seq<nat>, freshIds: seq<nat>)
    | Claim(ids: set<nat>, lease: int)
    | Recover(expired: set<nat>)
    | Enqueue(row: nat)
    | Dequeue(row: nat)
    | Finish(row: nat, outcome: Outcome)
    | Crash(lostHeld: multiset<nat>, lostQueued: multiset<nat>, lostRunning: multiset<nat>)
    | Advance(seconds: nat)

  function Budget(c: Limits): nat {
    Max(c.worker, c.recovery)
  }

  predicate ValidLimits(c: Limits) {
    c.worker >= 1 && c.recovery >= 1
  }

  /** A row as job creation inserts it: pending if its domain is valid, failed otherwise. */
  predicate NewUserTask(t: Task, job: nat) {
    && t.job == Some(job) && t.kind.UserRequest? && t.attempts == 0 && t.lease.None?
    && (t.status.Pending? || t.status.Failed?)
  }

  predicate Creates(e: Event) {
    e.Submit? || e.RefreshTick?
  }

  predicate Enabled(s: State, e: Event) {
    match e
    case Submit(job, tasks) =>
      job !in s.db.jobs && forall k :: 0 <= k < |tasks| ==> NewUserTask(tasks[k], job)
    case RefreshTick(domains, ids) =>
      |ids| == |domains| && CreateRefresh(s.db.rows, domains, ids, s.now).Some?
    case Claim(ids, _) =>
      forall i :: i in ids ==> i < |s.db.rows| && s.db.rows[i].status.Pending?
    case Recover(expired) =>
      forall i :: i in expired ==> i < |s.db.rows| && ExpiredFilter(s.now)(s.db.rows[i])
    case Enqueue(row) => row in s.held
    case Dequeue(row) => row in s.queued
    case Finish(row, _) => row in s.running
    case Crash(h, q, r) => h <= s.held && q <= s.queued && r <= s.running
    case Advance(_) => true
  }

  /** Recovered rows that still have attempts left are handed on; exhausted ones are not. */
  function Redispatched(rows: seq<Task>, ids: set<nat>, max: nat): set<nat> {
    set i | i in ids && i < |rows| && rows[i].attempts < max
  }

  function Apply(c: Limits, s: State, e: Event): State
    requires Enabled(s, e)
  {
    var rows := s.db.rows;
    match e
    case Submit(job, tasks) =>
      s.(db := Tables(rows + tasks, s.db.jobs[job := Pending]))
    case RefreshTick(domains, ids) =>
      s.(db := s.db.(rows := CreateRefresh(rows, domains, ids, s.now).value))
    case Claim(ids, lease) =>
      s.(db := s.db.(rows := ClaimRows(rows, ids, lease)), held := s.held + multiset(ids))
    case Recover(expired) =>
      s.(db := s.db.(rows := RecoverRows(rows, expired, c.recovery)),
         held := s.held + multiset(Redispatched(rows, expired, c.recovery)))
    case Enqueue(row) =>
      s.(held := s.held - multiset{row}, queued := s.queued + multiset{row})
    case Dequeue(row) =>
      s.(queued := s.queued - multiset{row}, running := s.running + multiset{row})
    case Finish(row, outcome) =>
      s.(db := WriteOutcome(s.db, row, outcome, c.worker), running := s.running - multiset{row})
    case Crash(h, q, r) =>
      s.(held := s.held - h, queued := s.queued - q, running := s.running - r)
    case Advance(seconds) => s.(now := s.now + seconds)
  }

  ghost predicate Valid(c: Limits, s: State, es: seq<Event>)
    decreases |es|
  {
    es == [] || (Enabled(s, es[0]) && Valid(c, Apply(c, s, es[0]), es[1..]))
  }

  ghost function Exec(c: Limits, s: State, es: seq<Event>): State
    requires Valid(c, s, es)
    decreases |es|
  {
    if es == [] then s else Exec(c, Apply(c, s, es[0]), es[1..])
  }

  function Start(now: int): State {
    State(Tables([], map[]), multiset{}, multiset{}, multiset{}, now)
  }

  /** What every reachable state keeps about its rows, whatever crashed, expired or wrote late. */
  ghost predicate RowInv(c: Limits, t: Task) {
    && t.attempts <= Budget(c)
    && (t.status.Pending? ==> t.attempts < Budget(c) && t.lease.None?)
    && (t.status.Processing? ==> t.lease.Some? && t.attempts >= 1)
  }

  ghost predicate Inv(c: Limits, s: State) {
    && (forall i :: 0 <= i < |s.db.rows| ==> RowInv(c, s.db.rows[i]))
    && (forall i :: i in s.held || i in s.queued || i in s.running ==> i < |s.db.rows|)
  }

  lemma RefreshRowsAreNew(rows: seq<Task>, domains: seq<nat>, ids: seq<nat>, now: int)
    requires |ids| == |domains| && CreateRefresh(rows, domains, ids, now).Some?
    ensures var r := CreateRefresh(rows, domains, ids, now).value;
            && rows <= r
            && forall i :: |rows| <= i < |r| ==>
                 r[i].kind.Refresh? && r[i].job.None? && r[i].status.Pending? && r[i].attempts == 0 && r[i].lease.None?
  {
    CreateRefreshAppends(rows, domains, ids, now);
  }

  lemma BatchKeepsInv(c: Limits, s: State, e: Event)
    requires ValidLimits(c) && Inv(c, s) && Enabled(s, e) && (e.Claim? || e.Recover?)
    ensures Inv(c, Apply(c, s, e))
  {
    var s' := Apply(c, s, e);
    forall i | 0 <= i < |s'.db.rows| ensures RowInv(c, s'.db.rows[i]) {
      assert RowInv(c, s.db.rows[i]);
    }
  }

  lemma FinishKeepsInv(c: Limits, s: State, e: Event)
    requires ValidLimits(c) && Inv(c, s) && Enabled(s, e) && e.Finish?
    ensures Inv(c, Apply(c, s, e))
  {
    var s' := Apply(c, s, e);
    assert |s'.db.rows| == |s.db.rows|;
    forall i | 0 <= i < |s'.db.rows| ensures RowInv(c, s'.db.rows[i]) {
      assert RowInv(c, s.db.rows[i]);
    }
  }

  lemma StepKeepsInv(c: Limits, s: State, e: Event)
    requires ValidLimits(c) && Inv(c, s) && Enabled(s, e)
    ensures Inv(c, Apply(c, s, e))
  {
    if e.Claim? || e.Recover? {
      BatchKeepsInv(c, s, e);
    } else if e.Finish? {
      FinishKeepsInv(c, s, e);
    } else if e.RefreshTick? {
      RefreshRowsAreNew(s.db.rows, e.domains, e.freshIds, s.now);
    }
  }

  lemma {:induction false} RunKeepsInv(c: Limits, s: State, es: seq<Event>)
    requires ValidLimits(c) && Inv(c, s) && Valid(c, s, es)
    ensures Inv(c, Exec(c, s, es))
    decreases |es|
  {
    if es != [] {
      StepKeepsInv(c, s, es[0]);
      RunKeepsInv(c, Apply(c, s, es[0]), es[1..]);
    }
  }

  lemma {:induction false} RunsCompose(c: Limits, s: State, es: seq<Event>, more: seq<Event>)
    requires Valid(c, s, es) && Valid(c, Exec(c, s, es), more)
    ensures Valid(c, s, es + more)
    ensures Exec(c, s, es + more) == Exec(c, Exec(c, s, es), more)
    decreases |es|
  {
    if es == [] {
      assert es + more == more;
    } else {
      var s' := Apply(c, s, es[0]);
      var all := es + more;
      assert all[0] == es[0] && all[1..] == es[1..] + more;
      assert Valid(c, s', es[1..]) && Exec(c, s, es) == Exec(c, s', es[1..]);
      RunsCompose(c, s', es[1..], more);
      assert Valid(c, s, all) && Exec(c, s, all) == Exec(c, s', all[1..]);
    }
  }

  // ---- What the steps do, row by row and copy by copy ----

  /** Any set of PENDING rows can be claimed: each becomes PROCESSING with one attempt more and one copy in hand. */
  lemma ClaimedRowsAndCopies(c: Limits, s: State, ids: set<nat>, lease: int, i: nat)
    requires forall k :: k in ids ==> k < |s.db.rows| && s.db.rows[k].status == Pending
    requires i < |s.db.rows|
    ensures Enabled(s, Claim(ids, lease))
    ensures var s' := Apply(c, s, Claim(ids, lease));
            && s'.db.rows[i] == (if i !in ids then s.db.rows[i]
                                 else s.db.rows[i].(status := Processing, lease := Some(lease),
                                                    attempts := s.db.rows[i].attempts + 1))
            && |s'.db.rows| == |s.db.rows| && s'.db.jobs == s.db.jobs && s'.now == s.now
            && s'.held[i] == s.held[i] + (if i in ids then 1 else 0)
            && s'.queued == s.queued && s'.running == s.running
  {
  }

  /** Any PROCESSING rows whose lease is over can be recovered: FAILED at the limit, or PENDING with a copy in hand. */
  lemma RecoveredRowsAndCopies(c: Limits, s: State, ids: set<nat>, i: nat)
    requires forall k :: k in ids ==>
               && k < |s.db.rows| && s.db.rows[k].status == Processing
               && s.db.rows[k].lease.Some? && s.db.rows[k].lease.value < s.now
    requires i < |s.db.rows|
    ensures Enabled(s, Recover(ids))
    ensures var s' := Apply(c, s, Recover(ids));
            var again := s.db.rows[i].attempts < c.recovery;
            && s'.db.rows[i] == (if i !in ids then s.db.rows[i]
                                 else s.db.rows[i].(status := if again then Pending else Failed, lease := None))
            && |s'.db.rows| == |s.db.rows| && s'.db.jobs == s.db.jobs && s'.now == s.now
            && s'.held[i] == s.held[i] + (if i in ids && again then 1 else 0)
            && s'.queued == s.queued && s'.running == s.running
  {
    var s' := Apply(c, s, Recover(ids));
    var more := Redispatched(s.db.rows, ids, c.recovery);
    assert i in more <==> i in ids && s.db.rows[i].attempts < c.recovery;
  }

  /** A row whose status or lease forbids it is neither claimed nor recovered. */
  lemma OthersAreLeftAlone(s: State, ids: set<nat>, lease: int, i: nat)
    requires i in ids && i < |s.db.rows|
    ensures s.db.rows[i].status != Pending ==> !Enabled(s, Claim(ids, lease))
    ensures s.db.rows[i].status != Processing ==> !Enabled(s, Recover(ids))
    ensures s.db.rows[i].lease.None? || s.now <= s.db.rows[i].lease.value ==> !Enabled(s, Recover(ids))
  {
    if Enabled(s, Recover(ids)) {
      assert ExpiredFilter(s.now)(s.db.rows[i]);
    }
  }

  /** A copy goes from a loop's hand to the queue and from there to a worker, one at a time, and the tables stay. */
  lemma CopiesMoveOn(c: Limits, s: State, row: nat)
    ensures Enabled(s, Enqueue(row)) <==> s.held[row] > 0
    ensures Enabled(s, Dequeue(row)) <==> s.queued[row] > 0
    ensures s.held[row] > 0 ==>
              Apply(c, s, Enqueue(row)) == s.(held := s.held - multiset{row}, queued := s.queued + multiset{row})
    ensures s.queued[row] > 0 ==>
              Apply(c, s, Dequeue(row)) == s.(queued := s.queued - multiset{row}, running := s.running + multiset{row})
  {
  }

  /** A crash loses any copies there are and nothing else; time passes by itself. */
  lemma CrashesAndTime(c: Limits, s: State, h: multiset<nat>, q: multiset<nat>, r: multiset<nat>, seconds: nat)
    ensures Enabled(s, Crash(h, q, r)) <==> h <= s.held && q <= s.queued && r <= s.running
    ensures Enabled(s, Crash(h, q, r)) ==>
              Apply(c, s, Crash(h, q, r)) == s.(held := s.held - h, queued := s.queued - q, running := s.running - r)
    ensures Enabled(s, Advance(seconds)) && Apply(c, s, Advance(seconds)) == s.(now := s.now + seconds)
  {
  }

  /** A new job comes with its tasks, PENDING or FAILED, unclaimed; no other row and no other job changes. */
  lemma JobsComeIn(c: Limits, s: State, job: nat, tasks: seq<Task>)
    requires job !in s.db.jobs
    requires forall k :: 0 <= k < |tasks| ==>
               && tasks[k].job == Some(job) && tasks[k].kind == UserRequest && tasks[k].attempts == 0
               && tasks[k].lease == None && tasks[k].status in {Pending, Failed}
    ensures Enabled(s, Submit(job, tasks))
    ensures Apply(c, s, Submit(job, tasks)) == s.(db := Tables(s.db.rows + tasks, s.db.jobs[job := Pending]))
  {
  }

  // ---- Attempt accounting ----

  function ClaimSteps(es: seq<Event>, row: nat): nat {
    if es == [] then 0
    else (if es[0].Claim? && row in es[0].ids then 1 else 0) + ClaimSteps(es[1..], row)
  }

  function AttemptsOf(s: State, row: nat): nat {
    if row < |s.db.rows| then s.db.rows[row].attempts else 0
  }

  lemma StepCountsClaim(c: Limits, s: State, e: Event, row: nat)
    requires Enabled(s, e)
    ensures AttemptsOf(Apply(c, s, e), row) == AttemptsOf(s, row) + (if e.Claim? && row in e.ids then 1 else 0)
  {
    if e.RefreshTick? {
      RefreshRowsAreNew(s.db.rows, e.domains, e.freshIds, s.now);
    }
  }

  /**
   In every run the attempts of a row grow by exactly the number of claim steps on it: recovery,
   completion, failure, rescheduling and late writes of stale workers never touch the counter.
   */
  lemma {:induction false} AttemptsCountClaims(c: Limits, s: State, es: seq<Event>, row: nat)
    requires Valid(c, s, es)
    ensures AttemptsOf(Exec(c, s, es), row) == AttemptsOf(s, row) + ClaimSteps(es, row)
    decreases |es|
  {
    if es != [] {
      StepCountsClaim(c, s, es[0], row);
      AttemptsCountClaims(c, Apply(c, s, es[0]), es[1..], row);
    }
  }

  /**
   Attempt accounting from the empty database: attempts equals claims and never exceeds the larger
   limit, pending rows still have budget and no lease, processing rows have a lease and an attempt.
   */
  lemma AttemptAccounting(c: Limits, now: int, es: seq<Event>, row: nat)
    requires ValidLimits(c) && Valid(c, Start(now), es)
    ensures var s := Exec(c, Start(now), es);
            row < |s.db.rows| ==>
              && s.db.rows[row].attempts == ClaimSteps(es, row) <= Budget(c)
              && (s.db.rows[row].status.Pending? ==> s.db.rows[row].lease.None? && ClaimSteps(es, row) < Budget(c))
              && (s.db.rows[row].status.Processing? ==> s.db.rows[row].lease.Some? && ClaimSteps(es, row) >= 1)
  {
    RunKeepsInv(c, Start(now), es);
    AttemptsCountClaims(c, Start(now), es, row);
  }

  /** The repository's claim query, whatever else is locked, is a claim step of this system. */
  lemma ClaimQueryIsAStep(c: Limits, s: State, locked: set<nat>, limit: int, lease: int)
    ensures var b := ClaimQuery(s.db.rows, locked, None, limit);
            && Enabled(s, Claim(Elems(b), lease))
            && Apply(c, s, Claim(Elems(b), lease)).db.rows == ClaimRows(s.db.rows, Elems(b), lease)
            && Apply(c, s, Claim(Elems(b), lease)).held == s.held + multiset(b)
  {
    var b := ClaimQuery(s.db.rows, locked, None, limit);
    SelectIsDistinct(s.db.rows, locked, ClaimFilter(ALL_TYPES), limit);
    ElemsAsMultiset(b);
  }

  lemma {:induction false} ElemsAsMultiset(b: seq<nat>)
    requires Sorting.Distinct(b)
    ensures multiset(Elems(b)) == multiset(b)
  {
    if b != [] {
      assert b == [b[0]] + b[1..];
      ElemsAsMultiset(b[1..]);
      assert Elems(b) == {b[0]} + Elems(b[1..]);
      assert b[0] !in b[1..];
    }
  }
}
