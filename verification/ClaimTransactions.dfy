/**
 Claim and recovery transactions that are open at the same time. Each selects its batch FOR UPDATE
 SKIP LOCKED, loads the rows, and only later writes back values computed from what it loaded; until
 then other sessions select, write rows that nobody has locked, commit and roll back.
 */
module ClaimTransactions {
  import opened Records
  import opened Sorting
  import opened TaskTable

  datatype Purpose = Claim(lease: int) | Recover(max: nat)

  datatype Txn = Txn(batch: seq<nat>, loaded: seq<Task>, purpose: Purpose)

  datatype State = State(rows: seq<Task>, open: map<nat, Txn>)

  datatype Event =
    | OpenClaim(x: nat, limit: nat, types: set<TaskType>, lease: int)
    | OpenRecovery(x: nat, limit: nat, now: int, max: nat)
    | Commit(x: nat)
    | Rollback(x: nat)
    | WorkerWrite(row: nat, outcome: Outcome, max: nat)

  function Locked(s: State): set<nat> {
    set x, i | x in s.open.Keys && i in s.open[x].batch :: i
  }

  function Load(rows: seq<Task>, batch: seq<nat>): seq<Task>
    requires forall m :: 0 <= m < |batch| ==> batch[m] < |rows|
  {
    seq(|batch|, m requires 0 <= m < |batch| => rows[batch[m]])
  }

  function Written(t: Task, p: Purpose): Task {
    match p
    case Claim(lease) => Claimed(t, lease)
    case Recover(max) => Recovered(t, max)
  }

  /** The UPDATE statements of a commit, one row after another, from the loaded values. */
  function WriteBack(rows: seq<Task>, batch: seq<nat>, loaded: seq<Task>, p: Purpose): (r: seq<Task>)
    requires |loaded| == |batch|
    ensures |r| == |rows|
    decreases |batch|
  {
    if batch == [] then rows
    else if batch[0] >= |rows| then WriteBack(rows, batch[1..], loaded[1..], p)
    else WriteBack(rows[batch[0] := Written(loaded[0], p)], batch[1..], loaded[1..], p)
  }

  /** An event that is blocked, or names a transaction that is not there, changes nothing. */
  function Step(s: State, e: Event): State {
    match e
    case OpenClaim(x, limit, types, lease) =>
      if x in s.open then s
      else
        var b := ClaimQuery(s.rows, Locked(s), Some(types), limit);
        SelectIsDistinct(s.rows, Locked(s), ClaimFilter(types), limit);
        s.(open := s.open[x := Txn(b, Load(s.rows, b), Claim(lease))])
    case OpenRecovery(x, limit, now, max) =>
      if x in s.open then s
      else
        var b := RecoveryQuery(s.rows, Locked(s), now, limit);
        SelectIsDistinct(s.rows, Locked(s), ExpiredFilter(now), limit);
        s.(open := s.open[x := Txn(b, Load(s.rows, b), Recover(max))])
    case Commit(x) =>
      if x !in s.open || |s.open[x].loaded| != |s.open[x].batch| then s
      else
        var t := s.open[x];
        State(WriteBack(s.rows, t.batch, t.loaded, t.purpose), s.open - {x})
    case Rollback(x) => s.(open := s.open - {x})
    case WorkerWrite(row, o, max) =>
      if row in Locked(s) then s
      else s.(rows := WriteOutcome(Tables(s.rows, map[]), row, o, max).rows)
  }

  function Exec(s: State, es: seq<Event>): State
    decreases |es|
  {
    if es == [] then s else Exec(Step(s, es[0]), es[1..])
  }

  /** What an open transaction relies on: its rows exist, are its own, and still hold what it loaded. */
  ghost predicate Sound(rows: seq<Task>, t: Txn) {
    && |t.loaded| == |t.batch|
    && Distinct(t.batch)
    && (forall m :: 0 <= m < |t.batch| ==> t.batch[m] < |rows| && t.loaded[m] == rows[t.batch[m]])
    && (forall m :: 0 <= m < |t.batch| ==>
          if t.purpose.Claim? then t.loaded[m].status.Pending? else t.loaded[m].status.Processing?)
  }

  ghost predicate Inv(s: State) {
    && (forall x :: x in s.open ==> Sound(s.rows, s.open[x]))
    && (forall x, y, i :: x in s.open && y in s.open && i in s.open[x].batch && i in s.open[y].batch ==> x == y)
  }

  lemma {:induction false} WriteBackRows(rows: seq<Task>, batch: seq<nat>, loaded: seq<Task>, p: Purpose, i: nat)
    requires |loaded| == |batch| && Distinct(batch)
    requires forall m :: 0 <= m < |batch| ==> batch[m] < |rows| && loaded[m] == rows[batch[m]]
    requires i < |rows|
    ensures WriteBack(rows, batch, loaded, p)[i] == if i in batch then Written(rows[i], p) else rows[i]
    decreases |batch|
  {
    if batch != [] {
      var rows' := rows[batch[0] := Written(loaded[0], p)];
      assert batch == [batch[0]] + batch[1..];
      forall m | 0 <= m < |batch[1..]| ensures loaded[1..][m] == rows'[batch[1..][m]] {
        assert batch[1..][m] == batch[m + 1] != batch[0];
      }
      WriteBackRows(rows', batch[1..], loaded[1..], p, i);
      assert batch[0] !in batch[1..];
    }
  }

  lemma StepKeepsInv(s: State, e: Event)
    requires Inv(s)
    ensures Inv(Step(s, e))
  {
    match e
    case OpenClaim(x, limit, types, lease) =>
      SelectIsDistinct(s.rows, Locked(s), ClaimFilter(types), limit);
      OpeningKeepsInv(s, x, ClaimQuery(s.rows, Locked(s), Some(types), limit), Claim(lease));
    case OpenRecovery(x, limit, now, max) =>
      SelectIsDistinct(s.rows, Locked(s), ExpiredFilter(now), limit);
      OpeningKeepsInv(s, x, RecoveryQuery(s.rows, Locked(s), now, limit), Recover(max));
    case Commit(x) =>
      if x in s.open {
        var t := s.open[x];
        var s' := Step(s, e);
        forall y | y in s'.open ensures Sound(s'.rows, s'.open[y]) {
          var u := s.open[y];
          forall m | 0 <= m < |u.batch| ensures u.loaded[m] == s'.rows[u.batch[m]] {
            assert u.batch[m] in u.batch;
            WriteBackRows(s.rows, t.batch, t.loaded, t.purpose, u.batch[m]);
          }
        }
      }
    case Rollback(x) =>
    case WorkerWrite(row, o, max) =>
      var s' := Step(s, e);
      assert |s'.rows| == |s.rows|;
      forall y | y in s'.open ensures Sound(s'.rows, s'.open[y]) {
        var u := s.open[y];
        forall m | 0 <= m < |u.batch| ensures u.loaded[m] == s'.rows[u.batch[m]] {
          assert u.batch[m] in u.batch;
          assert u.batch[m] in Locked(s);
        }
      }
  }

  lemma OpeningKeepsInv(s: State, x: nat, b: seq<nat>, p: Purpose)
    requires Inv(s) && Distinct(b)
    requires forall m :: 0 <= m < |b| ==> b[m] < |s.rows| && b[m] !in Locked(s)
    requires forall m :: 0 <= m < |b| ==>
               if p.Claim? then s.rows[b[m]].status.Pending? else s.rows[b[m]].status.Processing?
    ensures x !in s.open ==> Inv(s.(open := s.open[x := Txn(b, Load(s.rows, b), p)]))
  {
    if x !in s.open {
      var open' := s.open[x := Txn(b, Load(s.rows, b), p)];
      assert forall y, i :: y in s.open.Keys && i in s.open[y].batch ==> i in Locked(s);
      forall i | i in b ensures i !in Locked(s) {
      }
      assert forall y, z, i :: y in open' && z in open' && i in open'[y].batch && i in open'[z].batch ==> y == z;
    }
  }

  /**
   Over every interleaving of open claims, recoveries and worker writes: open transactions hold
   disjoint rows, each row they hold still has the status they selected it for, and still has the
   values they loaded.
   */
  lemma {:induction false} OpenBatchesAreDisjoint(s: State, es: seq<Event>)
    requires Inv(s)
    ensures Inv(Exec(s, es))
    decreases |es|
  {
    if es != [] {
      StepKeepsInv(s, es[0]);
      OpenBatchesAreDisjoint(Step(s, es[0]), es[1..]);
    }
  }

  /**
   No lost update between the select and the commit: at whatever point of whatever run a
   transaction commits, writing back the loaded values equals claiming (or recovering) the rows as
   they are at that moment, so every pending row of the batch gains exactly one attempt.
   */
  lemma CommitActsOnCurrentRows(rows: seq<Task>, es: seq<Event>, x: nat)
    requires x in Exec(State(rows, map[]), es).open
    ensures var s := Exec(State(rows, map[]), es);
            var t := s.open[x];
            Step(s, Commit(x)).rows ==
            if t.purpose.Claim? then ClaimRows(s.rows, Elems(t.batch), t.purpose.lease)
            else RecoverRows(s.rows, Elems(t.batch), t.purpose.max)
    ensures var s := Exec(State(rows, map[]), es);
            forall i :: i in s.open[x].batch && s.open[x].purpose.Claim? ==>
                          i < |s.rows| && s.rows[i].status.Pending?
                          && Step(s, Commit(x)).rows[i].attempts == s.rows[i].attempts + 1
  {
    OpenBatchesAreDisjoint(State(rows, map[]), es);
    CommitWrites(Exec(State(rows, map[]), es), x);
  }

  /**
   A claim opened at any point of any run takes exactly the first `limit` PENDING rows of the wanted types
   that no open transaction holds.
   */
  lemma OpenedBatchIsFirst(rows: seq<Task>, es: seq<Event>, x: nat, limit: nat, types: set<TaskType>, lease: int)
    requires UniqueIds(rows)
    requires x !in Exec(State(rows, map[]), es).open
    ensures var s := Exec(State(rows, map[]), es);
            var s' := Step(s, OpenClaim(x, limit, types, lease));
            && x in s'.open
            && ClaimsFirst(s.rows, Locked(s), types, limit, s'.open[x].batch)
            && (forall y, i :: y in s.open && i in s.open[y].batch ==> i !in s'.open[x].batch)
  {
    var s := Exec(State(rows, map[]), es);
    RowsKeepIds(State(rows, map[]), es);
    ClaimTakesFirst(s.rows, Locked(s), Some(types), limit);
    forall y, i | y in s.open && i in s.open[y].batch
      ensures i !in ClaimQuery(s.rows, Locked(s), Some(types), limit)
    {
      BatchesAreLocked(s, y, i);
    }
  }

  /** And a recovery the first `limit` PROCESSING rows whose lease is over. */
  lemma OpenedRecoveryIsFirst(rows: seq<Task>, es: seq<Event>, x: nat, limit: nat, now: int, max: nat)
    requires UniqueIds(rows)
    requires x !in Exec(State(rows, map[]), es).open
    ensures var s := Exec(State(rows, map[]), es);
            var s' := Step(s, OpenRecovery(x, limit, now, max));
            && x in s'.open
            && RecoversFirst(s.rows, Locked(s), now, limit, s'.open[x].batch)
            && (forall y, i :: y in s.open && i in s.open[y].batch ==> i !in s'.open[x].batch)
  {
    var s := Exec(State(rows, map[]), es);
    RowsKeepIds(State(rows, map[]), es);
    RecoveryTakesFirst(s.rows, Locked(s), now, limit);
    forall y, i | y in s.open && i in s.open[y].batch
      ensures i !in RecoveryQuery(s.rows, Locked(s), now, limit)
    {
      BatchesAreLocked(s, y, i);
    }
  }

  lemma BatchesAreLocked(s: State, y: nat, i: nat)
    requires y in s.open && i in s.open[y].batch
    ensures i in Locked(s)
  {
    assert y in s.open.Keys;
  }

  /** While a transaction is open, no other one opens under its name. */
  lemma NameIsTaken(s: State, x: nat, limit: nat, types: set<TaskType>, lease: int, now: int, max: nat)
    requires x in s.open
    ensures Step(s, OpenClaim(x, limit, types, lease)) == s && Step(s, OpenRecovery(x, limit, now, max)) == s
  {
  }

  /** A commit writes what its purpose says into its rows as they are, and frees them. */
  lemma CommitWrites(s: State, x: nat)
    requires Inv(s) && x in s.open
    ensures var s' := Step(s, Commit(x));
            && s'.open == s.open - {x} && |s'.rows| == |s.rows|
            && forall i :: 0 <= i < |s.rows| ==>
                 s'.rows[i] == if i in s.open[x].batch then Written(s.rows[i], s.open[x].purpose) else s.rows[i]
  {
    var t := s.open[x];
    forall i | 0 <= i < |s.rows|
      ensures WriteBack(s.rows, t.batch, t.loaded, t.purpose)[i]
              == if i in t.batch then Written(s.rows[i], t.purpose) else s.rows[i]
    {
      WriteBackRows(s.rows, t.batch, t.loaded, t.purpose, i);
    }
  }

  lemma OpenThenCommit(s: State, e: Event, x: nat)
    requires x !in s.open && Step(s, e).open.Keys == s.open.Keys + {x}
    requires forall y :: y in s.open ==> Step(s, e).open[y] == s.open[y]
    ensures Exec(s, [e]) == Step(s, e) && Exec(s, [e, Commit(x)]) == Step(Step(s, e), Commit(x))
    ensures Step(s, e).open - {x} == s.open
  {
    assert [e][1..] == [] && [e, Commit(x)][1..] == [Commit(x)] && [Commit(x)][1..] == [];
    assert Exec(Step(s, e), [Commit(x)]) == Step(Step(s, e), Commit(x));
  }

  /** A claim that is opened and committed leaves its batch claimed and nothing else changed. */
  lemma ClaimThenCommit(s: State, x: nat, limit: nat, types: set<TaskType>, lease: int)
    requires Inv(s) && UniqueIds(s.rows) && x !in s.open
    ensures var s1 := Exec(s, [OpenClaim(x, limit, types, lease)]);
            var s2 := Exec(s, [OpenClaim(x, limit, types, lease), Commit(x)]);
            && s1.rows == s.rows && x in s1.open
            && ClaimsFirst(s.rows, Locked(s), types, limit, s1.open[x].batch)
            && ClaimedOnly(s.rows, s2.rows, s1.open[x].batch, lease) && s2.open == s.open
  {
    var claim := OpenClaim(x, limit, types, lease);
    OpenThenCommit(s, claim, x);
    ClaimTakesFirst(s.rows, Locked(s), Some(types), limit);
    StepKeepsInv(s, claim);
    CommitWrites(Step(s, claim), x);
  }

  /** The same for a recovery. */
  lemma RecoveryThenCommit(s: State, x: nat, limit: nat, now: int, max: nat)
    requires Inv(s) && UniqueIds(s.rows) && x !in s.open
    ensures var s1 := Exec(s, [OpenRecovery(x, limit, now, max)]);
            var s2 := Exec(s, [OpenRecovery(x, limit, now, max), Commit(x)]);
            && s1.rows == s.rows && x in s1.open
            && RecoversFirst(s.rows, Locked(s), now, limit, s1.open[x].batch)
            && RecoveredOnly(s.rows, s2.rows, s1.open[x].batch, max) && s2.open == s.open
  {
    var recovery := OpenRecovery(x, limit, now, max);
    OpenThenCommit(s, recovery, x);
    RecoveryTakesFirst(s.rows, Locked(s), now, limit);
    StepKeepsInv(s, recovery);
    CommitWrites(Step(s, recovery), x);
  }

  /** A rollback frees the rows of the batch and writes none of them. */
  lemma RollbackOnlyFrees(s: State, x: nat)
    requires Inv(s) && x in s.open
    ensures var s' := Step(s, Rollback(x));
            && s'.rows == s.rows && s'.open == s.open - {x}
            && forall i :: i in Locked(s') <==> i in Locked(s) && i !in s.open[x].batch
  {
    var s' := Step(s, Rollback(x));
    forall i ensures i in Locked(s') <==> i in Locked(s) && i !in s.open[x].batch {
      if i in Locked(s') {
        var y :| y in s'.open.Keys && i in s'.open[y].batch;
        BatchesAreLocked(s, y, i);
      } else if i in Locked(s) {
        var y :| y in s.open.Keys && i in s.open[y].batch;
        if y != x {
          BatchesAreLocked(s', y, i);
        }
      }
    }
  }

  /** A worker's write goes through exactly when no open transaction has the row, and touches that row only. */
  lemma WorkerWritesUnlockedRow(s: State, row: nat, o: Outcome, max: nat)
    ensures var s' := Step(s, WorkerWrite(row, o, max));
            && s'.open == s.open && |s'.rows| == |s.rows|
            && (forall k :: 0 <= k < |s.rows| && k != row ==> s'.rows[k] == s.rows[k])
            && (row < |s.rows| ==>
                  if row in Locked(s) then s'.rows[row] == s.rows[row] else Ended(s.rows[row], s'.rows[row], o, max))
  {
    OutcomeFinishes(Tables(s.rows, map[]), row, o, max);
  }

  /** Ids, types and creation times of rows are never written. */
  lemma {:induction false} RowsKeepIds(s: State, es: seq<Event>)
    requires Inv(s) && UniqueIds(s.rows)
    ensures |Exec(s, es).rows| == |s.rows| && UniqueIds(Exec(s, es).rows)
    decreases |es|
  {
    if es != [] {
      var s' := Step(s, es[0]);
      StepKeepsInv(s, es[0]);
      if es[0].Commit? && es[0].x in s.open {
        var t := s.open[es[0].x];
        forall i | 0 <= i < |s.rows| ensures s'.rows[i].id == s.rows[i].id {
          WriteBackRows(s.rows, t.batch, t.loaded, t.purpose, i);
        }
      }
      assert |s'.rows| == |s.rows| && forall i :: 0 <= i < |s.rows| ==> s'.rows[i].id == s.rows[i].id;
      RowsKeepIds(s', es[1..]);
    }
  }
}
