/**
 The task and job tables and what each database session does to them: the claim, recovery and
 refresh queries of the task repository, and the write helpers of the domain processor.
 Every function here is the specification that a method below, or in another module, meets.
 */
module TaskTable {
  import opened Records
  import opened Sorting

  datatype Tables = Tables(rows: seq<Task>, jobs: map<nat, Status>)

  // ---- SELECT ... ORDER BY type_priority, created_at, id LIMIT n FOR UPDATE SKIP LOCKED ----

  datatype Entry = Entry(rank: nat, at: int, id: nat, row: nat)

  function TypeRank(k: TaskType): nat {
    if k.UserRequest? then 0 else 1
  }

  predicate EntryLeq(a: Entry, b: Entry) {
    if a.rank != b.rank then a.rank < b.rank
    else if a.at != b.at then a.at < b.at
    else if a.id != b.id then a.id < b.id
    else a.row <= b.row
  }

  /** `t` comes strictly before `u` in (type priority, created_at, id) order. */
  predicate Before(t: Task, u: Task) {
    if TypeRank(t.kind) != TypeRank(u.kind) then TypeRank(t.kind) < TypeRank(u.kind)
    else if t.createdAt != u.createdAt then t.createdAt < u.createdAt
    else t.id < u.id
  }

  ghost predicate UniqueIds(rows: seq<Task>) {
    forall i, j :: 0 <= i < j < |rows| ==> rows[i].id != rows[j].id
  }

  function EntryOf(t: Task, row: nat): Entry {
    Entry(TypeRank(t.kind), t.createdAt, t.id, row)
  }

  predicate Candidate(rows: seq<Task>, locked: set<nat>, filter: Task -> bool, i: nat) {
    i < |rows| && i !in locked && filter(rows[i])
  }

  function Candidates(rows: seq<Task>, locked: set<nat>, filter: Task -> bool, from: nat): (es: seq<Entry>)
    requires from <= |rows|
    ensures forall e :: e in es ==> from <= e.row && Candidate(rows, locked, filter, e.row)
                                    && e == EntryOf(rows[e.row], e.row)
    ensures forall i {:trigger Candidate(rows, locked, filter, i)} ::
              from <= i && Candidate(rows, locked, filter, i) ==> EntryOf(rows[i], i) in es
    ensures forall m, n :: 0 <= m < n < |es| ==> es[m].row != es[n].row
    decreases |rows| - from
  {
    if from == |rows| then []
    else
      var rest := Candidates(rows, locked, filter, from + 1);
      if Candidate(rows, locked, filter, from) then [EntryOf(rows[from], from)] + rest else rest
  }

  function RowsOf(es: seq<Entry>): (ids: seq<nat>)
    ensures |ids| == |es| && forall k :: 0 <= k < |es| ==> ids[k] == es[k].row
  {
    seq(|es|, k requires 0 <= k < |es| => es[k].row)
  }

  function Take<T>(s: seq<T>, limit: nat): (r: seq<T>)
    ensures r <= s && |r| == Min(limit, |s|)
  {
    if |s| <= limit then s else s[..limit]
  }

  function SelectForUpdate(rows: seq<Task>, locked: set<nat>, filter: Task -> bool, limit: int): seq<nat> {
    if limit <= 0 then []
    else RowsOf(Take(Sort(Candidates(rows, locked, filter, 0), EntryLeq), limit))
  }

  lemma EntryOrder()
    ensures TotalOrder(EntryLeq)
  {
  }

  /** What a SKIP LOCKED query over candidate rows promises of its batch `b`. */
  ghost predicate IsFirst(rows: seq<Task>, locked: set<nat>, filter: Task -> bool, limit: nat, b: seq<nat>) {
    && (forall m :: 0 <= m < |b| ==> Candidate(rows, locked, filter, b[m]))
    && (forall m, n :: 0 <= m < n < |b| ==> Before(rows[b[m]], rows[b[n]]))
    && |b| <= limit
    && (forall i: nat {:trigger Candidate(rows, locked, filter, i)} ::
          Candidate(rows, locked, filter, i) && i !in b ==>
            |b| == limit && forall m :: 0 <= m < |b| ==> Before(rows[b[m]], rows[i]))
  }

  lemma SortedCandidates(rows: seq<Task>, locked: set<nat>, filter: Task -> bool)
    ensures var s := Sort(Candidates(rows, locked, filter, 0), EntryLeq);
            && SortedBy(s, EntryLeq)
            && (forall k :: 0 <= k < |s| ==>
                  Candidate(rows, locked, filter, s[k].row) && s[k] == EntryOf(rows[s[k].row], s[k].row))
            && (forall i: nat {:trigger Candidate(rows, locked, filter, i)} ::
                  Candidate(rows, locked, filter, i) ==> EntryOf(rows[i], i) in s)
            && (forall m, n :: 0 <= m < n < |s| ==> s[m].row != s[n].row)
  {
    var es := Candidates(rows, locked, filter, 0);
    var s := Sort(es, EntryLeq);
    EntryOrder();
    SortSorts(es, EntryLeq);
    DistinctPermutes(es, s);
    forall k | 0 <= k < |s|
      ensures Candidate(rows, locked, filter, s[k].row) && s[k] == EntryOf(rows[s[k].row], s[k].row)
    {
      assert s[k] in multiset(s);
      assert s[k] in es;
    }
    forall i: nat | Candidate(rows, locked, filter, i) ensures EntryOf(rows[i], i) in s {
      assert EntryOf(rows[i], i) in multiset(es);
    }
  }

  /**
   The batch of a SKIP LOCKED query is exactly the first `limit` unlocked matching rows in
   (type priority, created_at, id) order: it is strictly ordered, holds only candidates, leaves a
   candidate out only when it is full, and whatever it leaves out comes after everything it took.
   */
  lemma SelectIsFirst(rows: seq<Task>, locked: set<nat>, filter: Task -> bool, limit: nat)
    requires UniqueIds(rows)
    ensures IsFirst(rows, locked, filter, limit, SelectForUpdate(rows, locked, filter, limit))
  {
    var s := Sort(Candidates(rows, locked, filter, 0), EntryLeq);
    assert SelectForUpdate(rows, locked, filter, limit) == RowsOf(Take(s, limit));
    SortedCandidates(rows, locked, filter);
    PrefixIsFirst(rows, locked, filter, limit, s);
  }

  lemma PrefixIsFirst(rows: seq<Task>, locked: set<nat>, filter: Task -> bool, limit: nat, s: seq<Entry>)
    requires UniqueIds(rows) && SortedBy(s, EntryLeq)
    requires forall k :: 0 <= k < |s| ==>
               Candidate(rows, locked, filter, s[k].row) && s[k] == EntryOf(rows[s[k].row], s[k].row)
    requires forall i: nat {:trigger Candidate(rows, locked, filter, i)} ::
               Candidate(rows, locked, filter, i) ==> EntryOf(rows[i], i) in s
    requires forall m, n :: 0 <= m < n < |s| ==> s[m].row != s[n].row
    ensures IsFirst(rows, locked, filter, limit, RowsOf(Take(s, limit)))
  {
    var b := RowsOf(Take(s, limit));
    OrderedCandidates(rows, locked, filter, s);
    assert forall m :: 0 <= m < |b| ==> b[m] == s[m].row && b[m] in b;
    forall i: nat | Candidate(rows, locked, filter, i) && i !in b
      ensures |b| == limit && forall m :: 0 <= m < |b| ==> Before(rows[b[m]], rows[i])
    {
      var n :| 0 <= n < |s| && s[n] == EntryOf(rows[i], i);
      assert n >= |b|;
    }
  }

  lemma OrderedCandidates(rows: seq<Task>, locked: set<nat>, filter: Task -> bool, s: seq<Entry>)
    requires UniqueIds(rows) && SortedBy(s, EntryLeq)
    requires forall k :: 0 <= k < |s| ==> s[k].row < |rows| && s[k] == EntryOf(rows[s[k].row], s[k].row)
    requires forall m, n :: 0 <= m < n < |s| ==> s[m].row != s[n].row
    ensures forall m, n :: 0 <= m < n < |s| ==> Before(rows[s[m].row], rows[s[n].row])
  {
    forall m, n | 0 <= m < n < |s| ensures Before(rows[s[m].row], rows[s[n].row]) {
      assert EntryLeq(s[m], s[n]);
      assert rows[s[m].row].id != rows[s[n].row].id;
    }
  }

  lemma SelectIsDistinct(rows: seq<Task>, locked: set<nat>, filter: Task -> bool, limit: int)
    ensures var b := SelectForUpdate(rows, locked, filter, limit);
            && (forall m :: 0 <= m < |b| ==> Candidate(rows, locked, filter, b[m]))
            && Distinct(b)
            && |b| <= Max(0, limit)
  {
    if limit > 0 {
      SortedCandidates(rows, locked, filter);
    }
  }

  // ---- Claim and recovery ----

  const ALL_TYPES: set<TaskType> := {UserRequest, Refresh}

  function ClaimFilter(types: set<TaskType>): Task -> bool {
    (t: Task) => t.status.Pending? && t.kind in types
  }

  function ExpiredFilter(now: int): Task -> bool {
    (t: Task) => t.status.Processing? && t.lease.Some? && t.lease.value < now
  }

  /** The claim query; without explicit types it takes both. */
  function ClaimQuery(rows: seq<Task>, locked: set<nat>, types: Option<set<TaskType>>, limit: int): (b: seq<nat>)
    ensures limit <= 0 ==> b == []
  {
    SelectForUpdate(rows, locked, ClaimFilter(if types.None? then ALL_TYPES else types.value), limit)
  }

  /** The recovery query: PROCESSING rows whose lease ended before `now`. */
  function RecoveryQuery(rows: seq<Task>, locked: set<nat>, now: int, limit: int): (b: seq<nat>)
    ensures limit <= 0 ==> b == []
  {
    SelectForUpdate(rows, locked, ExpiredFilter(now), limit)
  }

  /** User requests go before refreshes; within a type the older task goes first, and ids break the tie. */
  lemma OrderOfTasks(t: Task, u: Task)
    ensures Before(t, u) <==>
              || (t.kind.UserRequest? && u.kind.Refresh?)
              || (t.kind == u.kind && (t.createdAt < u.createdAt || (t.createdAt == u.createdAt && t.id < u.id)))
  {
  }

  /**
   What claiming promises of its batch, in terms of the rows: they are PENDING, of a wanted type and
   unlocked, in order; and a row like that which is left out comes after the whole batch, which is full.
   */
  ghost predicate ClaimsFirst(rows: seq<Task>, locked: set<nat>, wanted: set<TaskType>, limit: int, b: seq<nat>) {
    && |b| <= Max(0, limit)
    && (forall m :: 0 <= m < |b| ==>
          b[m] < |rows| && b[m] !in locked && rows[b[m]].status.Pending? && rows[b[m]].kind in wanted)
    && (forall m, n :: 0 <= m < n < |b| ==> Before(rows[b[m]], rows[b[n]]))
    && (forall i: nat :: i < |rows| && i !in locked && rows[i].status.Pending? && rows[i].kind in wanted && i !in b ==>
          |b| == Max(0, limit) && forall m :: 0 <= m < |b| ==> Before(rows[b[m]], rows[i]))
  }

  /** The same for recovery: PROCESSING rows whose lease is over. */
  ghost predicate RecoversFirst(rows: seq<Task>, locked: set<nat>, now: int, limit: int, b: seq<nat>) {
    && |b| <= Max(0, limit)
    && (forall m :: 0 <= m < |b| ==>
          && b[m] < |rows| && b[m] !in locked && rows[b[m]].status.Processing?
          && rows[b[m]].lease.Some? && rows[b[m]].lease.value < now)
    && (forall m, n :: 0 <= m < n < |b| ==> Before(rows[b[m]], rows[b[n]]))
    && (forall i: nat ::
          && i < |rows| && i !in locked && i !in b
          && rows[i].status.Processing? && rows[i].lease.Some? && rows[i].lease.value < now ==>
            |b| == Max(0, limit) && forall m :: 0 <= m < |b| ==> Before(rows[b[m]], rows[i]))
  }

  lemma ClaimTakesFirst(rows: seq<Task>, locked: set<nat>, types: Option<set<TaskType>>, limit: int)
    requires UniqueIds(rows)
    ensures ClaimsFirst(rows, locked, if types.None? then {UserRequest, Refresh} else types.value, limit,
                        ClaimQuery(rows, locked, types, limit))
  {
    var wanted := if types.None? then {UserRequest, Refresh} else types.value;
    var b := ClaimQuery(rows, locked, types, limit);
    if limit > 0 {
      SelectIsFirst(rows, locked, ClaimFilter(wanted), limit);
      forall i: nat | i < |rows| && i !in locked && rows[i].status.Pending? && rows[i].kind in wanted && i !in b
        ensures |b| == limit && forall m :: 0 <= m < |b| ==> Before(rows[b[m]], rows[i])
      {
        assert Candidate(rows, locked, ClaimFilter(wanted), i);
      }
    }
  }

  lemma RecoveryTakesFirst(rows: seq<Task>, locked: set<nat>, now: int, limit: int)
    requires UniqueIds(rows)
    ensures RecoversFirst(rows, locked, now, limit, RecoveryQuery(rows, locked, now, limit))
  {
    var b := RecoveryQuery(rows, locked, now, limit);
    if limit > 0 {
      SelectIsFirst(rows, locked, ExpiredFilter(now), limit);
      forall i: nat |
        && i < |rows| && i !in locked && i !in b
        && rows[i].status.Processing? && rows[i].lease.Some? && rows[i].lease.value < now
        ensures |b| == limit && forall m :: 0 <= m < |b| ==> Before(rows[b[m]], rows[i])
      {
        assert Candidate(rows, locked, ExpiredFilter(now), i);
      }
    }
  }

  function Elems(s: seq<nat>): set<nat> {
    set x | x in s
  }

  function Claimed(t: Task, lease: int): Task {
    t.(status := Processing, lease := Some(lease), attempts := t.attempts + 1)
  }

  function Recovered(t: Task, max: nat): Task {
    if t.attempts >= max then t.(status := Failed, lease := None)
    else t.(status := Pending, lease := None)
  }

  function ClaimRows(rows: seq<Task>, ids: set<nat>, lease: int): (r: seq<Task>)
    ensures |r| == |rows|
    ensures forall i :: 0 <= i < |rows| ==> r[i] == if i in ids then Claimed(rows[i], lease) else rows[i]
  {
    seq(|rows|, i requires 0 <= i < |rows| => if i in ids then Claimed(rows[i], lease) else rows[i])
  }

  function RecoverRows(rows: seq<Task>, ids: set<nat>, max: nat): (r: seq<Task>)
    ensures |r| == |rows|
    ensures forall i :: 0 <= i < |rows| ==> r[i] == if i in ids then Recovered(rows[i], max) else rows[i]
  {
    seq(|rows|, i requires 0 <= i < |rows| => if i in ids then Recovered(rows[i], max) else rows[i])
  }

  /** The rows of the batch are PROCESSING under the lease with one attempt more; nothing else has changed. */
  ghost predicate ClaimedOnly(before: seq<Task>, after: seq<Task>, b: seq<nat>, lease: int) {
    && |after| == |before|
    && forall i :: 0 <= i < |before| ==>
         after[i] == if i !in b then before[i]
                     else before[i].(status := Processing, lease := Some(lease), attempts := before[i].attempts + 1)
  }

  /** The rows of the batch have lost their lease, FAILED at the limit and else PENDING; nothing else has changed. */
  ghost predicate RecoveredOnly(before: seq<Task>, after: seq<Task>, b: seq<nat>, max: nat) {
    && |after| == |before|
    && forall i :: 0 <= i < |before| ==>
         after[i] == if i !in b then before[i]
                     else before[i].(status := if before[i].attempts >= max then Failed else Pending, lease := None)
  }

  lemma ClaimRowsSpelled(rows: seq<Task>, b: seq<nat>, lease: int)
    ensures ClaimedOnly(rows, ClaimRows(rows, Elems(b), lease), b, lease)
  {
  }

  lemma RecoverRowsSpelled(rows: seq<Task>, b: seq<nat>, max: nat)
    ensures RecoveredOnly(rows, RecoverRows(rows, Elems(b), max), b, max)
  {
  }

  lemma ClaimOneMore(rows: seq<Task>, ids: set<nat>, lease: int, i: nat)
    requires i < |rows| && i !in ids
    ensures ClaimRows(rows, ids + {i}, lease) == ClaimRows(rows, ids, lease)[i := Claimed(rows[i], lease)]
  {
  }

  lemma RecoverOneMore(rows: seq<Task>, ids: set<nat>, max: nat, i: nat)
    requires i < |rows| && i !in ids
    ensures RecoverRows(rows, ids + {i}, max) == RecoverRows(rows, ids, max)[i := Recovered(rows[i], max)]
  {
  }

  lemma ElemsOneMore(b: seq<nat>, n: nat)
    requires n < |b| && Distinct(b)
    ensures b[n] in b && b[n] !in Elems(b[..n])
    ensures Elems(b[..n + 1]) == Elems(b[..n]) + {b[n]}
  {
  }

  lemma NoElems(rows: seq<Task>, lease: int, max: nat)
    ensures ClaimRows(rows, Elems([]), lease) == rows && RecoverRows(rows, Elems([]), max) == rows
  {
  }

  /** With the default types, a claim takes a REFRESH task only after every unlocked pending USER_REQUEST. */
  lemma ClaimKeepsPriority(rows: seq<Task>, locked: set<nat>, limit: int, refresh: nat, user: nat)
    requires UniqueIds(rows)
    requires refresh in ClaimQuery(rows, locked, None, limit)
    requires user < |rows| && user !in locked
    requires rows[user].status.Pending? && rows[user].kind.UserRequest?
    requires refresh < |rows| && rows[refresh].kind.Refresh?
    ensures user in ClaimQuery(rows, locked, None, limit)
  {
    assert limit > 0;
    SelectIsFirst(rows, locked, ClaimFilter(ALL_TYPES), limit);
    assert Candidate(rows, locked, ClaimFilter(ALL_TYPES), user);
  }

  // ---- Refresh creation ----

  predicate IsLive(t: Task, domain: nat) {
    t.domain == domain && t.kind.Refresh? && !Terminal(t.status)
  }

  predicate HasLive(rows: seq<Task>, domain: nat) {
    exists i :: 0 <= i < |rows| && IsLive(rows[i], domain)
  }

  /** The case in which `scalar_one_or_none` raises. */
  predicate ManyLive(rows: seq<Task>, domain: nat) {
    exists i, j :: 0 <= i < j < |rows| && IsLive(rows[i], domain) && IsLive(rows[j], domain)
  }

  /** A refresh counts as live while it is neither COMPLETED nor FAILED. */
  lemma LiveIsUnfinished(t: Task, domain: nat)
    ensures IsLive(t, domain) <==> t.kind == Refresh && t.domain == domain && t.status in {Pending, Processing}
  {
  }

  /** Some refresh of the domain is PENDING or PROCESSING. */
  ghost predicate InProgress(rows: seq<Task>, domain: nat) {
    exists i :: 0 <= i < |rows| && rows[i].domain == domain && rows[i].kind == Refresh
                && rows[i].status in {Pending, Processing}
  }

  lemma LiveIsInProgress(rows: seq<Task>, domain: nat)
    ensures HasLive(rows, domain) <==> InProgress(rows, domain)
  {
    assert forall i :: 0 <= i < |rows| && IsLive(rows[i], domain) ==> rows[i].status in {Pending, Processing};
    if InProgress(rows, domain) {
      var i :| 0 <= i < |rows| && rows[i].domain == domain && rows[i].kind == Refresh
               && rows[i].status in {Pending, Processing};
      assert IsLive(rows[i], domain);
    }
  }

  function NewRefresh(id: nat, domain: nat, now: int): Task {
    Task(id, None, domain, Refresh, Pending, 0, None, now)
  }

  /** The rows after one refresh-creation session; None when the session raised and was rolled back. */
  function CreateRefresh(rows: seq<Task>, domains: seq<nat>, ids: seq<nat>, now: int): Option<seq<Task>>
    requires |ids| == |domains|
    decreases |domains|
  {
    if domains == [] then Some(rows)
    else if ManyLive(rows, domains[0]) then None
    else if HasLive(rows, domains[0]) then CreateRefresh(rows, domains[1..], ids[1..], now)
    else CreateRefresh(rows + [NewRefresh(ids[0], domains[0], now)], domains[1..], ids[1..], now)
  }

  /** Creation only appends pending refresh tasks, at most one per candidate, and never makes a second live one. */
  lemma {:induction false} CreateRefreshAppends(rows: seq<Task>, domains: seq<nat>, ids: seq<nat>, now: int)
    requires |ids| == |domains|
    requires CreateRefresh(rows, domains, ids, now).Some?
    ensures var r := CreateRefresh(rows, domains, ids, now).value;
            && rows <= r && |r| <= |rows| + |domains|
            && (forall i :: |rows| <= i < |r| ==> exists id, d :: d in domains && r[i] == NewRefresh(id, d, now))
            && (forall d :: !ManyLive(rows, d) ==> !ManyLive(r, d))
            && (forall d :: d in domains ==> HasLive(r, d))
    decreases |domains|
  {
    if domains != [] {
      var d0 := domains[0];
      var rows' := if HasLive(rows, d0) then rows else rows + [NewRefresh(ids[0], d0, now)];
      CreateRefreshAppends(rows', domains[1..], ids[1..], now);
      var r := CreateRefresh(rows, domains, ids, now).value;
      forall d | !ManyLive(rows, d) ensures !ManyLive(rows', d) {
      }
      forall i | |rows| <= i < |r| ensures exists id, d :: d in domains && r[i] == NewRefresh(id, d, now) {
        if i < |rows'| {
          assert r[i] == rows'[i] == NewRefresh(ids[0], d0, now);
        } else {
          var id, d :| d in domains[1..] && r[i] == NewRefresh(id, d, now);
          assert d in domains;
        }
      }
      assert HasLive(rows', d0) by {
        if !HasLive(rows, d0) { assert IsLive(rows'[|rows|], d0); }
      }
      assert HasLive(r, d0) by {
        var i :| 0 <= i < |rows'| && IsLive(rows'[i], d0);
        assert r[i] == rows'[i];
      }
      forall d | d in domains ensures HasLive(r, d) {
        assert d == d0 || d in domains[1..];
      }
    }
  }

  /** Tasks are created for those candidates only that had no refresh in progress before. */
  lemma {:induction false} CreatedForIdleDomains(rows: seq<Task>, domains: seq<nat>, ids: seq<nat>, now: int, i: nat)
    requires |ids| == |domains|
    requires CreateRefresh(rows, domains, ids, now).Some?
    requires |rows| <= i < |CreateRefresh(rows, domains, ids, now).value|
    ensures var t := CreateRefresh(rows, domains, ids, now).value[i];
            && t.domain in domains && t.kind == Refresh && t.status == Pending && t.job == None
            && t.attempts == 0 && t.lease == None && t.createdAt == now
            && !InProgress(rows, t.domain)
    decreases |domains|
  {
    var d0 := domains[0];
    LiveIsInProgress(rows, d0);
    var rows' := if HasLive(rows, d0) then rows else rows + [NewRefresh(ids[0], d0, now)];
    CreateRefreshAppends(rows', domains[1..], ids[1..], now);
    var r := CreateRefresh(rows, domains, ids, now).value;
    if i < |rows'| {
      assert r[i] == NewRefresh(ids[0], d0, now);
    } else {
      CreatedForIdleDomains(rows', domains[1..], ids[1..], now, i);
      assert forall k :: 0 <= k < |rows| ==> rows'[k] == rows[k];
    }
  }

  /** The duplicate check raises exactly when some candidate has two live refresh tasks already. */
  lemma {:induction false} RaisesIffDuplicates(rows: seq<Task>, domains: seq<nat>, ids: seq<nat>, now: int)
    requires |ids| == |domains|
    ensures CreateRefresh(rows, domains, ids, now).None? <==> exists d :: d in domains && ManyLive(rows, d)
    decreases |domains|
  {
    if domains != [] && !ManyLive(rows, domains[0]) {
      var d0 := domains[0];
      var rows' := if HasLive(rows, d0) then rows else rows + [NewRefresh(ids[0], d0, now)];
      RaisesIffDuplicates(rows', domains[1..], ids[1..], now);
      forall d ensures ManyLive(rows', d) <==> ManyLive(rows, d) {
        OneMoreLive(rows, rows', d0, d);
      }
      assert forall d :: d in domains <==> d == d0 || d in domains[1..];
    }
  }

  lemma OneMoreLive(rows: seq<Task>, rows': seq<Task>, d0: nat, d: nat)
    requires rows' == rows || (!HasLive(rows, d0) && exists id, now :: rows' == rows + [NewRefresh(id, d0, now)])
    ensures ManyLive(rows', d) <==> ManyLive(rows, d)
  {
    if ManyLive(rows, d) {
      var i, j :| 0 <= i < j < |rows| && IsLive(rows[i], d) && IsLive(rows[j], d);
      assert IsLive(rows'[i], d) && IsLive(rows'[j], d);
    }
  }

  // ---- Write helpers of the domain processor ----

  datatype Outcome = Complete | Fail | Reschedule | NoWrite

  function JobStatuses(rows: seq<Task>, job: nat): seq<Status> {
    if rows == [] then []
    else (if rows[0].job == Some(job) then [rows[0].status] else []) + JobStatuses(rows[1..], job)
  }

  ghost predicate JobDone(rows: seq<Task>, job: nat) {
    forall i :: 0 <= i < |rows| && rows[i].job == Some(job) ==> Terminal(rows[i].status)
  }

  lemma {:induction false} OpenCountsJob(rows: seq<Task>, job: nat)
    ensures Open(JobStatuses(rows, job)) == 0 <==> JobDone(rows, job)
  {
    if rows != [] {
      OpenCountsJob(rows[1..], job);
      var rest := JobStatuses(rows[1..], job);
      if rows[0].job == Some(job) {
        assert ([rows[0].status] + rest)[1..] == rest;
      } else {
        assert [] + rest == rest;
      }
      assert forall i :: 0 < i < |rows| ==> rows[i] == rows[1..][i - 1];
      assert forall i :: 0 <= i < |rows| - 1 ==> rows[1..][i] == rows[i + 1];
    }
  }

  /** `_check_and_update_job_status`: no job, or an unknown one, leaves the tables alone. */
  function Settle(db: Tables, job: Option<nat>): Tables {
    if job.None? || job.value !in db.jobs then db
    else db.(jobs := db.jobs[job.value := NextJobStatus(db.jobs[job.value], Open(JobStatuses(db.rows, job.value)))])
  }

  /** The session in which a worker ends its run on row `i`; a row that does not exist is left alone. */
  function WriteOutcome(db: Tables, i: nat, o: Outcome, max: nat): Tables {
    if i >= |db.rows| || o.NoWrite? then db
    else
      var t := db.rows[i];
      match o
      case Complete => Settle(db.(rows := db.rows[i := t.(status := Completed)]), t.job)
      case Fail => Settle(db.(rows := db.rows[i := t.(status := Failed)]), t.job)
      case Reschedule =>
        if t.attempts >= max then
          Settle(db.(rows := db.rows[i := t.(status := Failed, lease := None)]), t.job)
        else
          db.(rows := db.rows[i := t.(status := Pending, lease := None)])
  }

  /**
   What a write of a task of `job` does to the job statuses, told by the tasks themselves: the job is
   COMPLETED if its tasks have all ended, leaves PENDING if they have not, and no other job changes.
   */
  ghost predicate JobsFollow(before: map<nat, Status>, after: map<nat, Status>, rows: seq<Task>, job: Option<nat>) {
    && after.Keys == before.Keys
    && forall j :: j in before ==>
         after[j] == if job != Some(j) then before[j]
                     else if JobDone(rows, j) then Completed
                     else if before[j].Pending? then Processing
                     else before[j]
  }

  lemma SettleFollows(db: Tables, job: Option<nat>)
    ensures Settle(db, job).rows == db.rows
    ensures JobsFollow(db.jobs, Settle(db, job).jobs, db.rows, job)
  {
    if job.Some? {
      OpenCountsJob(db.rows, job.value);
    }
  }

  /** What a worker's last write leaves of its row. */
  predicate Ended(before: Task, after: Task, o: Outcome, max: nat) {
    match o
    case Complete => after == before.(status := Completed)
    case Fail => after == before.(status := Failed)
    case Reschedule =>
      after == before.(lease := None, status := if before.attempts >= max then Failed else Pending)
    case NoWrite => after == before
  }

  /**
   What the session in which a worker ends its run leaves of the tables: its own row as the outcome says,
   every other row untouched, and the job statuses following the tasks unless the task goes on.
   */
  ghost predicate Finished(before: Tables, after: Tables, i: nat, o: Outcome, max: nat) {
    if i >= |before.rows| || o.NoWrite? then after == before
    else
      && |after.rows| == |before.rows|
      && (forall k :: 0 <= k < |before.rows| && k != i ==> after.rows[k] == before.rows[k])
      && Ended(before.rows[i], after.rows[i], o, max)
      && if after.rows[i].status.Pending? then after.jobs == before.jobs
         else JobsFollow(before.jobs, after.jobs, after.rows, before.rows[i].job)
  }

  lemma OutcomeFinishes(db: Tables, i: nat, o: Outcome, max: nat)
    ensures Finished(db, WriteOutcome(db, i, o, max), i, o, max)
  {
    if i < |db.rows| {
      var t := db.rows[i];
      SettleFollows(db.(rows := db.rows[i := t.(status := Completed)]), t.job);
      SettleFollows(db.(rows := db.rows[i := t.(status := Failed)]), t.job);
      SettleFollows(db.(rows := db.rows[i := t.(status := Failed, lease := None)]), t.job);
    }
  }

  /** Nothing about the session is left open: what it leaves is determined by what it promises. */
  lemma FinishedDetermines(before: Tables, after: Tables, i: nat, o: Outcome, max: nat)
    requires Finished(before, after, i, o, max)
    ensures after == WriteOutcome(before, i, o, max)
  {
    OutcomeFinishes(before, i, o, max);
    var other := WriteOutcome(before, i, o, max);
    assert after.rows == other.rows;
    assert after.jobs == other.jobs;
  }

  /** The stored tables, updated row by row as the repository does. */
  class TaskStore {
    var rows: seq<Task>
    var jobs: map<nat, Status>

    ghost function View(): Tables
      reads this
    {
      Tables(rows, jobs)
    }

    constructor ()
      ensures View() == Tables([], map[])
    {
      rows := [];
      jobs := map[];
    }

    method ClaimTasks(limit: int, lease: int, taskTypes: Option<set<TaskType>>, locked: set<nat>)
      returns (batch: seq<nat>)
      modifies this`rows
      ensures batch == ClaimQuery(old(rows), locked, taskTypes, limit)
      ensures rows == ClaimRows(old(rows), Elems(batch), lease)
      ensures Distinct(batch) && |batch| <= Max(0, limit)
      ensures UniqueIds(old(rows)) ==>
                ClaimsFirst(old(rows), locked, if taskTypes.None? then {UserRequest, Refresh} else taskTypes.value,
                            limit, batch)
      ensures forall i :: i in batch ==>
                && i < |old(rows)| && i !in locked && old(rows)[i].status.Pending?
                && (taskTypes.Some? ==> old(rows)[i].kind in taskTypes.value)
      ensures ClaimedOnly(old(rows), rows, batch, lease)
    {
      if UniqueIds(rows) {
        ClaimTakesFirst(rows, locked, taskTypes, limit);
      }
      batch := ClaimQuery(rows, locked, taskTypes, limit);
      SelectIsDistinct(rows, locked, ClaimFilter(if taskTypes.None? then ALL_TYPES else taskTypes.value), limit);
      NoElems(rows, lease, 0);
      for n := 0 to |batch|
        invariant rows == ClaimRows(old(rows), Elems(batch[..n]), lease)
      {
        ElemsOneMore(batch, n);
        ClaimOneMore(old(rows), Elems(batch[..n]), lease, batch[n]);
        rows := rows[batch[n] := Claimed(rows[batch[n]], lease)];
      }
      assert batch[..|batch|] == batch;
      ClaimRowsSpelled(old(rows), batch, lease);
    }

    /** The loop over the selected rows: what has no attempts left fails, the rest may be claimed again. */
    method UpdateRecovered(tasks: seq<nat>, maxAttempts: nat)
      requires Distinct(tasks) && forall i :: i in tasks ==> i < |rows|
      modifies this`rows
      ensures rows == RecoverRows(old(rows), Elems(tasks), maxAttempts)
      ensures RecoveredOnly(old(rows), rows, tasks, maxAttempts)
    {
      NoElems(rows, 0, maxAttempts);
      for n := 0 to |tasks|
        invariant rows == RecoverRows(old(rows), Elems(tasks[..n]), maxAttempts)
      {
        var i := tasks[n];
        ElemsOneMore(tasks, n);
        RecoverOneMore(old(rows), Elems(tasks[..n]), maxAttempts, i);
        if rows[i].attempts >= maxAttempts {
          rows := rows[i := rows[i].(status := Failed, lease := None)];
        } else {
          rows := rows[i := rows[i].(status := Pending, lease := None)];
        }
      }
      assert tasks[..|tasks|] == tasks;
      RecoverRowsSpelled(old(rows), tasks, maxAttempts);
    }

    method RecoverExpiredTasks(limit: int, now: int, maxAttempts: nat, locked: set<nat>)
      returns (recovered: seq<nat>)
      modifies this`rows
      ensures recovered == RecoveryQuery(old(rows), locked, now, limit)
      ensures rows == RecoverRows(old(rows), Elems(recovered), maxAttempts)
      ensures Distinct(recovered) && |recovered| <= Max(0, limit)
      ensures UniqueIds(old(rows)) ==> RecoversFirst(old(rows), locked, now, limit, recovered)
      ensures forall i :: i in recovered ==>
                && i < |old(rows)| && i !in locked && old(rows)[i].status.Processing?
                && old(rows)[i].lease.Some? && old(rows)[i].lease.value < now
      ensures RecoveredOnly(old(rows), rows, recovered, maxAttempts)
    {
      if UniqueIds(rows) {
        RecoveryTakesFirst(rows, locked, now, limit);
      }
      recovered := RecoveryQuery(rows, locked, now, limit);
      SelectIsDistinct(rows, locked, ExpiredFilter(now), limit);
      UpdateRecovered(recovered, maxAttempts);
    }

    /** `ok` is false when the duplicate check raised; the session is then rolled back. */
    method CreateRefreshTasks(domainIds: seq<nat>, freshIds: seq<nat>, now: int)
      returns (ok: bool, created: nat)
      requires |freshIds| == |domainIds|
      modifies this`rows
      ensures ok <==> CreateRefresh(old(rows), domainIds, freshIds, now).Some?
      ensures ok ==> rows == CreateRefresh(old(rows), domainIds, freshIds, now).value
                     && created == |rows| - |old(rows)| <= |domainIds|
      ensures !ok ==> rows == old(rows) && created == 0
    {
      ghost var before := rows;
      var work := rows;
      created := 0;
      for k := 0 to |domainIds|
        invariant rows == before
        invariant CreateRefresh(before, domainIds, freshIds, now)
                  == CreateRefresh(work, domainIds[k..], freshIds[k..], now)
        invariant |work| == |before| + created && created <= k
      {
        var d := domainIds[k];
        assert domainIds[k..][0] == d && domainIds[k..][1..] == domainIds[k + 1..];
        assert freshIds[k..][0] == freshIds[k] && freshIds[k..][1..] == freshIds[k + 1..];
        if ManyLive(work, d) {
          return false, 0;
        }
        if !HasLive(work, d) {
          work := work + [NewRefresh(freshIds[k], d, now)];
          created := created + 1;
        }
      }
      rows := work;
      ok := true;
    }
  }
}
