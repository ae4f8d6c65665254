/** The refresh scheduler's tick: capacity check, candidate query, creation without duplicates. */
module Scheduler {
  import opened Records
  import opened TaskTable
  import opened BoundedQueue
  import opened Sorting
  import Pipeline

  datatype Due = Due(nextRefreshAt: int, domain: nat)

  function DueNow(details: seq<Due>, active: set<nat>, now: int): (r: seq<Due>)
    ensures forall d :: d in r <==> d in details && d.domain in active && d.nextRefreshAt <= now
  {
    if details == [] then []
    else
      var rest := DueNow(details[1..], active, now);
      if details[0].domain in active && details[0].nextRefreshAt <= now then [details[0]] + rest else rest
  }

  /** An answer to the ordered query: the due rows, the longest due first; equally due ones come in any order. */
  ghost predicate InOrder(order: seq<Due>, details: seq<Due>, active: set<nat>, now: int) {
    && multiset(order) == multiset(DueNow(details, active, now))
    && forall m, n :: 0 <= m < n < |order| ==> order[m].nextRefreshAt <= order[n].nextRefreshAt
  }

  /** `get_domains_needing_refresh`: the first `limit` domains of the answer. */
  function NeedingRefresh(order: seq<Due>, limit: nat): (r: seq<nat>)
    ensures |r| == Min(limit, |order|)
  {
    var due := Take(order, limit);
    seq(|due|, k requires 0 <= k < |due| => due[k].domain)
  }

  predicate DueLeq(a: Due, b: Due) {
    if a.nextRefreshAt != b.nextRefreshAt then a.nextRefreshAt < b.nextRefreshAt else a.domain <= b.domain
  }

  lemma AnAnswerExists(details: seq<Due>, active: set<nat>, now: int)
    ensures InOrder(Sort(DueNow(details, active, now), DueLeq), details, active, now)
  {
    var s := Sort(DueNow(details, active, now), DueLeq);
    SortSorts(DueNow(details, active, now), DueLeq);
    forall m, n | 0 <= m < n < |s| ensures s[m].nextRefreshAt <= s[n].nextRefreshAt {
      assert DueLeq(s[m], s[n]);
    }
  }

  lemma OrderedAreDue(order: seq<Due>, details: seq<Due>, active: set<nat>, now: int, d: Due)
    requires InOrder(order, details, active, now)
    ensures d in order <==> d in details && d.domain in active && d.nextRefreshAt <= now
  {
    assert d in order <==> d in multiset(order);
    assert d in DueNow(details, active, now) <==> d in multiset(DueNow(details, active, now));
  }

  /** Every candidate is an active domain that is due, whatever the limit and the answer. */
  lemma CandidatesAreDue(order: seq<Due>, details: seq<Due>, active: set<nat>, now: int, limit: nat, k: nat)
    requires InOrder(order, details, active, now) && k < |NeedingRefresh(order, limit)|
    ensures NeedingRefresh(order, limit)[k] == order[k].domain
    ensures order[k] in details && order[k].domain in active && order[k].nextRefreshAt <= now
  {
    OrderedAreDue(order, details, active, now, order[k]);
  }

  /** No due domain is left out while there is room, and none that was due before a chosen one. */
  lemma CandidatesAreLongestDue(
    order: seq<Due>, details: seq<Due>, active: set<nat>, now: int, limit: nat, k: nat, d: Due)
    requires InOrder(order, details, active, now) && k < |NeedingRefresh(order, limit)|
    requires d in details && d.domain in active && d.nextRefreshAt <= now
    requires d.domain !in NeedingRefresh(order, limit)
    ensures |NeedingRefresh(order, limit)| == limit && order[k].nextRefreshAt <= d.nextRefreshAt
  {
    var r := NeedingRefresh(order, limit);
    OrderedAreDue(order, details, active, now, d);
    assert forall m :: 0 <= m < |r| ==> r[m] == order[m].domain && r[m] in r;
    var n :| 0 <= n < |order| && order[n] == d;
    assert |r| <= n;
  }

  class RefreshScheduler {
    const store: TaskStore
    const queue: Queue?<nat>
    const workerConcurrency: nat

    constructor (store: TaskStore, queue: Queue?<nat>, workerConcurrency: nat)
      ensures this.store == store && this.queue == queue && this.workerConcurrency == workerConcurrency
    {
      this.store, this.queue, this.workerConcurrency := store, queue, workerConcurrency;
    }

    /** With a worker pool, no more than its queue has room for. */
    function MaxTasks(): nat
      reads queue
    {
      if queue == null then workerConcurrency else Max(0, Min(workerConcurrency, queue.AvailableCapacity()))
    }

    /**
     Creates at most min(worker_concurrency, free capacity) refresh tasks, min being taken over the pool's
     queue if there is a pool, and none for a domain that has a live one; afterwards every candidate has
     one. `order` is the database's answer; `ok` is false if the duplicate check raised.
     */
    method Tick(order: seq<Due>, details: seq<Due>, active: set<nat>, freshIds: seq<nat>, now: int)
      returns (ok: bool, created: nat)
      requires queue != null ==> queue.Valid()
      requires InOrder(order, details, active, now)
      requires |freshIds| >= workerConcurrency
      modifies store`rows
      ensures var candidates := NeedingRefresh(order, MaxTasks());
              && created <= MaxTasks()
              && (ok <==> CreateRefresh(old(store.rows), candidates, freshIds[..|candidates|], now).Some?)
              && (ok ==> forall d :: d in candidates ==> HasLive(store.rows, d))
      ensures created <= workerConcurrency && (queue != null ==> created <= Max(0, queue.capacity - |queue.items|))
      ensures ok ==>
                forall k :: 0 <= k < |order| && k < workerConcurrency
                            && (queue != null ==> k < queue.capacity - |queue.items|) ==>
                  InProgress(store.rows, order[k].domain)
      ensures forall i :: |old(store.rows)| <= i < |store.rows| ==>
                && store.rows[i].domain in NeedingRefresh(order, MaxTasks())
                && store.rows[i].kind == Refresh && store.rows[i].status == Pending
                && !InProgress(old(store.rows), store.rows[i].domain)
      ensures ok <==> forall d :: d in NeedingRefresh(order, MaxTasks()) ==> !ManyLive(old(store.rows), d)
      ensures ok ==> old(store.rows) <= store.rows && |store.rows| == |old(store.rows)| + created
      ensures !ok ==> store.rows == old(store.rows) && created == 0
      ensures forall d :: !ManyLive(old(store.rows), d) ==> !ManyLive(store.rows, d)
      ensures (forall d :: !ManyLive(old(store.rows), d)) ==> ok
    {
      if queue != null {
        queue.CountersBalance();
      }
      if queue != null && queue.AvailableCapacity() <= 0 {
        return true, 0;
      }
      var maxTasks: int := workerConcurrency;
      if queue != null {
        maxTasks := Min(maxTasks, queue.AvailableCapacity());
      }
      if maxTasks <= 0 {
        return true, 0;
      }
      var candidates := NeedingRefresh(order, maxTasks);
      ghost var before := store.rows;
      NoDuplicatesNoError(before, candidates, freshIds[..|candidates|], now);
      ok, created := store.CreateRefreshTasks(candidates, freshIds[..|candidates|], now);
      assert forall k :: 0 <= k < |candidates| ==> candidates[k] == order[k].domain && candidates[k] in candidates;
      RaisesIffDuplicates(before, candidates, freshIds[..|candidates|], now);
      if ok {
        CreatedAre(before, candidates, freshIds[..|candidates|], now);
      }
    }
  }

  lemma CreatedAre(rows: seq<Task>, candidates: seq<nat>, ids: seq<nat>, now: int)
    requires |ids| == |candidates| && CreateRefresh(rows, candidates, ids, now).Some?
    ensures var r := CreateRefresh(rows, candidates, ids, now).value;
            && rows <= r && |r| <= |rows| + |candidates|
            && (forall d :: !ManyLive(rows, d) ==> !ManyLive(r, d))
            && (forall d :: d in candidates ==> HasLive(r, d) && InProgress(r, d))
            && forall i :: |rows| <= i < |r| ==>
                 && r[i].domain in candidates && r[i].kind == Refresh && r[i].status == Pending
                 && !InProgress(rows, r[i].domain)
  {
    var r := CreateRefresh(rows, candidates, ids, now).value;
    CreateRefreshAppends(rows, candidates, ids, now);
    forall d | d in candidates ensures InProgress(r, d) {
      LiveIsInProgress(r, d);
    }
    forall i | |rows| <= i < |r|
      ensures r[i].domain in candidates && r[i].kind == Refresh && r[i].status == Pending
              && !InProgress(rows, r[i].domain)
    {
      CreatedForIdleDomains(rows, candidates, ids, now, i);
    }
  }

  /** The duplicate check raises only if some domain already had two live refresh tasks. */
  lemma {:induction false} NoDuplicatesNoError(rows: seq<Task>, domains: seq<nat>, ids: seq<nat>, now: int)
    requires |ids| == |domains|
    ensures (forall d :: !ManyLive(rows, d)) ==> CreateRefresh(rows, domains, ids, now).Some?
    decreases |domains|
  {
    if domains != [] && forall d :: !ManyLive(rows, d) {
      var rows' := if HasLive(rows, domains[0]) then rows else rows + [NewRefresh(ids[0], domains[0], now)];
      forall d: nat ensures !ManyLive(rows', d) {
        assert !ManyLive(rows, d);
      }
      NoDuplicatesNoError(rows', domains[1..], ids[1..], now);
    }
  }

  /** A tick that does not raise is one refresh step of the pipeline, with the same rows. */
  lemma TickIsAStep(c: Pipeline.Limits, s: Pipeline.State, candidates: seq<nat>, freshIds: seq<nat>)
    requires |freshIds| == |candidates| && forall d :: !ManyLive(s.db.rows, d)
    ensures var e := Pipeline.RefreshTick(candidates, freshIds);
            && Pipeline.Enabled(s, e)
            && var s' := Pipeline.Apply(c, s, e);
               && Some(s'.db.rows) == CreateRefresh(s.db.rows, candidates, freshIds, s.now)
               && s'.db.jobs == s.db.jobs && s'.held == s.held && s'.queued == s.queued && s'.running == s.running
               && s'.now == s.now
  {
    NoDuplicatesNoError(s.db.rows, candidates, freshIds, s.now);
  }
}
