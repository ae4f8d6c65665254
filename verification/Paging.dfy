/**
 Keyset paging over the tasks of a job: the repository's cursor query, the page that the route cuts
 out of it, and a client that follows `nextCursor`. The repository fetches one row more than it is
 asked for and the route asks for one more than the page, so two extra rows are read and dropped.
 */
module Paging {
  import opened Records
  import opened Sorting
  import opened TaskTable
  import Pipeline

  /** What a cursor carries, and the sort key of the listing. */
  datatype Key = Key(at: int, id: nat)

  datatype Cursor = FromStart | Malformed | After(key: Key)

  datatype PageSizes = PageSizes(standard: nat, max: nat)

  datatype Reply = NotFound | LimitNotPositive | BadCursor | Page(tasks: seq<Task>, next: Option<Key>)

  predicate ValidSizes(c: PageSizes) {
    1 <= c.standard <= c.max
  }

  function KeyOf(t: Task): Key {
    Key(t.createdAt, t.id)
  }

  predicate KeyLeq(a: Key, b: Key) {
    a.at < b.at || (a.at == b.at && a.id <= b.id)
  }

  predicate TaskLeq(a: Task, b: Task) {
    KeyLeq(KeyOf(a), KeyOf(b))
  }

  predicate Beyond(cursor: Cursor, k: Key) {
    cursor.After? ==> k.at > cursor.key.at || (k.at == cursor.key.at && k.id > cursor.key.id)
  }

  function Select(rows: seq<Task>, job: nat, cursor: Cursor): seq<Task> {
    if rows == [] then []
    else
      var rest := Select(rows[1..], job, cursor);
      if rows[0].job == Some(job) && Beyond(cursor, KeyOf(rows[0])) then [rows[0]] + rest else rest
  }

  /** `get_by_job_id_paginated`. */
  function GetByJobIdPaginated(rows: seq<Task>, job: nat, limit: nat, cursor: Cursor): seq<Task> {
    Take(Sort(Select(rows, job, cursor), TaskLeq), limit + 1)
  }

  /** The page size a request gets: the default when it names none, and never more than the maximum. */
  function PageLimit(c: PageSizes, limit: Option<int>): int {
    Min(if limit.Some? then limit.value else c.standard, c.max)
  }

  /** The page cut out of the rows that were fetched, and the cursor for the one after it. */
  function PageOf(fetched: seq<Task>, size: nat): Reply {
    var hasNext := |fetched| > size;
    var tasks := if hasNext then fetched[..size] else fetched;
    Page(tasks, if hasNext && tasks != [] then Some(KeyOf(tasks[|tasks| - 1])) else None)
  }

  /** `get_job`, as far as the listing goes. */
  function GetJob(c: PageSizes, db: Tables, job: nat, limit: Option<int>, cursor: Cursor): Reply
    requires ValidSizes(c)
  {
    var size := PageLimit(c, limit);
    if job !in db.jobs then NotFound
    else if size <= 0 then LimitNotPositive
    else if cursor.Malformed? then BadCursor
    else PageOf(GetByJobIdPaginated(db.rows, job, size + 1, cursor), size)
  }

  // ---- The listing in terms of keys ----

  function Keys(ts: seq<Task>): (ks: seq<Key>)
    ensures |ks| == |ts| && forall i :: 0 <= i < |ts| ==> ks[i] == KeyOf(ts[i])
  {
    seq(|ts|, i requires 0 <= i < |ts| => KeyOf(ts[i]))
  }

  /** The keys of a job's tasks, in the order in which the rows happen to be stored. */
  function JobKeys(rows: seq<Task>, job: nat): seq<Key> {
    Keys(Select(rows, job, FromStart))
  }

  /** The listing a client should see: every key of the job, in (created_at, id) order. */
  function Listing(rows: seq<Task>, job: nat): seq<Key> {
    Sort(JobKeys(rows, job), KeyLeq)
  }

  function KeysBeyond(ks: seq<Key>, cursor: Cursor): seq<Key> {
    if ks == [] then []
    else
      var rest := KeysBeyond(ks[1..], cursor);
      if Beyond(cursor, ks[0]) then [ks[0]] + rest else rest
  }

  lemma KeysCons(t: Task, ts: seq<Task>)
    ensures Keys([t] + ts) == [KeyOf(t)] + Keys(ts)
  {
  }

  lemma {:induction false} SelectFinds(rows: seq<Task>, job: nat, cursor: Cursor, t: Task)
    ensures t in Select(rows, job, cursor) <==> t in rows && t.job == Some(job) && Beyond(cursor, KeyOf(t))
  {
    if rows != [] {
      SelectFinds(rows[1..], job, cursor, t);
      assert rows == [rows[0]] + rows[1..];
    }
  }

  lemma KeyOrder()
    ensures TotalOrder(KeyLeq)
  {
  }

  lemma {:induction false} InsertCommutes(t: Task, s: seq<Task>)
    ensures Keys(Insert(t, s, TaskLeq)) == Insert(KeyOf(t), Keys(s), KeyLeq)
  {
    if s == [] || TaskLeq(t, s[0]) {
      KeysCons(t, s);
    } else {
      InsertCommutes(t, s[1..]);
      KeysCons(s[0], Insert(t, s[1..], TaskLeq));
      assert Keys(s)[0] == KeyOf(s[0]) && Keys(s)[1..] == Keys(s[1..]);
    }
  }

  lemma {:induction false} SortCommutes(s: seq<Task>)
    ensures Keys(Sort(s, TaskLeq)) == Sort(Keys(s), KeyLeq)
  {
    if s != [] {
      var ks := Keys(s);
      assert ks[0] == KeyOf(s[0]) && ks[1..] == Keys(s[1..]);
      SortCommutes(s[1..]);
      InsertCommutes(s[0], Sort(s[1..], TaskLeq));
    }
  }

  lemma JobKeysUnfold(rows: seq<Task>, job: nat)
    requires rows != []
    ensures JobKeys(rows, job)
            == if rows[0].job == Some(job) then [KeyOf(rows[0])] + JobKeys(rows[1..], job)
               else JobKeys(rows[1..], job)
  {
    KeysCons(rows[0], Select(rows[1..], job, FromStart));
  }

  lemma BeyondUnfold(k: Key, ks: seq<Key>, cursor: Cursor)
    ensures KeysBeyond([k] + ks, cursor)
            == if Beyond(cursor, k) then [k] + KeysBeyond(ks, cursor) else KeysBeyond(ks, cursor)
  {
    assert ([k] + ks)[1..] == ks;
  }

  lemma {:induction false} SelectCommutes(rows: seq<Task>, job: nat, cursor: Cursor)
    ensures Keys(Select(rows, job, cursor)) == KeysBeyond(JobKeys(rows, job), cursor)
  {
    if rows != [] {
      var rest := Select(rows[1..], job, cursor);
      SelectCommutes(rows[1..], job, cursor);
      JobKeysUnfold(rows, job);
      if rows[0].job == Some(job) {
        BeyondUnfold(KeyOf(rows[0]), JobKeys(rows[1..], job), cursor);
        KeysCons(rows[0], rest);
        assert Select(rows, job, cursor) == if Beyond(cursor, KeyOf(rows[0])) then [rows[0]] + rest else rest;
      } else {
        assert Select(rows, job, cursor) == rest;
        assert JobKeys(rows, job) == JobKeys(rows[1..], job);
      }
    }
  }

  lemma {:induction false} BeyondCounts(ks: seq<Key>, cursor: Cursor, k: Key)
    ensures multiset(KeysBeyond(ks, cursor))[k] == if Beyond(cursor, k) then multiset(ks)[k] else 0
    ensures k in KeysBeyond(ks, cursor) ==> Beyond(cursor, k)
  {
    if ks != [] {
      BeyondCounts(ks[1..], cursor, k);
      assert ks == [ks[0]] + ks[1..];
    }
  }

  lemma {:induction false} BeyondIsSorted(ks: seq<Key>, cursor: Cursor)
    requires SortedBy(ks, KeyLeq)
    ensures SortedBy(KeysBeyond(ks, cursor), KeyLeq)
  {
    if ks != [] {
      BeyondIsSorted(ks[1..], cursor);
      var rest := KeysBeyond(ks[1..], cursor);
      forall j | 0 <= j < |rest| ensures KeyLeq(ks[0], rest[j]) {
        BeyondCounts(ks[1..], cursor, rest[j]);
        assert rest[j] in multiset(rest);
        assert rest[j] in multiset(ks[1..]);
      }
    }
  }

  /** Filtering by the cursor and then sorting is the same as filtering the sorted listing. */
  lemma SortBeyond(ks: seq<Key>, cursor: Cursor)
    ensures Sort(KeysBeyond(ks, cursor), KeyLeq) == KeysBeyond(Sort(ks, KeyLeq), cursor)
  {
    var sorted := Sort(ks, KeyLeq);
    KeyOrder();
    SortSorts(ks, KeyLeq);
    SortSorts(KeysBeyond(ks, cursor), KeyLeq);
    BeyondIsSorted(sorted, cursor);
    forall k ensures multiset(KeysBeyond(ks, cursor))[k] == multiset(KeysBeyond(sorted, cursor))[k] {
      BeyondCounts(ks, cursor, k);
      BeyondCounts(sorted, cursor, k);
    }
    SortedUnique(Sort(KeysBeyond(ks, cursor), KeyLeq), KeysBeyond(sorted, cursor), KeyLeq);
  }

  /**
   The reply is a page with exactly the first `size` keys of `rest`, and it gives a next cursor
   exactly when keys remain, naming the last key of the page.
   */
  ghost predicate IsPage(r: Reply, rest: seq<Key>, size: nat) {
    && r.Page?
    && Keys(r.tasks) == Take(rest, size)
    && r.next == if |rest| > size >= 1 then Some(rest[size - 1]) else None
  }

  /** Reading `size + 2` rows and cutting them to `size` is reading `size` rows and peeking at one more. */
  lemma CutIsExact(sorted: seq<Task>, size: nat, rest: seq<Key>)
    requires size >= 1 && Keys(sorted) == rest
    ensures PageOf(Take(sorted, size + 2), size).tasks == Take(sorted, size)
    ensures IsPage(PageOf(Take(sorted, size + 2), size), rest, size)
  {
    var r := PageOf(Take(sorted, size + 2), size);
    assert r.tasks == Take(sorted, size);
  }

  lemma GetJobPage(c: PageSizes, db: Tables, job: nat, limit: Option<int>, cursor: Cursor)
    requires ValidSizes(c)
    ensures var r := GetJob(c, db, job, limit, cursor);
            var size := PageLimit(c, limit);
            && (r.Page? <==> job in db.jobs && size >= 1 && !cursor.Malformed?)
            && (r.Page? ==> r == PageOf(Take(Sort(Select(db.rows, job, cursor), TaskLeq), size + 2), size))
  {
  }

  lemma FoundKeys(rows: seq<Task>, job: nat, cursor: Cursor)
    ensures Keys(Sort(Select(rows, job, cursor), TaskLeq)) == KeysBeyond(Listing(rows, job), cursor)
  {
    SelectCommutes(rows, job, cursor);
    SortCommutes(Select(rows, job, cursor));
    SortBeyond(JobKeys(rows, job), cursor);
  }

  /**
   A page is given exactly when the job exists, an explicit limit is positive and the cursor decodes;
   it then holds exactly the first `PageLimit` keys of the listing beyond the cursor, and a next
   cursor exactly when keys remain: neither over-fetch shows.
   */
  lemma PageIsExact(c: PageSizes, db: Tables, job: nat, limit: Option<int>, cursor: Cursor)
    requires ValidSizes(c)
    ensures var r := GetJob(c, db, job, limit, cursor);
            && (r.Page? <==> job in db.jobs && (limit.Some? ==> limit.value > 0) && !cursor.Malformed?)
            && (r.Page? ==>
                  PageLimit(c, limit) >= 1
                  && IsPage(r, KeysBeyond(Listing(db.rows, job), cursor), PageLimit(c, limit)))
  {
    var size := PageLimit(c, limit);
    if job in db.jobs && size > 0 && !cursor.Malformed? {
      var rest := KeysBeyond(Listing(db.rows, job), cursor);
      GetJobPage(c, db, job, limit, cursor);
      FoundKeys(db.rows, job, cursor);
      CutIsExact(Sort(Select(db.rows, job, cursor), TaskLeq), size, rest);
    }
  }

  /** A page is never longer than asked for, nor than the maximum, and is only cut short when nothing follows. */
  lemma PageSizeIsRespected(c: PageSizes, db: Tables, job: nat, limit: Option<int>, cursor: Cursor)
    requires ValidSizes(c) && GetJob(c, db, job, limit, cursor).Page?
    ensures var r := GetJob(c, db, job, limit, cursor);
            var asked := if limit.Some? then limit.value else c.standard;
            && |r.tasks| <= c.max && |r.tasks| <= asked
            && (r.next.Some? ==> |r.tasks| == c.max || |r.tasks| == asked)
  {
    PageIsExact(c, db, job, limit, cursor);
    assert |GetJob(c, db, job, limit, cursor).tasks| == |Keys(GetJob(c, db, job, limit, cursor).tasks)|;
  }

  /** What a page shows are stored rows of the job, as they are when the page is read. */
  lemma PageShowsStoredRows(c: PageSizes, db: Tables, job: nat, limit: Option<int>, cursor: Cursor, t: Task)
    requires ValidSizes(c) && GetJob(c, db, job, limit, cursor).Page?
    requires t in GetJob(c, db, job, limit, cursor).tasks
    ensures t in db.rows && t.job == Some(job)
    ensures cursor.After? ==>
              t.createdAt > cursor.key.at || (t.createdAt == cursor.key.at && t.id > cursor.key.id)
  {
    var sorted := Sort(Select(db.rows, job, cursor), TaskLeq);
    GetJobPage(c, db, job, limit, cursor);
    CutIsExact(sorted, PageLimit(c, limit), Keys(sorted));
    assert t in multiset(sorted);
    SelectFinds(db.rows, job, cursor, t);
  }

  // ---- Following the cursor ----

  lemma {:induction false} AllBeyond(ks: seq<Key>, cursor: Cursor)
    requires forall k :: k in ks ==> Beyond(cursor, k)
    ensures KeysBeyond(ks, cursor) == ks
  {
    if ks != [] {
      AllBeyond(ks[1..], cursor);
    }
  }

  lemma {:induction false} BeyondSplits(a: seq<Key>, b: seq<Key>, cursor: Cursor)
    requires forall k :: k in a ==> !Beyond(cursor, k)
    requires forall k :: k in b ==> Beyond(cursor, k)
    ensures KeysBeyond(a + b, cursor) == b
  {
    if a == [] {
      assert a + b == b;
      AllBeyond(b, cursor);
    } else {
      assert a + b == [a[0]] + (a[1..] + b);
      BeyondUnfold(a[0], a[1..] + b, cursor);
      BeyondSplits(a[1..], b, cursor);
    }
  }

  /** The cursor after the first `n` keys of a listing. */
  function CursorAt(listing: seq<Key>, n: nat): Cursor
    requires n <= |listing|
  {
    if n == 0 then FromStart else After(listing[n - 1])
  }

  lemma BeyondIsSuffix(listing: seq<Key>, n: nat)
    requires n <= |listing| && SortedBy(listing, KeyLeq) && Distinct(listing)
    ensures KeysBeyond(listing, CursorAt(listing, n)) == listing[n..]
  {
    var cursor := CursorAt(listing, n);
    forall k | k in listing[..n] ensures !Beyond(cursor, k) {
      var i :| 0 <= i < n && listing[i] == k;
      assert i == n - 1 || KeyLeq(listing[i], listing[n - 1]);
    }
    forall k | k in listing[n..] ensures Beyond(cursor, k) {
      var i :| n <= i < |listing| && listing[i] == k;
      assert n == 0 || (KeyLeq(listing[n - 1], listing[i]) && listing[n - 1] != listing[i]);
    }
    assert listing == listing[..n] + listing[n..];
    BeyondSplits(listing[..n], listing[n..], cursor);
  }

  datatype Walk = Walk(tasks: seq<Task>, finished: bool)

  function Prepend(page: seq<Task>, more: Walk): Walk {
    Walk(page + more.tasks, more.finished)
  }

  /** A client that asks `server` for one page after the other until no next cursor comes. */
  function Follow(server: (nat, Cursor) -> Reply, pages: nat, cursor: Cursor, from: nat): Walk
    requires from <= pages
    decreases pages - from
  {
    if from == pages then Walk([], false)
    else
      var page := server(from, cursor);
      if !page.Page? then Walk([], false)
      else if page.next.None? then Walk(page.tasks, true)
      else Prepend(page.tasks, Follow(server, pages, After(page.next.value), from + 1))
  }

  /** The service as that client sees it: request `i` has the limit `limits[i]` and reads the tables `views[i]`. */
  function Server(c: PageSizes, views: seq<Tables>, limits: seq<Option<int>>, job: nat): (nat, Cursor) -> Reply
    requires ValidSizes(c)
  {
    (i: nat, cursor: Cursor) =>
      if i < |views| && i < |limits| then GetJob(c, views[i], job, limits[i], cursor) else NotFound
  }

  /** Each view lists the same keys for the job; where rows are stored and all other fields may differ. */
  ghost predicate SameKeys(views: seq<Tables>, job: nat, listing: seq<Key>) {
    forall i :: 0 <= i < |views| ==> SameView(views[i], job, listing)
  }

  ghost predicate SameView(db: Tables, job: nat, listing: seq<Key>) {
    job in db.jobs && multiset(JobKeys(db.rows, job)) == multiset(listing)
  }

  ghost predicate PositiveLimits(limits: seq<Option<int>>) {
    forall i :: 0 <= i < |limits| ==> limits[i].Some? ==> limits[i].value > 0
  }

  /** A view with the same keys has the same listing, so what is left of it is the same too. */
  lemma ViewListing(rows: seq<Task>, job: nat, listing: seq<Key>, n: nat)
    requires SortedBy(listing, KeyLeq) && Distinct(listing) && n <= |listing|
    requires multiset(JobKeys(rows, job)) == multiset(listing)
    ensures KeysBeyond(Listing(rows, job), CursorAt(listing, n)) == listing[n..]
  {
    KeyOrder();
    SortSorts(JobKeys(rows, job), KeyLeq);
    SortedUnique(Listing(rows, job), listing, KeyLeq);
    BeyondIsSuffix(listing, n);
  }

  /** The page that follows the first `n` keys of a listing, when the page holds up to position `m`. */
  ghost predicate NextPage(r: Reply, listing: seq<Key>, n: nat, m: nat) {
    && n < m && n <= |listing| && r.Page?
    && Keys(r.tasks) == (if m < |listing| then listing[n..m] else listing[n..])
    && r.next == (if m < |listing| then Some(listing[m - 1]) else None)
  }

  lemma SuffixPage(r: Reply, listing: seq<Key>, n: nat, size: nat)
    requires n <= |listing| && size >= 1 && IsPage(r, listing[n..], size)
    ensures NextPage(r, listing, n, n + size)
  {
    var rest := listing[n..];
    if size < |rest| {
      assert rest[..size] == listing[n..n + size] && rest[size - 1] == listing[n + size - 1];
    }
  }

  lemma PageOfWalk(c: PageSizes, listing: seq<Key>, db: Tables, limit: Option<int>, job: nat, n: nat)
    requires ValidSizes(c) && (limit.Some? ==> limit.value > 0)
    requires n <= |listing|
    requires job in db.jobs && KeysBeyond(Listing(db.rows, job), CursorAt(listing, n)) == listing[n..]
    ensures NextPage(GetJob(c, db, job, limit, CursorAt(listing, n)), listing, n, n + PageLimit(c, limit))
  {
    PageIsExact(c, db, job, limit, CursorAt(listing, n));
    SuffixPage(GetJob(c, db, job, limit, CursorAt(listing, n)), listing, n, PageLimit(c, limit));
  }

  /** What a walk of so many pages has returned if it began at position `n` of the listing. */
  ghost predicate WalkedFrom(w: Walk, listing: seq<Key>, n: nat, pages: nat) {
    && n <= |listing|
    && Keys(w.tasks) <= listing[n..]
    && (w.finished ==> Keys(w.tasks) == listing[n..])
    && (pages >= 1 && pages >= |listing| - n ==> w.finished)
  }

  lemma LastPage(listing: seq<Key>, n: nat, m: nat, page: Reply, pages: nat)
    requires NextPage(page, listing, n, m) && m >= |listing|
    ensures WalkedFrom(Walk(page.tasks, true), listing, n, pages)
  {
  }

  lemma EarlierPage(listing: seq<Key>, n: nat, m: nat, page: Reply, more: Walk, pages: nat)
    requires NextPage(page, listing, n, m) && m < |listing| && WalkedFrom(more, listing, m, pages)
    ensures WalkedFrom(Prepend(page.tasks, more), listing, n, pages + 1)
  {
    assert Keys(page.tasks + more.tasks) == Keys(page.tasks) + Keys(more.tasks);
    assert listing[n..] == listing[n..m] + listing[m..];
  }

  /** Request `i` is answered with up to `size(i)` keys, whatever the walk has been given before. */
  ghost predicate Serves(server: (nat, Cursor) -> Reply, pages: nat, size: nat -> nat, listing: seq<Key>) {
    forall i: nat, n: nat {:trigger server(i, CursorAt(listing, n))} :: i < pages && n <= |listing| ==>
      NextPage(server(i, CursorAt(listing, n)), listing, n, n + size(i))
  }

  lemma ServesNext(
    server: (nat, Cursor) -> Reply, pages: nat, size: nat -> nat, listing: seq<Key>, n: nat, i: nat)
    requires Serves(server, pages, size, listing) && i < pages && n <= |listing|
    ensures NextPage(server(i, CursorAt(listing, n)), listing, n, n + size(i))
  {
  }

  lemma WalkStep(
    server: (nat, Cursor) -> Reply, pages: nat, size: nat -> nat, listing: seq<Key>, n: nat, from: nat)
    requires Serves(server, pages, size, listing) && from < pages && n <= |listing|
    requires var m := n + size(from);
             m < |listing| ==>
               WalkedFrom(Follow(server, pages, CursorAt(listing, m), from + 1), listing, m, pages - from - 1)
    ensures WalkedFrom(Follow(server, pages, CursorAt(listing, n), from), listing, n, pages - from)
  {
    ServesNext(server, pages, size, listing, n, from);
    OnePageMore(server, pages, listing, n, n + size(from), from);
  }

  lemma OnePageMore(server: (nat, Cursor) -> Reply, pages: nat, listing: seq<Key>, n: nat, m: nat, from: nat)
    requires from < pages && n <= |listing| && NextPage(server(from, CursorAt(listing, n)), listing, n, m)
    requires m < |listing| ==>
               WalkedFrom(Follow(server, pages, CursorAt(listing, m), from + 1), listing, m, pages - from - 1)
    ensures WalkedFrom(Follow(server, pages, CursorAt(listing, n), from), listing, n, pages - from)
  {
    var page := server(from, CursorAt(listing, n));
    if m < |listing| {
      EarlierPage(listing, n, m, page, Follow(server, pages, CursorAt(listing, m), from + 1), pages - from - 1);
    } else {
      LastPage(listing, n, m, page, pages - from);
    }
  }

  lemma {:induction false} WalkFrom(
    server: (nat, Cursor) -> Reply, pages: nat, size: nat -> nat, listing: seq<Key>, n: nat, from: nat)
    requires from <= pages && Serves(server, pages, size, listing)
    requires n <= |listing|
    ensures WalkedFrom(Follow(server, pages, CursorAt(listing, n), from), listing, n, pages - from)
    decreases pages - from
  {
    if from < pages {
      if n + size(from) < |listing| {
        WalkFrom(server, pages, size, listing, n + size(from), from + 1);
      }
      WalkStep(server, pages, size, listing, n, from);
    }
  }

  function Sizes(c: PageSizes, limits: seq<Option<int>>): nat -> nat
    requires ValidSizes(c)
  {
    (i: nat) => if i < |limits| then Max(0, PageLimit(c, limits[i])) else 0
  }

  /** Wherever a walk stands in the listing, what this view has beyond its cursor is the rest of it. */
  ghost predicate Shows(db: Tables, job: nat, listing: seq<Key>) {
    && job in db.jobs
    && forall n :: 0 <= n <= |listing| ==>
         KeysBeyond(Listing(db.rows, job), CursorAt(listing, n)) == listing[n..]
  }

  lemma SameViewShows(db: Tables, job: nat, listing: seq<Key>)
    requires SortedBy(listing, KeyLeq) && Distinct(listing) && SameView(db, job, listing)
    ensures Shows(db, job, listing)
  {
    forall n | 0 <= n <= |listing|
      ensures KeysBeyond(Listing(db.rows, job), CursorAt(listing, n)) == listing[n..]
    {
      ViewListing(db.rows, job, listing, n);
    }
  }

  lemma ServerReplies(
    c: PageSizes, views: seq<Tables>, limits: seq<Option<int>>, job: nat, i: nat, cursor: Cursor)
    requires ValidSizes(c) && i < |views| && i < |limits|
    ensures Server(c, views, limits, job)(i, cursor) == GetJob(c, views[i], job, limits[i], cursor)
  {
  }

  lemma SizeOfPage(c: PageSizes, limits: seq<Option<int>>, i: nat)
    requires ValidSizes(c) && i < |limits| && (limits[i].Some? ==> limits[i].value > 0)
    ensures Sizes(c, limits)(i) == PageLimit(c, limits[i])
  {
  }

  lemma ViewServesAt(
    c: PageSizes, views: seq<Tables>, limits: seq<Option<int>>, job: nat, listing: seq<Key>, i: nat, n: nat)
    requires ValidSizes(c) && i < |views| == |limits| && (limits[i].Some? ==> limits[i].value > 0)
    requires n <= |listing| && Shows(views[i], job, listing)
    ensures NextPage(Server(c, views, limits, job)(i, CursorAt(listing, n)), listing, n, n + Sizes(c, limits)(i))
  {
    PageOfWalk(c, listing, views[i], limits[i], job, n);
    ServerReplies(c, views, limits, job, i, CursorAt(listing, n));
    SizeOfPage(c, limits, i);
  }

  lemma ViewsServe(c: PageSizes, views: seq<Tables>, limits: seq<Option<int>>, job: nat, listing: seq<Key>)
    requires ValidSizes(c) && |views| == |limits| && PositiveLimits(limits)
    requires forall i :: 0 <= i < |views| ==> Shows(views[i], job, listing)
    ensures Serves(Server(c, views, limits, job), |views|, Sizes(c, limits), listing)
  {
    forall i: nat, n: nat | i < |views| && n <= |listing|
      ensures NextPage(Server(c, views, limits, job)(i, CursorAt(listing, n)), listing, n, n + Sizes(c, limits)(i))
    {
      assert Shows(views[i], job, listing);
      ViewServesAt(c, views, limits, job, listing, i, n);
    }
  }

  /**
   A cursor walk equals the sorted listing. For any positive or omitted limits, and whatever happens
   between pages to where rows are stored, to their other fields and to other jobs' rows, what has
   been returned is always a prefix of the listing, a walk that stops has returned all of it, and it
   stops within as many pages as the job has tasks (one page when it has none).
   */
  lemma CursorWalk(c: PageSizes, rows: seq<Task>, views: seq<Tables>, limits: seq<Option<int>>, job: nat)
    requires ValidSizes(c) && |views| == |limits| && PositiveLimits(limits)
    requires UniqueIds(rows) && SameKeys(views, job, JobKeys(rows, job))
    ensures var w := Follow(Server(c, views, limits, job), |views|, FromStart, 0);
            var ks := Keys(w.tasks);
            && ks <= Listing(rows, job)
            && (forall i, j :: 0 <= i < j < |ks| ==>
                  ks[i].at < ks[j].at || (ks[i].at == ks[j].at && ks[i].id < ks[j].id))
            && (w.finished ==> multiset(ks) == multiset(JobKeys(rows, job)))
            && (|views| >= 1 && |views| >= |JobKeys(rows, job)| ==> w.finished)
  {
    var listing := Listing(rows, job);
    KeyOrder();
    SortSorts(JobKeys(rows, job), KeyLeq);
    JobKeysAreDistinct(rows, job);
    DistinctPermutes(JobKeys(rows, job), listing);
    forall i | 0 <= i < |views| ensures Shows(views[i], job, listing) {
      assert SameView(views[i], job, JobKeys(rows, job));
      SameViewShows(views[i], job, listing);
    }
    ViewsServe(c, views, limits, job, listing);
    WalkFrom(Server(c, views, limits, job), |views|, Sizes(c, limits), listing, 0, 0);
    assert listing[0..] == listing;
    var ks := Keys(Follow(Server(c, views, limits, job), |views|, FromStart, 0).tasks);
    forall i, j | 0 <= i < j < |ks|
      ensures ks[i].at < ks[j].at || (ks[i].at == ks[j].at && ks[i].id < ks[j].id)
    {
      assert ks[i] == listing[i] && ks[j] == listing[j] && KeyLeq(listing[i], listing[j]);
    }
  }

  lemma {:induction false} KeyIsNew(rows: seq<Task>, job: nat, key: Key)
    requires forall i :: 0 <= i < |rows| ==> rows[i].id != key.id
    ensures key !in JobKeys(rows, job)
  {
    if rows != [] {
      KeyIsNew(rows[1..], job, key);
      JobKeysUnfold(rows, job);
    }
  }

  lemma {:induction false} JobKeysAreDistinct(rows: seq<Task>, job: nat)
    requires UniqueIds(rows)
    ensures Distinct(JobKeys(rows, job))
  {
    if rows != [] {
      JobKeysAreDistinct(rows[1..], job);
      JobKeysUnfold(rows, job);
      KeyIsNew(rows[1..], job, KeyOf(rows[0]));
    }
  }

  /**
   What the listing of a job is: the creation times and ids of exactly its tasks, each once, the older task
   first and the smaller id first among tasks of one time.
   */
  lemma ListingIsExact(rows: seq<Task>, job: nat)
    requires UniqueIds(rows)
    ensures var l := Listing(rows, job);
            && (forall i, j :: 0 <= i < j < |l| ==> l[i].at < l[j].at || (l[i].at == l[j].at && l[i].id < l[j].id))
            && (forall t :: t in rows && t.job == Some(job) ==> Key(t.createdAt, t.id) in l)
            && (forall k :: k in l ==>
                  exists t :: t in rows && t.job == Some(job) && k.at == t.createdAt && k.id == t.id)
  {
    var l := Listing(rows, job);
    var selected := Select(rows, job, FromStart);
    KeyOrder();
    SortSorts(JobKeys(rows, job), KeyLeq);
    JobKeysAreDistinct(rows, job);
    DistinctPermutes(JobKeys(rows, job), l);
    forall i, j | 0 <= i < j < |l| ensures l[i].at < l[j].at || (l[i].at == l[j].at && l[i].id < l[j].id) {
      assert KeyLeq(l[i], l[j]) && l[i] != l[j];
    }
    forall k ensures k in l <==> k in JobKeys(rows, job) {
      assert k in l <==> k in multiset(l);
      assert k in JobKeys(rows, job) <==> k in multiset(JobKeys(rows, job));
    }
    forall t | t in rows && t.job == Some(job) ensures Key(t.createdAt, t.id) in l {
      SelectFinds(rows, job, FromStart, t);
      var n :| 0 <= n < |selected| && selected[n] == t;
      assert JobKeys(rows, job)[n] == KeyOf(t);
    }
    forall k | k in l ensures exists t :: t in rows && t.job == Some(job) && k.at == t.createdAt && k.id == t.id {
      var n :| 0 <= n < |selected| && JobKeys(rows, job)[n] == k;
      SelectFinds(rows, job, FromStart, selected[n]);
      assert k == KeyOf(selected[n]);
    }
  }

  // ---- Walks during a run of the task pipeline ----

  lemma {:induction false} SelectConcat(a: seq<Task>, b: seq<Task>, job: nat)
    ensures JobKeys(a + b, job) == JobKeys(a, job) + JobKeys(b, job)
  {
    if a == [] {
      assert a + b == b;
      assert JobKeys(a, job) == [];
    } else {
      var ab := a + b;
      assert ab[0] == a[0] && ab[1..] == a[1..] + b;
      SelectConcat(a[1..], b, job);
      JobKeysUnfold(a, job);
      JobKeysUnfold(ab, job);
    }
  }

  lemma {:induction false} SameIdentitySameKeys(a: seq<Task>, b: seq<Task>, job: nat)
    requires |a| == |b| && SameIdentities(a, b)
    ensures JobKeys(a, job) == JobKeys(b, job)
  {
    if a != [] {
      SameIdentitySameKeys(a[1..], b[1..], job);
      JobKeysUnfold(a, job);
      JobKeysUnfold(b, job);
    }
  }

  lemma {:induction false} OtherRowsHaveNoKeys(rows: seq<Task>, job: nat)
    requires forall i :: 0 <= i < |rows| ==> rows[i].job != Some(job)
    ensures JobKeys(rows, job) == []
  {
    if rows != [] {
      OtherRowsHaveNoKeys(rows[1..], job);
    }
  }

  /** Once a job exists, no step of the pipeline changes the keys that its listing is made of. */
  lemma StepKeepsJobKeys(c: Pipeline.Limits, s: Pipeline.State, e: Pipeline.Event, job: nat)
    requires Pipeline.Enabled(s, e) && job in s.db.jobs
    ensures var s' := Pipeline.Apply(c, s, e);
            job in s'.db.jobs && JobKeys(s'.db.rows, job) == JobKeys(s.db.rows, job)
  {
    var s' := Pipeline.Apply(c, s, e);
    StepKeepsIdentities(c, s, e, job);
    AppendKeepsJobKeys(s.db.rows, s'.db.rows, job);
  }

  lemma StepKeepsIdentities(c: Pipeline.Limits, s: Pipeline.State, e: Pipeline.Event, job: nat)
    requires Pipeline.Enabled(s, e) && job in s.db.jobs
    ensures var s' := Pipeline.Apply(c, s, e);
            && job in s'.db.jobs
            && SameIdentities(s.db.rows, s'.db.rows)
            && forall i :: |s.db.rows| <= i < |s'.db.rows| ==> s'.db.rows[i].job != Some(job)
  {
    if e.RefreshTick? {
      Pipeline.RefreshRowsAreNew(s.db.rows, e.domains, e.freshIds, s.now);
    } else if e.Finish? {
      FinishKeepsIdentities(s.db, e.row, e.outcome, c.worker, job);
    }
  }

  lemma FinishKeepsIdentities(db: Tables, row: nat, o: Outcome, max: nat, job: nat)
    requires job in db.jobs
    ensures var db' := WriteOutcome(db, row, o, max);
            job in db'.jobs && |db'.rows| == |db.rows| && SameIdentities(db.rows, db'.rows)
  {
  }

  ghost predicate SameIdentities(a: seq<Task>, b: seq<Task>) {
    |a| <= |b| && forall i :: 0 <= i < |a| ==> a[i].job == b[i].job && KeyOf(a[i]) == KeyOf(b[i])
  }

  lemma AppendKeepsJobKeys(a: seq<Task>, b: seq<Task>, job: nat)
    requires SameIdentities(a, b)
    requires forall i :: |a| <= i < |b| ==> b[i].job != Some(job)
    ensures JobKeys(b, job) == JobKeys(a, job)
  {
    var n := |a|;
    assert b == b[..n] + b[n..];
    SelectConcat(b[..n], b[n..], job);
    SameIdentitySameKeys(a, b[..n], job);
    OtherRowsHaveNoKeys(b[n..], job);
  }

  lemma {:induction false} RunKeepsJobKeys(
    c: Pipeline.Limits, s: Pipeline.State, es: seq<Pipeline.Event>, job: nat)
    requires Pipeline.Valid(c, s, es) && job in s.db.jobs
    ensures var s' := Pipeline.Exec(c, s, es);
            job in s'.db.jobs && JobKeys(s'.db.rows, job) == JobKeys(s.db.rows, job)
    decreases |es|
  {
    if es != [] {
      StepKeepsJobKeys(c, s, es[0], job);
      RunKeepsJobKeys(c, Pipeline.Apply(c, s, es[0]), es[1..], job);
    }
  }

  /** `gaps[i]` is what the pipeline does before page `i` is read. */
  ghost predicate ValidGaps(c: Pipeline.Limits, s: Pipeline.State, gaps: seq<seq<Pipeline.Event>>)
    decreases |gaps|
  {
    gaps == []
    || (Pipeline.Valid(c, s, gaps[0]) && ValidGaps(c, Pipeline.Exec(c, s, gaps[0]), gaps[1..]))
  }

  ghost function Views(c: Pipeline.Limits, s: Pipeline.State, gaps: seq<seq<Pipeline.Event>>): (r: seq<Tables>)
    requires ValidGaps(c, s, gaps)
    ensures |r| == |gaps|
    decreases |gaps|
  {
    if gaps == [] then []
    else
      var s' := Pipeline.Exec(c, s, gaps[0]);
      [s'.db] + Views(c, s', gaps[1..])
  }

  lemma {:induction false} ViewsKeepKeys(
    c: Pipeline.Limits, s: Pipeline.State, gaps: seq<seq<Pipeline.Event>>, job: nat)
    requires ValidGaps(c, s, gaps) && job in s.db.jobs
    ensures SameKeys(Views(c, s, gaps), job, JobKeys(s.db.rows, job))
    decreases |gaps|
  {
    if gaps != [] {
      var s' := Pipeline.Exec(c, s, gaps[0]);
      RunKeepsJobKeys(c, s, gaps[0], job);
      ViewsKeepKeys(c, s', gaps[1..], job);
    }
  }

  /**
   The walk while the service is working: claims, recoveries, refreshes, new jobs, worker writes and
   crashes between the pages neither hide a task from the client nor show one twice.
   */
  lemma WalkDuringARun(
    c: PageSizes, lim: Pipeline.Limits, s: Pipeline.State, gaps: seq<seq<Pipeline.Event>>,
    limits: seq<Option<int>>, job: nat)
    requires ValidSizes(c) && ValidGaps(lim, s, gaps) && |gaps| == |limits| && PositiveLimits(limits)
    requires job in s.db.jobs && UniqueIds(s.db.rows)
    ensures var w := Follow(Server(c, Views(lim, s, gaps), limits, job), |gaps|, FromStart, 0);
            && Keys(w.tasks) <= Listing(s.db.rows, job)
            && (w.finished ==> Keys(w.tasks) == Listing(s.db.rows, job))
            && (|gaps| >= 1 && |gaps| >= |Listing(s.db.rows, job)| ==> w.finished)
  {
    ViewsKeepKeys(lim, s, gaps, job);
    CursorWalk(c, s.db.rows, Views(lim, s, gaps), limits, job);
    var w := Follow(Server(c, Views(lim, s, gaps), limits, job), |gaps|, FromStart, 0);
    var listing := Listing(s.db.rows, job);
    if w.finished {
      assert |Keys(w.tasks)| == |multiset(Keys(w.tasks))| == |multiset(listing)| == |listing|;
      assert listing[..|listing|] == listing;
    }
  }
}
