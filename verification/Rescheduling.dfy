/**
 The rescheduling session opened into its read and its write, for one task. A worker reads the row
 without a lock, decides by the attempts that it read, and writes PENDING or FAILED later; in between the
 lease can expire and others claim, recover, reschedule and end the task. `copies` are the copies of the
 task that no final session has taken up yet, `open` the attempts that each open session has read.
 */
module Rescheduling {
  import opened Records
  import opened Pipeline
  import TaskTable

  datatype Row = Row(status: Status, attempts: nat, copies: nat, open: map<nat, nat>)

  datatype Step =
    | Take
    | Expire
    | Read(w: nat)
    | Write(w: nat)
    | Abandon(w: nat)
    | End(status: Status)
    | Lose

  /** `Take` is a claim and `Expire` a recovery; `Lose` is a crash or a run that ends without a write. */
  predicate CanStep(s: Row, e: Step) {
    match e
    case Take => s.status.Pending?
    case Expire => s.status.Processing?
    case Read(w) => s.copies > 0 && w !in s.open
    case Write(w) => w in s.open
    case Abandon(w) => w in s.open
    case End(status) => s.copies > 0 && Terminal(status)
    case Lose => s.copies > 0
  }

  function Do(c: Limits, s: Row, e: Step): Row
    requires CanStep(s, e)
  {
    match e
    case Take => s.(status := Processing, attempts := s.attempts + 1, copies := s.copies + 1)
    case Expire =>
      if s.attempts >= c.recovery then s.(status := Failed) else s.(status := Pending, copies := s.copies + 1)
    case Read(w) => s.(copies := s.copies - 1, open := s.open[w := s.attempts])
    case Write(w) => s.(status := if s.open[w] >= c.worker then Failed else Pending, open := s.open - {w})
    case Abandon(w) => s.(open := s.open - {w})
    case End(status) => s.(status := status, copies := s.copies - 1)
    case Lose => s.(copies := s.copies - 1)
  }

  ghost predicate CanRun(c: Limits, s: Row, es: seq<Step>)
    decreases |es|
  {
    es == [] || (CanStep(s, es[0]) && CanRun(c, Do(c, s, es[0]), es[1..]))
  }

  ghost function Run(c: Limits, s: Row, es: seq<Step>): Row
    requires CanRun(c, s, es)
    decreases |es|
  {
    if es == [] then s else Run(c, Do(c, s, es[0]), es[1..])
  }

  const CREATED: Row := Row(Pending, 0, 0, map[])

  /** When nothing comes between its read and its write, the session is the one step that `Pipeline` takes for it. */
  lemma UndisturbedIsAtomic(c: Limits, s: Row, t: Task, w: nat)
    requires t.status == s.status && t.attempts == s.attempts && s.copies > 0 && w !in s.open
    ensures var t' := TaskTable.WriteOutcome(TaskTable.Tables([t], map[]), 0, TaskTable.Reschedule, c.worker).rows[0];
            && CanRun(c, s, [Read(w), Write(w)])
            && Run(c, s, [Read(w), Write(w)]) == Row(t'.status, t'.attempts, s.copies - 1, s.open)
  {
    var s1 := Do(c, s, Read(w));
    var s2 := Do(c, s1, Write(w));
    assert s2.open == s.open;
    assert CanRun(c, s2, []) && Run(c, s2, []) == s2;
    Cons(c, s1, Write(w), s2, []);
    Cons(c, s, Read(w), s1, [Write(w)] + []);
    assert [Read(w)] + ([Write(w)] + []) == [Read(w), Write(w)];
  }

  /** How else a copy or a session comes to its end. */
  lemma OtherEnds(c: Limits, s: Row, status: Status, w: nat)
    ensures s.copies > 0 ==> CanStep(s, Lose) && Do(c, s, Lose) == s.(copies := s.copies - 1)
    ensures s.copies > 0 && (status.Completed? || status.Failed?) ==>
              CanStep(s, End(status)) && Do(c, s, End(status)) == s.(status := status, copies := s.copies - 1)
    ensures w in s.open ==> CanStep(s, Abandon(w)) && Do(c, s, Abandon(w)) == s.(open := s.open - {w})
    ensures s.copies == 0 || w in s.open ==> !CanStep(s, Read(w))
    ensures s.copies == 0 ==> !CanStep(s, Lose) && !CanStep(s, End(status))
    ensures !Terminal(status) ==> !CanStep(s, End(status))
  {
  }

  /** A claim needs a PENDING row and a recovery a PROCESSING one, and recovery fails the task at its limit. */
  lemma ClaimAndRecovery(c: Limits, s: Row)
    ensures CanStep(s, Take) <==> s.status == Pending
    ensures CanStep(s, Expire) <==> s.status == Processing
    ensures s.status == Pending ==>
              Do(c, s, Take) == Row(Processing, s.attempts + 1, s.copies + 1, s.open)
    ensures s.status == Processing ==>
              Do(c, s, Expire) == if s.attempts < c.recovery then Row(Pending, s.attempts, s.copies + 1, s.open)
                                  else Row(Failed, s.attempts, s.copies, s.open)
  {
  }

  // ---- Which writes break the attempt bound ----

  predicate Bounded(c: Limits, s: Row) {
    s.attempts <= Budget(c) && (s.status.Pending? ==> s.attempts < Budget(c))
  }

  /** The session read attempts below the limit, and by now the budget is used up. */
  predicate Stale(c: Limits, s: Row, w: nat)
    requires w in s.open
  {
    s.open[w] < c.worker && s.attempts >= Budget(c)
  }

  predicate StaleWrite(c: Limits, s: Row, e: Step) {
    e.Write? && e.w in s.open && Stale(c, s, e.w)
  }

  /** Exactly the stale writes break the bound: one of them, and the next claim exceeds the budget. */
  lemma BoundBreaksIffStale(c: Limits, s: Row, e: Step)
    requires ValidLimits(c) && Bounded(c, s) && CanStep(s, e)
    ensures Bounded(c, Do(c, s, e)) <==> !StaleWrite(c, s, e)
    ensures StaleWrite(c, s, e) ==>
              CanStep(Do(c, s, e), Take) && Do(c, Do(c, s, e), Take).attempts > Budget(c)
  {
  }

  ghost function StaleWrites(c: Limits, s: Row, es: seq<Step>): nat
    requires CanRun(c, s, es)
    decreases |es|
  {
    if es == [] then 0
    else (if StaleWrite(c, s, es[0]) then 1 else 0) + StaleWrites(c, Do(c, s, es[0]), es[1..])
  }

  /** Attempts, and the one that a PENDING row will get next. */
  function Due(s: Row): nat {
    s.attempts + (if s.status.Pending? then 1 else 0)
  }

  /** Each stale write buys one attempt beyond the budget, and nothing else does. */
  lemma {:induction false} AttemptsPayForStaleWrites(c: Limits, s: Row, es: seq<Step>, extra: nat)
    requires ValidLimits(c) && CanRun(c, s, es) && Due(s) <= Budget(c) + extra
    ensures Due(Run(c, s, es)) <= Budget(c) + extra + StaleWrites(c, s, es)
    decreases |es|
  {
    if es != [] {
      var stale := if StaleWrite(c, s, es[0]) then 1 else 0;
      AttemptsPayForStaleWrites(c, Do(c, s, es[0]), es[1..], extra + stale);
    }
  }

  // ---- How many stale writes there can be ----

  /** The open sessions that will write PENDING. */
  function Fresh(c: Limits, s: Row): set<nat> {
    set w | w in s.open && s.open[w] < c.worker
  }

  /** The sessions that still can read attempts below the limit, or have. */
  function Sessions(c: Limits, s: Row): int {
    |Fresh(c, s)|
    + (if s.attempts < c.worker then
         s.copies + 2 * (c.worker - 1 - s.attempts) + (if s.status.Processing? then 1 else 0)
       else 0)
  }

  lemma FreshAfterRead(c: Limits, s: Row, w: nat)
    requires CanStep(s, Read(w))
    ensures Fresh(c, Do(c, s, Read(w))) == if s.attempts < c.worker then Fresh(c, s) + {w} else Fresh(c, s)
    ensures w !in Fresh(c, s)
  {
  }

  lemma FreshAfterEnd(c: Limits, s: Row, e: Step)
    requires CanStep(s, e) && (e.Write? || e.Abandon?)
    ensures Fresh(c, Do(c, s, e)) == Fresh(c, s) - {e.w}
    ensures e.w in Fresh(c, s) <==> s.open[e.w] < c.worker
  {
  }

  lemma FreshChanges(c: Limits, s: Row, e: Step)
    requires CanStep(s, e)
    ensures |Fresh(c, Do(c, s, e))|
         == |Fresh(c, s)|
            + (if e.Read? && s.attempts < c.worker then 1 else 0)
            - (if (e.Write? || e.Abandon?) && s.open[e.w] < c.worker then 1 else 0)
  {
    if e.Read? {
      FreshAfterRead(c, s, e.w);
    } else if e.Write? || e.Abandon? {
      FreshAfterEnd(c, s, e);
    } else {
      assert Do(c, s, e).open == s.open;
    }
  }

  lemma StepSpendsSessions(c: Limits, s: Row, e: Step)
    requires ValidLimits(c) && CanStep(s, e)
    ensures Sessions(c, Do(c, s, e)) + (if StaleWrite(c, s, e) then 1 else 0) <= Sessions(c, s)
  {
    FreshChanges(c, s, e);
  }

  lemma {:induction false} RunSpendsSessions(c: Limits, s: Row, es: seq<Step>)
    requires ValidLimits(c) && CanRun(c, s, es)
    ensures StaleWrites(c, s, es) + Sessions(c, Run(c, s, es)) <= Sessions(c, s)
    decreases |es|
  {
    if es != [] {
      StepSpendsSessions(c, s, es[0]);
      RunSpendsSessions(c, Do(c, s, es[0]), es[1..]);
    }
  }

  /**
   The attempts of a task stay bounded in every run even so: by the budget and one more for each of the
   two sessions that each attempt below the worker's limit can leave open.
   */
  lemma AttemptsStayBounded(c: Limits, es: seq<Step>)
    requires ValidLimits(c) && CanRun(c, CREATED, es)
    ensures Due(Run(c, CREATED, es)) <= Budget(c) + 2 * (c.worker - 1)
  {
    AttemptsPayForStaleWrites(c, CREATED, es, 0);
    RunSpendsSessions(c, CREATED, es);
    assert Fresh(c, CREATED) == {};
  }

  // ---- For which limits the budget survives ----

  /** With a worker limit of 1, whoever reads a claimed row sees it at the limit. */
  ghost predicate SeesLimit(s: Row) {
    && (s.copies > 0 || s.status.Processing? ==> s.attempts >= 1)
    && forall w :: w in s.open ==> s.open[w] >= 1
  }

  /** With a recovery limit of 1, nobody else has the task while a copy or a session is left. */
  ghost predicate OneHolder(s: Row) {
    && s.copies <= 1
    && (s.copies == 1 || s.status.Pending? ==> s.open == map[])
    && (s.status.Pending? ==> s.copies == 0)
    && (forall v, w :: v in s.open && w in s.open ==> v == w)
    && (forall w :: w in s.open ==> s.open[w] == s.attempts)
    && (s.status.Processing? ==> s.attempts >= 1)
  }

  lemma {:induction false} LimitOfOneKeepsBudget(c: Limits, s: Row, es: seq<Step>)
    requires ValidLimits(c) && CanRun(c, s, es) && Bounded(c, s)
    requires (c.worker == 1 && SeesLimit(s)) || (c.recovery == 1 && OneHolder(s))
    ensures Run(c, s, es).attempts <= Budget(c)
    decreases |es|
  {
    if es != [] {
      var s' := Do(c, s, es[0]);
      BoundBreaksIffStale(c, s, es[0]);
      if c.worker == 1 && SeesLimit(s) {
        assert SeesLimit(s');
      } else {
        OneHolderStays(c, s, es[0]);
      }
      LimitOfOneKeepsBudget(c, s', es[1..]);
    }
  }

  lemma OneHolderStays(c: Limits, s: Row, e: Step)
    requires ValidLimits(c) && c.recovery == 1 && OneHolder(s) && Bounded(c, s) && CanStep(s, e)
    ensures OneHolder(Do(c, s, e)) && !StaleWrite(c, s, e)
  {
    if e.Write? || e.Abandon? {
      assert Do(c, s, e).open == map[];
    }
  }

  lemma Cons(c: Limits, s: Row, e: Step, s': Row, es: seq<Step>)
    requires CanStep(s, e) && Do(c, s, e) == s' && CanRun(c, s', es)
    ensures CanRun(c, s, [e] + es) && Run(c, s, [e] + es) == Run(c, s', es)
  {
    assert ([e] + es)[1..] == es;
  }

  /** One more attempt below the budget, back to PENDING, whatever sessions stay open. */
  lemma Again(c: Limits, s: Row, w: nat, es: seq<Step>, copies: nat) returns (more: seq<Step>)
    requires s.status.Pending? && s.attempts + 1 < Budget(c) && w !in s.open
    requires copies == s.copies + (if s.attempts + 1 < c.recovery then 2 else 0)
    requires CanRun(c, s.(attempts := s.attempts + 1, copies := copies), es)
    ensures CanRun(c, s, more)
    ensures Run(c, s, more) == Run(c, s.(attempts := s.attempts + 1, copies := copies), es)
  {
    var end := s.(attempts := s.attempts + 1, copies := copies);
    var s1 := s.(status := Processing, attempts := s.attempts + 1, copies := s.copies + 1);
    if s.attempts + 1 < c.recovery {
      Cons(c, s1, Expire, end, es);
      more := [Expire] + es;
    } else {
      var s2 := s1.(copies := s.copies, open := s.open[w := s.attempts + 1]);
      assert s2.open - {w} == s.open;
      Cons(c, s2, Write(w), end, es);
      Cons(c, s1, Read(w), s2, [Write(w)] + es);
      more := [Read(w)] + ([Write(w)] + es);
    }
    Cons(c, s, Take, s1, more);
    more := [Take] + more;
  }

  /** From a PENDING row below the budget, attempts can be used up while every open session waits. */
  lemma {:induction false} UseUp(c: Limits, s: Row, w: nat) returns (es: seq<Step>, copies: nat)
    requires ValidLimits(c) && s.status.Pending? && s.attempts < Budget(c) && w !in s.open
    ensures CanRun(c, s, es) && Run(c, s, es) == Row(Processing, Budget(c), copies, s.open)
    decreases Budget(c) - s.attempts
  {
    if s.attempts + 1 < Budget(c) {
      var more := s.copies + (if s.attempts + 1 < c.recovery then 2 else 0);
      var rest, last := UseUp(c, s.(attempts := s.attempts + 1, copies := more), w);
      es := Again(c, s, w, rest, more);
      copies := last;
    } else {
      copies := s.copies + 1;
      var end := Row(Processing, Budget(c), copies, s.open);
      assert CanRun(c, end, []) && Run(c, end, []) == end;
      Cons(c, s, Take, end, []);
      es := [Take] + [];
    }
  }

  lemma {:induction false} Compose(c: Limits, s: Row, es: seq<Step>, more: seq<Step>)
    requires CanRun(c, s, es) && CanRun(c, Run(c, s, es), more)
    ensures CanRun(c, s, es + more) && Run(c, s, es + more) == Run(c, Run(c, s, es), more)
    decreases |es|
  {
    if es == [] {
      assert es + more == more;
    } else {
      var s' := Do(c, s, es[0]);
      Compose(c, s', es[1..], more);
      assert es + more == [es[0]] + (es[1..] + more);
      Cons(c, s, es[0], s', es[1..] + more);
    }
  }

  /** A session that reads at the first attempt and writes when the budget is used up. */
  lemma BudgetCanBreak(c: Limits) returns (es: seq<Step>)
    requires c.worker >= 2 && c.recovery >= 2
    ensures CanRun(c, CREATED, es) && Run(c, CREATED, es).attempts == Budget(c) + 1
  {
    var first := Hoard(c, 1, 1);
    var s := Row(Pending, 1, 1, OpenSessions(1));
    var up, copies := UseUp(c, s, 1);
    Compose(c, CREATED, first, up);
    var late := Spend(c, Budget(c), copies, 1);
    Compose(c, CREATED, first + up, late);
    es := first + up + late;
  }

  /**
   For which limits the budget holds over all runs of the opened session: exactly those with which a
   worker never reschedules a claimed task, or recovery never re-dispatches one.
   */
  lemma BudgetHoldsIff(c: Limits)
    requires ValidLimits(c)
    ensures (forall es :: CanRun(c, CREATED, es) ==> Run(c, CREATED, es).attempts <= Budget(c))
            <==> c.worker < 2 || c.recovery < 2
  {
    if c.worker < 2 || c.recovery < 2 {
      forall es | CanRun(c, CREATED, es) ensures Run(c, CREATED, es).attempts <= Budget(c) {
        LimitOfOneKeepsBudget(c, CREATED, es);
      }
    } else {
      var es := BudgetCanBreak(c);
    }
  }

  // ---- The bound is reached ----

  /** Two sessions opened at each attempt, in order. */
  function OpenSessions(n: nat): map<nat, nat> {
    map w: nat | 0 <= w < n :: w / 2 + 1
  }

  /** One session opened by the claimed copy, and a second one by the copy that recovery hands on. */
  lemma {:induction false} Hoard(c: Limits, a: nat, n: nat) returns (es: seq<Step>)
    requires ValidLimits(c) && a < c.recovery && (n == 2 * a || n == 1 == a)
    ensures CanRun(c, CREATED, es) && Run(c, CREATED, es) == Row(Pending, a, 2 * a - n, OpenSessions(n))
    decreases a
  {
    if a == 0 {
      es := [];
      assert OpenSessions(0) == map[];
    } else {
      var before := Hoard(c, a - 1, 2 * (a - 1));
      var round := HoardRound(c, a, n);
      Compose(c, CREATED, before, round);
      es := before + round;
    }
  }

  lemma HoardRound(c: Limits, a: nat, n: nat) returns (es: seq<Step>)
    requires 1 <= a < c.recovery && (n == 2 * a || n == 2 * a - 1)
    ensures var s := Row(Pending, a - 1, 0, OpenSessions(2 * (a - 1)));
            CanRun(c, s, es) && Run(c, s, es) == Row(Pending, a, 2 * a - n, OpenSessions(n))
  {
    var m := 2 * (a - 1);
    var s := Row(Pending, a - 1, 0, OpenSessions(m));
    var s1 := Row(Processing, a, 1, OpenSessions(m));
    var s2 := Row(Processing, a, 0, OpenSessions(m + 1));
    var s3 := Row(Pending, a, 1, OpenSessions(m + 1));
    var s4 := Row(Pending, a, 0, OpenSessions(m + 2));
    assert OpenSessions(m)[m := a] == OpenSessions(m + 1);
    assert OpenSessions(m + 1)[m + 1 := a] == OpenSessions(m + 2);
    if n == 2 * a {
      assert CanRun(c, s4, []) && Run(c, s4, []) == s4;
      Cons(c, s3, Read(m + 1), s4, []);
      es := [Read(m + 1)] + [];
    } else {
      es := [];
      assert CanRun(c, s3, []) && Run(c, s3, []) == s3;
    }
    Cons(c, s2, Expire, s3, es);
    es := [Expire] + es;
    Cons(c, s1, Read(m), s2, es);
    es := [Read(m)] + es;
    Cons(c, s, Take, s1, es);
    es := [Take] + es;
  }

  /** Each open session writes PENDING in turn, and each time somebody claims the row again. */
  lemma {:induction false} Spend(c: Limits, attempts: nat, copies: nat, n: nat) returns (es: seq<Step>)
    requires forall w :: 0 <= w < n ==> w / 2 + 1 < c.worker
    ensures var s := Row(Processing, attempts, copies, OpenSessions(n));
            CanRun(c, s, es) && Run(c, s, es).attempts == attempts + n
    decreases n
  {
    var s := Row(Processing, attempts, copies, OpenSessions(n));
    if n == 0 {
      es := [];
    } else {
      var w := n - 1;
      var s1 := Row(Pending, attempts, copies, OpenSessions(w));
      var s2 := Row(Processing, attempts + 1, copies + 1, OpenSessions(w));
      assert w / 2 + 1 < c.worker;
      assert OpenSessions(n) - {w} == OpenSessions(w);
      var rest := Spend(c, attempts + 1, copies + 1, w);
      Cons(c, s1, Take, s2, rest);
      Cons(c, s, Write(w), s1, [Take] + rest);
      es := [Write(w)] + ([Take] + rest);
    }
  }

  /** If recovery's limit is not the smaller one, some run makes every one of those attempts. */
  lemma AttemptBoundIsReached(c: Limits) returns (es: seq<Step>)
    requires ValidLimits(c) && c.worker <= c.recovery
    ensures CanRun(c, CREATED, es) && Run(c, CREATED, es).attempts == Budget(c) + 2 * (c.worker - 1)
  {
    var n := 2 * (c.worker - 1);
    var first := Hoard(c, c.worker - 1, n);
    var s := Row(Pending, c.worker - 1, 0, OpenSessions(n));
    var up, copies := UseUp(c, s, n);
    Compose(c, CREATED, first, up);
    var late := Spend(c, Budget(c), copies, n);
    Compose(c, CREATED, first + up, late);
    es := first + up + late;
  }
}
