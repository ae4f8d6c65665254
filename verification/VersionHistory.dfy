/**
 Any number of writers persisting details of one domain, opened into their statements: read the
 version, UPDATE, look again when no row matched, INSERT, and once more from the re-read after a
 conflict. The row can be deleted between any two statements. `log` is what was written since the
 last deletion, and `past` keeps the logs that earlier deletions ended.
 */
module VersionHistory {
  import opened Records
  import opened DomainDetail

  datatype Phase = HasRead | Missed | Inserting | Conflicted | Done(version: nat) | Raised

  /** `epoch` counts the deletions before the writer read the version that it expects. */
  datatype Writer = Writer(seen: Observation, expected: nat, epoch: nat, retrying: bool, phase: Phase)

  /** `base` is the version of the row that the write replaced, 0 if it inserted the row. */
  datatype Write = Write(writer: nat, expected: nat, epoch: nat, base: nat, seen: Observation)

  datatype State = State(row: Option<Detail>, writers: map<nat, Writer>, log: seq<Write>, past: seq<seq<Write>>)

  datatype Event =
    | Begin(w: nat, seen: Observation)
    | Update(w: nat)
    | LookAgain(w: nat)
    | Insert(w: nat)
    | Reread(w: nat)
    | Delete

  predicate InPhase(s: State, w: nat, p: Phase) {
    w in s.writers && s.writers[w].phase == p
  }

  predicate Enabled(s: State, e: Event) {
    match e
    case Begin(w, _) => w !in s.writers
    case Update(w) => InPhase(s, w, HasRead)
    case LookAgain(w) => InPhase(s, w, Missed)
    case Insert(w) => InPhase(s, w, Inserting)
    case Reread(w) => InPhase(s, w, Conflicted)
    case Delete => true
  }

  function Goto(s: State, w: nat, p: Phase): State
    requires w in s.writers
  {
    s.(writers := s.writers[w := s.writers[w].(phase := p)])
  }

  function Apply(s: State, e: Event): State
    requires Enabled(s, e)
  {
    match e
    case Begin(w, seen) => s.(writers := s.writers[w := Writer(seen, VersionOf(s.row), |s.past|, false, HasRead)])
    case Update(w) =>
      var me := s.writers[w];
      if UpdateMatches(s.row, me.expected) then
        Goto(s, w, Done(me.expected + 1)).(
          row := Some(Detail(me.expected + 1, me.seen)),
          log := s.log + [Write(w, me.expected, me.epoch, me.expected, me.seen)])
      else Goto(s, w, Missed)
    case LookAgain(w) =>
      if s.row.None? then Goto(s, w, Inserting)
      else Goto(s, w, if s.writers[w].retrying then Raised else Conflicted)
    case Insert(w) =>
      var me := s.writers[w];
      if s.row.None? then
        Goto(s, w, Done(1)).(
          row := Some(Detail(1, me.seen)),
          log := s.log + [Write(w, me.expected, me.epoch, 0, me.seen)])
      else Goto(s, w, Raised)
    case Reread(w) =>
      if s.row.None? then Goto(s, w, Raised)
      else s.(writers := s.writers[w := Writer(s.writers[w].seen, VersionOf(s.row), |s.past|, true, HasRead)])
    case Delete => s.(row := None, log := [], past := s.past + [s.log])
  }

  ghost predicate Valid(s: State, es: seq<Event>)
    decreases |es|
  {
    es == [] || (Enabled(s, es[0]) && Valid(Apply(s, es[0]), es[1..]))
  }

  ghost function Exec(s: State, es: seq<Event>): State
    requires Valid(s, es)
    decreases |es|
  {
    if es == [] then s else Exec(Apply(s, es[0]), es[1..])
  }

  const START: State := State(None, map[], [], [])

  /** The log of the rows that lived after `epoch` deletions. */
  function Epoch(s: State, epoch: nat): seq<Write> {
    if epoch < |s.past| then s.past[epoch] else s.log
  }

  /** Write i replaced version i; only the insert can have expected anything else. */
  ghost predicate Chain(log: seq<Write>) {
    forall i :: 0 <= i < |log| ==> log[i].base == i && (i > 0 ==> log[i].expected == i)
  }

  /** The chains, and the row as what the last write made of it. */
  ghost predicate ChainInv(s: State) {
    && Chain(s.log)
    && (forall e :: 0 <= e < |s.past| ==> Chain(s.past[e]))
    && s.row == (if s.log == [] then None else Some(Detail(|s.log|, s.log[|s.log| - 1].seen)))
  }

  ghost predicate WrittenInv(s: State) {
    forall i :: 0 <= i < |s.log| ==>
      && s.log[i].writer in s.writers
      && s.writers[s.log[i].writer].phase == Done(i + 1)
      && s.writers[s.log[i].writer].seen == s.log[i].seen
  }

  /** A version other than 0 was read from a row of that version, in the epoch of the read. */
  predicate ReadFrom(s: State, epoch: nat, expected: nat) {
    epoch <= |s.past| && expected <= |Epoch(s, epoch)|
  }

  ghost predicate ReadInv(s: State) {
    && (forall w :: w in s.writers ==> ReadFrom(s, s.writers[w].epoch, s.writers[w].expected))
    && (s.log != [] ==>
          ReadFrom(s, s.log[0].epoch, s.log[0].expected)
          && (s.log[0].expected > 0 ==> s.log[0].epoch < |s.past|))
  }

  ghost predicate Inv(s: State) {
    ChainInv(s) && WrittenInv(s) && ReadInv(s)
  }

  lemma StepKeepsReads(s: State, e: Event)
    requires Inv(s) && Enabled(s, e)
    ensures ReadInv(Apply(s, e))
  {
    var s' := Apply(s, e);
    assert |s.past| <= |s'.past|;
    forall w | w in s'.writers ensures ReadFrom(s', s'.writers[w].epoch, s'.writers[w].expected) {
      if w in s.writers && s'.writers[w].epoch == s.writers[w].epoch {
        assert ReadFrom(s, s.writers[w].epoch, s.writers[w].expected);
      }
    }
  }

  lemma StepKeepsChain(s: State, e: Event)
    requires ChainInv(s) && Enabled(s, e)
    ensures ChainInv(Apply(s, e))
  {
    var s' := Apply(s, e);
    forall k | 0 <= k < |s'.past| ensures Chain(s'.past[k]) {
      assert k < |s.past| ==> Chain(s.past[k]);
    }
  }

  lemma StepKeepsWritten(s: State, e: Event)
    requires ChainInv(s) && WrittenInv(s) && Enabled(s, e)
    ensures WrittenInv(Apply(s, e))
  {
  }

  lemma StepKeepsInv(s: State, e: Event)
    requires Inv(s) && Enabled(s, e)
    ensures Inv(Apply(s, e))
  {
    StepKeepsChain(s, e);
    StepKeepsWritten(s, e);
    StepKeepsReads(s, e);
  }

  lemma {:induction false} RunKeepsInv(s: State, es: seq<Event>)
    requires Inv(s) && Valid(s, es)
    ensures Inv(Exec(s, es))
    decreases |es|
  {
    if es != [] {
      StepKeepsInv(s, es[0]);
      RunKeepsInv(Apply(s, es[0]), es[1..]);
    }
  }

  /**
   Linear version history, in every reachable state: since the last deletion the writes made versions
   1, 2, 3, ... in order, each replacing exactly its predecessor with its own observation, no writer
   wrote twice, and the stored row is the last of them; the rows before each deletion did the same.
   */
  lemma LinearHistory(es: seq<Event>)
    requires Valid(START, es)
    ensures var s := Exec(START, es);
            && (forall i :: 0 <= i < |s.log| ==> s.log[i].base == i)
            && (forall i, j :: 0 <= i < j < |s.log| ==> s.log[i].writer != s.log[j].writer)
            && s.row == (if s.log == [] then None else Some(Detail(|s.log|, s.log[|s.log| - 1].seen)))
            && (forall e, i :: 0 <= e < |s.past| && 0 <= i < |s.past[e]| ==> s.past[e][i].base == i)
  {
    RunKeepsInv(START, es);
  }

  /**
   Two successful writes of one chain expected the same version exactly when the first of them is the
   insert and expected the version that the second replaced. The writer of that insert had then read
   that version from a row deleted since: write `j` of an earlier chain made it.
   */
  lemma SameExpectation(es: seq<Event>, i: nat, j: nat)
    requires Valid(START, es)
    requires i < j < |Exec(START, es).log|
    ensures var s := Exec(START, es);
            && (s.log[i].expected == s.log[j].expected <==> i == 0 && s.log[0].expected == j)
            && (s.log[i].expected == s.log[j].expected ==>
                  && s.log[0].epoch < |s.past|
                  && 1 <= j <= |s.past[s.log[0].epoch]|
                  && s.past[s.log[0].epoch][j - 1].base == j - 1)
  {
    RunKeepsInv(START, es);
  }

  /**
   The same at the insert itself: one that expected no row shares its expectation with nobody, and one
   that expected version v shares it exactly when the new chain gets as far as version v + 1.
   */
  lemma InsertSharesExpectationIff(es: seq<Event>)
    requires Valid(START, es) && Exec(START, es).log != []
    ensures var log := Exec(START, es).log;
            (exists j :: 0 < j < |log| && log[j].expected == log[0].expected) <==> 0 < log[0].expected < |log|
  {
    RunKeepsInv(START, es);
    var log := Exec(START, es).log;
    if 0 < log[0].expected < |log| {
      assert log[log[0].expected].expected == log[0].expected;
    }
  }

  /** The exception happens: an insert that expected version 1, and the update that expects version 1 too. */
  lemma StaleInsertSharesExpectation(a: Observation, b: Observation, d: Observation) returns (es: seq<Event>)
    ensures Valid(START, es)
    ensures Exec(START, es).log == [Write(1, 1, 0, 0, b), Write(2, 1, 1, 1, d)]
    ensures Exec(START, es).past == [[Write(0, 0, 0, 0, a)]]
  {
    es := FirstRow(a, b);
    var s := Exec(START, es);
    var rest := Reinsert(s, a, b, d);
    Compose(START, es, rest);
    es := es + rest;
  }

  lemma FirstRow(a: Observation, b: Observation) returns (es: seq<Event>)
    ensures Valid(START, es)
    ensures Exec(START, es)
         == State(Some(Detail(1, a)),
                  map[0 := Writer(a, 0, 0, false, Done(1)), 1 := Writer(b, 1, 0, false, HasRead)],
                  [Write(0, 0, 0, 0, a)], [])
  {
    var s1 := State(None, map[0 := Writer(a, 0, 0, false, HasRead)], [], []);
    var s2 := State(None, map[0 := Writer(a, 0, 0, false, Missed)], [], []);
    var s3 := State(None, map[0 := Writer(a, 0, 0, false, Inserting)], [], []);
    var s4 := State(Some(Detail(1, a)), map[0 := Writer(a, 0, 0, false, Done(1))], [Write(0, 0, 0, 0, a)], []);
    var s5 := s4.(writers := s4.writers[1 := Writer(b, 1, 0, false, HasRead)]);
    assert Valid(s5, []) && Exec(s5, []) == s5;
    Cons(s4, Begin(1, b), s5, []);
    Cons(s3, Insert(0), s4, [Begin(1, b)] + []);
    Cons(s2, LookAgain(0), s3, [Insert(0)] + ([Begin(1, b)] + []));
    Cons(s1, Update(0), s2, [LookAgain(0)] + ([Insert(0)] + ([Begin(1, b)] + [])));
    Cons(START, Begin(0, a), s1, [Update(0)] + ([LookAgain(0)] + ([Insert(0)] + ([Begin(1, b)] + []))));
    es := [Begin(0, a)] + ([Update(0)] + ([LookAgain(0)] + ([Insert(0)] + ([Begin(1, b)] + []))));
  }

  lemma Reinsert(s: State, a: Observation, b: Observation, d: Observation) returns (es: seq<Event>)
    requires s == State(Some(Detail(1, a)),
                        map[0 := Writer(a, 0, 0, false, Done(1)), 1 := Writer(b, 1, 0, false, HasRead)],
                        [Write(0, 0, 0, 0, a)], [])
    ensures Valid(s, es)
    ensures Exec(s, es).log == [Write(1, 1, 0, 0, b), Write(2, 1, 1, 1, d)] && Exec(s, es).past == [s.log]
  {
    var gone := State(None, s.writers, [], [s.log]);
    var s1 := Goto(gone, 1, Missed);
    var s2 := Goto(gone, 1, Inserting);
    var s3 := Goto(gone, 1, Done(1)).(row := Some(Detail(1, b)), log := [Write(1, 1, 0, 0, b)]);
    var s4 := s3.(writers := s3.writers[2 := Writer(d, 1, 1, false, HasRead)]);
    var s5 := Goto(s4, 2, Done(2)).(
      row := Some(Detail(2, d)), log := [Write(1, 1, 0, 0, b), Write(2, 1, 1, 1, d)]);
    assert Valid(s5, []) && Exec(s5, []) == s5;
    Cons(s4, Update(2), s5, []);
    Cons(s3, Begin(2, d), s4, [Update(2)] + []);
    Cons(s2, Insert(1), s3, [Begin(2, d)] + ([Update(2)] + []));
    Cons(s1, LookAgain(1), s2, [Insert(1)] + ([Begin(2, d)] + ([Update(2)] + [])));
    Cons(gone, Update(1), s1, [LookAgain(1)] + ([Insert(1)] + ([Begin(2, d)] + ([Update(2)] + []))));
    es := [Update(1)] + ([LookAgain(1)] + ([Insert(1)] + ([Begin(2, d)] + ([Update(2)] + []))));
    Cons(s, Delete, gone, es);
    es := [Delete] + es;
  }

  lemma Cons(s: State, e: Event, s': State, es: seq<Event>)
    requires Enabled(s, e) && Apply(s, e) == s' && Valid(s', es)
    ensures Valid(s, [e] + es) && Exec(s, [e] + es) == Exec(s', es)
  {
    assert ([e] + es)[1..] == es;
  }

  lemma {:induction false} Compose(s: State, es: seq<Event>, more: seq<Event>)
    requires Valid(s, es) && Valid(Exec(s, es), more)
    ensures Valid(s, es + more) && Exec(s, es + more) == Exec(Exec(s, es), more)
    decreases |es|
  {
    if es == [] {
      assert es + more == more;
    } else {
      Compose(Apply(s, es[0]), es[1..], more);
      assert (es + more)[0] == es[0] && (es + more)[1..] == es[1..] + more;
    }
  }

  /** A writer that nobody comes between succeeds at its first try, on a stored row and on none. */
  lemma UndisturbedWriterSucceeds(s: State, w: nat, seen: Observation)
    requires w !in s.writers
    ensures var v := VersionOf(s.row);
            var es := if s.row.Some? then [Begin(w, seen), Update(w)]
                      else [Begin(w, seen), Update(w), LookAgain(w), Insert(w)];
            && Valid(s, es)
            && Exec(s, es).row == Some(Detail(v + 1, seen))
            && Exec(s, es).log == s.log + [Write(w, v, |s.past|, v, seen)]
  {
    var s1 := Apply(s, Begin(w, seen));
    var s2 := Apply(s1, Update(w));
    if s.row.Some? {
      assert Valid(s2, []) && Exec(s2, []) == s2;
      assert [Update(w)][1..] == [] && Valid(s1, [Update(w)]) && Exec(s1, [Update(w)]) == s2;
      assert [Begin(w, seen), Update(w)][1..] == [Update(w)];
    } else {
      var s3 := Apply(s2, LookAgain(w));
      var s4 := Apply(s3, Insert(w));
      assert Valid(s4, []) && Exec(s4, []) == s4;
      Cons(s3, Insert(w), s4, []);
      Cons(s2, LookAgain(w), s3, [Insert(w)] + []);
      Cons(s1, Update(w), s2, [LookAgain(w)] + ([Insert(w)] + []));
      Cons(s, Begin(w, seen), s1, [Update(w)] + ([LookAgain(w)] + ([Insert(w)] + [])));
      assert [Begin(w, seen)] + ([Update(w)] + ([LookAgain(w)] + ([Insert(w)] + [])))
          == [Begin(w, seen), Update(w), LookAgain(w), Insert(w)];
    }
  }

  /**
   A writer that somebody else came before tries once more, from the version that it finds then; when that
   fails too, or the row is gone at the re-read, or there at the insert, it gives up.
   */
  lemma ConflictIsRetriedOnce(s: State, w: nat)
    requires w in s.writers && s.writers[w].phase == HasRead
    requires s.row.Some? && s.row.value.version != s.writers[w].expected
    ensures var me := s.writers[w];
            var v := s.row.value.version;
            && Valid(s, [Update(w), LookAgain(w)])
            && Exec(s, [Update(w), LookAgain(w)]).row == s.row
            && (me.retrying ==> InPhase(Exec(s, [Update(w), LookAgain(w)]), w, Raised))
            && (!me.retrying ==>
                  && Valid(s, [Update(w), LookAgain(w), Reread(w), Update(w)])
                  && var s' := Exec(s, [Update(w), LookAgain(w), Reread(w), Update(w)]);
                     && s'.row == Some(Detail(v + 1, me.seen)) && InPhase(s', w, Done(v + 1))
                     && s'.log == s.log + [Write(w, v, |s.past|, v, me.seen)])
  {
    var s1 := Apply(s, Update(w));
    var s2 := Apply(s1, LookAgain(w));
    assert Valid(s2, []) && Exec(s2, []) == s2;
    Cons(s1, LookAgain(w), s2, []);
    Cons(s, Update(w), s1, [LookAgain(w)] + []);
    assert [Update(w)] + ([LookAgain(w)] + []) == [Update(w), LookAgain(w)];
    if !s.writers[w].retrying {
      var s3 := Apply(s2, Reread(w));
      var s4 := Apply(s3, Update(w));
      assert Valid(s4, []) && Exec(s4, []) == s4;
      Cons(s3, Update(w), s4, []);
      Cons(s2, Reread(w), s3, [Update(w)] + []);
      Cons(s1, LookAgain(w), s2, [Reread(w)] + ([Update(w)] + []));
      Cons(s, Update(w), s1, [LookAgain(w)] + ([Reread(w)] + ([Update(w)] + [])));
      assert [Update(w)] + ([LookAgain(w)] + ([Reread(w)] + ([Update(w)] + [])))
          == [Update(w), LookAgain(w), Reread(w), Update(w)];
    }
  }

  lemma GivingUp(s: State, w: nat)
    ensures InPhase(s, w, Conflicted) && s.row.None? ==>
              Enabled(s, Reread(w)) && Apply(s, Reread(w)) == Goto(s, w, Raised)
    ensures InPhase(s, w, Inserting) && s.row.Some? ==>
              Enabled(s, Insert(w)) && Apply(s, Insert(w)) == Goto(s, w, Raised)
  {
  }

  /** A deletion ends the chain at any time, and leaves every writer as it was. */
  lemma DeletionEndsTheChain(s: State)
    ensures Enabled(s, Delete)
    ensures Apply(s, Delete).row == None && Apply(s, Delete).log == [] && Apply(s, Delete).writers == s.writers
    ensures Apply(s, Delete).past == s.past + [s.log]
  {
  }

  /**
   A writer that ends its persist successfully, at its first try or at its retry, has just put its own
   observation at exactly the version it replaced plus one.
   */
  lemma SuccessLeavesOwnObservation(s: State, e: Event, w: nat)
    requires Inv(s) && Enabled(s, e)
    requires w in s.writers && !s.writers[w].phase.Done?
    requires w in Apply(s, e).writers && Apply(s, e).writers[w].phase.Done?
    ensures Apply(s, e).row == Some(Detail(VersionOf(s.row) + 1, s.writers[w].seen))
    ensures Apply(s, e).writers[w].phase == Done(VersionOf(s.row) + 1)
    ensures var me := s.writers[w];
            Apply(s, e).log == s.log + [Write(w, me.expected, me.epoch, VersionOf(s.row), me.seen)]
  {
  }
}
