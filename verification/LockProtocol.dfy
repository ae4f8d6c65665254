/**
 Any number of workers around the lock of one domain: acquire, check the stored detail a second
 time, stamp the observation, persist it, leave and release. Time passes between any two steps,
 replies get lost, workers die inside, tokens are released late and repeatedly, and the detail row
 is deleted now and then. Times, and the freshness window, are in milliseconds.
 */
module LockProtocol {
  import opened Records
  import opened DomainLock

  datatype Stage = Entered | FoundStale | Stamped(fetchedAt: int) | Persisted

  /** `born` records when each token's SET was executed; `log` what was persisted since the row was last deleted. */
  datatype State = State(
    now: int,
    key: Option<Entry>,
    born: map<nat, int>,
    inside: map<nat, Stage>,
    detail: Option<int>,
    log: seq<int>)

  datatype Event =
    | Advance(millis: nat)
    | Acquire(token: nat)
    | AcquireAnswerLost(token: nat)
    | CheckStale(token: nat)
    | Stamp(token: nat)
    | Persist(token: nat)
    | Leave(token: nat)
    | Release(token: nat)
    | DeleteDetail

  /** The second freshness check: a row is reused while its age is at most the freshness window. */
  predicate Fresh(detail: Option<int>, now: int, freshness: nat) {
    detail.Some? && now - detail.value <= freshness
  }

  predicate Enabled(freshness: nat, s: State, e: Event) {
    match e
    case Advance(_) => true
    case Acquire(t) => t !in s.born
    case AcquireAnswerLost(t) => t !in s.born
    case CheckStale(t) => t in s.inside && s.inside[t].Entered? && !Fresh(s.detail, s.now, freshness)
    case Stamp(t) => t in s.inside && s.inside[t].FoundStale?
    case Persist(t) => t in s.inside && s.inside[t].Stamped?
    case Leave(t) => t in s.inside
    case Release(t) => t !in s.inside
    case DeleteDetail => true
  }

  function Apply(freshness: nat, s: State, e: Event): State
    requires Enabled(freshness, s, e)
  {
    match e
    case Advance(d) => s.(now := s.now + d)
    case Acquire(t) =>
      if LiveAt(s.key, s.now) then s
      else s.(key := AfterSetNx(s.key, t, s.now), born := s.born[t := s.now], inside := s.inside[t := Entered])
    case AcquireAnswerLost(t) =>
      if LiveAt(s.key, s.now) then s
      else s.(key := AfterSetNx(s.key, t, s.now), born := s.born[t := s.now])
    case CheckStale(t) => s.(inside := s.inside[t := FoundStale])
    case Stamp(t) => s.(inside := s.inside[t := Stamped(s.now)])
    case Persist(t) =>
      var at := s.inside[t].fetchedAt;
      s.(inside := s.inside[t := Persisted], detail := Some(at), log := s.log + [at])
    case Leave(t) => s.(inside := s.inside - {t})
    case Release(t) => s.(key := AfterRelease(s.key, t, s.now))
    case DeleteDetail => s.(detail := None, log := [])
  }

  ghost predicate Valid(freshness: nat, s: State, es: seq<Event>)
    decreases |es|
  {
    es == [] || (Enabled(freshness, s, es[0]) && Valid(freshness, Apply(freshness, s, es[0]), es[1..]))
  }

  ghost function Exec(freshness: nat, s: State, es: seq<Event>): State
    requires Valid(freshness, s, es)
    decreases |es|
  {
    if es == [] then s else Exec(freshness, Apply(freshness, s, es[0]), es[1..])
  }

  function Start(now: int): State {
    State(now, None, map[], map[], None, [])
  }

  /** The worker's sixty seconds are not over. */
  predicate OnTime(s: State, t: nat) {
    t in s.born && s.now < s.born[t] + TTL_MILLIS
  }

  /** The worker acquired the lock sixty seconds ago or more. */
  predicate Overdue(s: State, t: nat) {
    t in s.born && s.now - s.born[t] >= TTL_MILLIS
  }

  ghost predicate LockInv(s: State) {
    && (forall t :: t in s.inside ==> t in s.born)
    && (forall t :: t in s.born ==> s.born[t] <= s.now)
    && (s.key.Some? ==> s.key.value.token in s.born && s.key.value.expiresAt == s.born[s.key.value.token] + TTL_MILLIS)
    && (forall t :: t in s.inside && OnTime(s, t) ==> s.key.Some? && s.key.value.token == t)
  }

  lemma StepKeepsLock(freshness: nat, s: State, e: Event)
    requires LockInv(s) && Enabled(freshness, s, e)
    ensures LockInv(Apply(freshness, s, e))
  {
    var s' := Apply(freshness, s, e);
    forall t | t in s'.inside && OnTime(s', t) ensures s'.key.Some? && s'.key.value.token == t {
      assert t in s.inside ==> OnTime(s, t);
    }
  }

  lemma {:induction false} RunKeepsLock(freshness: nat, s: State, es: seq<Event>)
    requires LockInv(s) && Valid(freshness, s, es)
    ensures LockInv(Exec(freshness, s, es))
    decreases |es|
  {
    if es != [] {
      StepKeepsLock(freshness, s, es[0]);
      RunKeepsLock(freshness, Apply(freshness, s, es[0]), es[1..]);
    }
  }

  /**
   Lock safety modulo the time to live, in every reachable state: a worker inside whose sixty seconds
   are not over still owns the key, whatever was released, late or repeatedly, by anybody; so two
   workers inside means that one of them acquired the lock sixty seconds ago or more.
   */
  lemma MutualExclusionModuloTtl(freshness: nat, now: int, es: seq<Event>, t: nat, u: nat)
    requires Valid(freshness, Start(now), es)
    ensures var s := Exec(freshness, Start(now), es);
            && (t in s.inside && !Overdue(s, t) ==> t in s.born && s.key == Some(Entry(t, s.born[t] + TTL_MILLIS)))
            && (t in s.inside && u in s.inside && t != u ==> Overdue(s, t) || Overdue(s, u))
  {
    RunKeepsLock(freshness, Start(now), es);
  }

  /** In every reachable state a release removes nothing but the key of its own token, whose owner has left. */
  lemma ReleaseRemovesOnlyItsOwnKey(freshness: nat, now: int, es: seq<Event>, t: nat)
    requires Valid(freshness, Start(now), es)
    requires Enabled(freshness, Exec(freshness, Start(now), es), Release(t))
    ensures var s := Exec(freshness, Start(now), es);
            var s' := Apply(freshness, s, Release(t));
            s'.key != s.key ==>
              && t in s.born && s.key == Some(Entry(t, s.born[t] + TTL_MILLIS)) && s'.key == None
              && t !in s.inside && forall u :: u in s.inside ==> Overdue(s, u)
  {
    RunKeepsLock(freshness, Start(now), es);
  }

  /** A free lock is given to whoever asks: the key is its for sixty seconds, and it is inside. */
  lemma FreeLockIsGiven(freshness: nat, s: State, t: nat)
    requires Enabled(freshness, s, Acquire(t)) && !LiveAt(s.key, s.now)
    ensures var s' := Apply(freshness, s, Acquire(t));
            && s'.key == Some(Entry(t, s.now + 60000))
            && s'.inside == s.inside[t := Entered] && s'.born == s.born[t := s.now]
  {
  }

  /** A held one is not, and nothing changes. */
  lemma HeldLockIsRefused(freshness: nat, s: State, t: nat)
    requires Enabled(freshness, s, Acquire(t)) && LiveAt(s.key, s.now)
    ensures Apply(freshness, s, Acquire(t)) == s
  {
  }

  /** The owner's release frees the lock at once. */
  lemma ReleaseFreesTheLock(freshness: nat, s: State, t: nat)
    requires Enabled(freshness, s, Release(t)) && s.key.Some? && s.key.value.token == t && s.now < s.key.value.expiresAt
    ensures Apply(freshness, s, Release(t)) == s.(key := None)
  {
  }

  /** A command whose answer is lost takes a free lock all the same, though nobody is inside. */
  lemma LostAnswerHoldsTheLock(freshness: nat, s: State, t: nat)
    requires t !in s.born
    ensures Enabled(freshness, s, AcquireAnswerLost(t))
    ensures Apply(freshness, s, AcquireAnswerLost(t))
         == if LiveAt(s.key, s.now) then s
            else s.(key := Some(Entry(t, s.now + 60000)), born := s.born[t := s.now])
  {
  }

  /** The second check lets a worker go on exactly when there is no row, or one older than the window. */
  lemma SecondCheckIsExact(freshness: nat, s: State, t: nat)
    requires t in s.inside && s.inside[t].Entered?
    ensures Enabled(freshness, s, CheckStale(t))
            <==> s.detail == None || s.now - s.detail.value > freshness
    ensures Enabled(freshness, s, CheckStale(t)) ==>
              Apply(freshness, s, CheckStale(t)) == s.(inside := s.inside[t := FoundStale])
  {
  }

  /** Each later stage follows on the one before it only. */
  lemma StagesFollow(freshness: nat, s: State, t: nat)
    ensures Enabled(freshness, s, CheckStale(t)) ==> t in s.inside && s.inside[t] == Entered
    ensures Enabled(freshness, s, Stamp(t)) <==> t in s.inside && s.inside[t] == FoundStale
    ensures Enabled(freshness, s, Persist(t)) <==> t in s.inside && s.inside[t].Stamped?
    ensures Enabled(freshness, s, Leave(t)) <==> t in s.inside
    ensures Enabled(freshness, s, Release(t)) <==> t !in s.inside
  {
  }

  /** A worker leaves at any stage, and a row is deleted at any time; neither touches anything else. */
  lemma LeavingAndDeleting(freshness: nat, s: State, t: nat)
    ensures t in s.inside ==> Apply(freshness, s, Leave(t)) == s.(inside := s.inside - {t})
    ensures Enabled(freshness, s, DeleteDetail)
    ensures Apply(freshness, s, DeleteDetail) == s.(detail := None, log := [])
  {
  }

  /** A worker alone with a free lock and no fresh row gets through: its observation is stored and the lock is free. */
  lemma AloneWorkerPersists(freshness: nat, s: State, t: nat)
    requires t !in s.born && t !in s.inside && !LiveAt(s.key, s.now)
    requires s.detail.None? || s.now - s.detail.value > freshness
    ensures var es := [Acquire(t), CheckStale(t), Stamp(t), Persist(t), Leave(t), Release(t)];
            && Valid(freshness, s, es)
            && Exec(freshness, s, es)
               == s.(key := None, born := s.born[t := s.now], detail := Some(s.now), log := s.log + [s.now])
  {
    var s1 := Apply(freshness, s, Acquire(t));
    var s2 := Apply(freshness, s1, CheckStale(t));
    var s3 := Apply(freshness, s2, Stamp(t));
    var s4 := Apply(freshness, s3, Persist(t));
    var s5 := Apply(freshness, s4, Leave(t));
    var s6 := Apply(freshness, s5, Release(t));
    assert s5.inside == s.inside;
    assert Valid(freshness, s6, []) && Exec(freshness, s6, []) == s6;
    Cons(freshness, s5, Release(t), s6, []);
    Cons(freshness, s4, Leave(t), s5, [Release(t)] + []);
    Cons(freshness, s3, Persist(t), s4, [Leave(t)] + ([Release(t)] + []));
    Cons(freshness, s2, Stamp(t), s3, [Persist(t)] + ([Leave(t)] + ([Release(t)] + [])));
    Cons(freshness, s1, CheckStale(t), s2, [Stamp(t)] + ([Persist(t)] + ([Leave(t)] + ([Release(t)] + []))));
    var rest := [CheckStale(t)] + ([Stamp(t)] + ([Persist(t)] + ([Leave(t)] + ([Release(t)] + []))));
    Cons(freshness, s, Acquire(t), s1, rest);
    assert [Acquire(t)] + rest == [Acquire(t), CheckStale(t), Stamp(t), Persist(t), Leave(t), Release(t)];
  }

  // ---- Spacing of observations ----

  ghost predicate Spaced(freshness: nat, log: seq<int>) {
    forall i :: 0 <= i < |log| - 1 ==> log[i + 1] - log[i] > freshness
  }

  ghost predicate SpacingInv(freshness: nat, s: State) {
    && (s.detail == if s.log == [] then None else Some(s.log[|s.log| - 1]))
    && Spaced(freshness, s.log)
    && (forall t :: t in s.inside && OnTime(s, t) && s.inside[t].FoundStale? ==> !Fresh(s.detail, s.now, freshness))
    && (forall t :: t in s.inside && OnTime(s, t) && s.inside[t].Stamped? ==>
          !Fresh(s.detail, s.inside[t].fetchedAt, freshness))
  }

  /** Every persist of the run happens within sixty seconds of its worker's acquisition. */
  ghost predicate PersistsOnTime(freshness: nat, s: State, es: seq<Event>)
    requires Valid(freshness, s, es)
    decreases |es|
  {
    es == [] ||
    ((es[0].Persist? ==> OnTime(s, es[0].token)) && PersistsOnTime(freshness, Apply(freshness, s, es[0]), es[1..]))
  }

  lemma PersistKeepsSpacing(freshness: nat, s: State, t: nat)
    requires LockInv(s) && SpacingInv(freshness, s) && Enabled(freshness, s, Persist(t)) && OnTime(s, t)
    ensures SpacingInv(freshness, Apply(freshness, s, Persist(t)))
  {
    var s' := Apply(freshness, s, Persist(t));
    assert forall u :: u in s'.inside && OnTime(s', u) ==> u == t;
    forall i | 0 <= i < |s'.log| - 1 ensures s'.log[i + 1] - s'.log[i] > freshness {
      if i == |s.log| - 1 {
        assert s.detail == Some(s.log[i]);
      }
    }
  }

  lemma StepKeepsSpacing(freshness: nat, s: State, e: Event)
    requires LockInv(s) && SpacingInv(freshness, s) && Enabled(freshness, s, e)
    requires e.Persist? ==> OnTime(s, e.token)
    ensures SpacingInv(freshness, Apply(freshness, s, e))
  {
    if e.Persist? {
      PersistKeepsSpacing(freshness, s, e.token);
    } else {
      var s' := Apply(freshness, s, e);
      forall t | t in s'.inside && OnTime(s', t) ensures t in s.inside ==> OnTime(s, t) {
      }
    }
  }

  lemma {:induction false} RunKeepsSpacing(freshness: nat, s: State, es: seq<Event>)
    requires LockInv(s) && SpacingInv(freshness, s) && Valid(freshness, s, es) && PersistsOnTime(freshness, s, es)
    ensures SpacingInv(freshness, Exec(freshness, s, es))
    decreases |es|
  {
    if es != [] {
      StepKeepsLock(freshness, s, es[0]);
      StepKeepsSpacing(freshness, s, es[0]);
      RunKeepsSpacing(freshness, Apply(freshness, s, es[0]), es[1..]);
    }
  }

  /**
   Observation spacing: if every holder persists before its time to live is over, then between
   deletions of the row, consecutive persisted observations lie more than the freshness window apart,
   in every run of any number of workers.
   */
  lemma ObservationsAreSpaced(freshness: nat, now: int, es: seq<Event>, i: nat)
    requires Valid(freshness, Start(now), es) && PersistsOnTime(freshness, Start(now), es)
    requires i + 1 < |Exec(freshness, Start(now), es).log|
    ensures var log := Exec(freshness, Start(now), es).log;
            log[i + 1] - log[i] > freshness
  {
    RunKeepsSpacing(freshness, Start(now), es);
  }

  lemma Cons(freshness: nat, s: State, e: Event, s': State, es: seq<Event>)
    requires Enabled(freshness, s, e) && Apply(freshness, s, e) == s' && Valid(freshness, s', es)
    ensures Valid(freshness, s, [e] + es) && Exec(freshness, s, [e] + es) == Exec(freshness, s', es)
  {
    assert ([e] + es)[1..] == es;
  }

  function TwoInside(now: int, a: Stage, b: Stage, detail: Option<int>, log: seq<int>): State {
    var later := now + TTL_MILLIS;
    State(later, Some(Entry(1, later + TTL_MILLIS)), map[0 := now, 1 := later], map[0 := a, 1 := b], detail, log)
  }

  lemma BothPersist(freshness: nat, now: int) returns (es: seq<Event>)
    ensures Valid(freshness, TwoInside(now, FoundStale, FoundStale, None, []), es)
    ensures Exec(freshness, TwoInside(now, FoundStale, FoundStale, None, []), es).log
         == [now + TTL_MILLIS, now + TTL_MILLIS]
  {
    var later := now + TTL_MILLIS;
    var s5 := TwoInside(now, FoundStale, FoundStale, None, []);
    var s6 := TwoInside(now, Stamped(later), FoundStale, None, []);
    var s7 := TwoInside(now, Stamped(later), Stamped(later), None, []);
    var s8 := TwoInside(now, Persisted, Stamped(later), Some(later), [later]);
    var s9 := TwoInside(now, Persisted, Persisted, Some(later), [later, later]);
    assert Valid(freshness, s9, []) && Exec(freshness, s9, []) == s9;
    Cons(freshness, s8, Persist(1), s9, []);
    Cons(freshness, s7, Persist(0), s8, [Persist(1)] + []);
    Cons(freshness, s6, Stamp(1), s7, [Persist(0)] + ([Persist(1)] + []));
    Cons(freshness, s5, Stamp(0), s6, [Stamp(1)] + ([Persist(0)] + ([Persist(1)] + [])));
    es := [Stamp(0)] + ([Stamp(1)] + ([Persist(0)] + ([Persist(1)] + [])));
  }

  lemma BothEnter(freshness: nat, now: int, more: seq<Event>) returns (es: seq<Event>)
    requires Valid(freshness, TwoInside(now, FoundStale, FoundStale, None, []), more)
    ensures Valid(freshness, Start(now), es)
    ensures Exec(freshness, Start(now), es)
         == Exec(freshness, TwoInside(now, FoundStale, FoundStale, None, []), more)
  {
    var later := now + TTL_MILLIS;
    var k0 := Some(Entry(0, later));
    var s1 := State(now, k0, map[0 := now], map[0 := Entered], None, []);
    var s2 := State(now, k0, map[0 := now], map[0 := FoundStale], None, []);
    var s3 := State(later, k0, map[0 := now], map[0 := FoundStale], None, []);
    var s4 := TwoInside(now, FoundStale, Entered, None, []);
    Cons(freshness, s4, CheckStale(1), TwoInside(now, FoundStale, FoundStale, None, []), more);
    es := [CheckStale(1)] + more;
    Cons(freshness, s3, Acquire(1), s4, es);
    es := [Acquire(1)] + es;
    Cons(freshness, s2, Advance(TTL_MILLIS), s3, es);
    es := [Advance(TTL_MILLIS)] + es;
    Cons(freshness, s1, CheckStale(0), s2, es);
    es := [CheckStale(0)] + es;
    Cons(freshness, Start(now), Acquire(0), s1, es);
    es := [Acquire(0)] + es;
  }

  /** Late persists do break the spacing, for every freshness window: two observations of the same moment. */
  lemma LatePersistBreaksSpacing(freshness: nat, now: int) returns (es: seq<Event>)
    ensures Valid(freshness, Start(now), es)
    ensures Exec(freshness, Start(now), es).log == [now + TTL_MILLIS, now + TTL_MILLIS]
  {
    var more := BothPersist(freshness, now);
    es := BothEnter(freshness, now, more);
  }
}
