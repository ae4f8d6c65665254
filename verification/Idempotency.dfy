/**
 Concurrent job-creation requests against the unique (client_id, idempotency_key) constraint. Each
 request is a transaction: insert a job and an idempotency record inside a savepoint, insert the tasks,
 commit; or find the key taken and answer from the committed record. While another transaction holds
 an uncommitted record for the key, the insert waits. Any transaction can fail before it commits, and
 the acknowledgement of a commit can be lost. The request hash is taken to be injective, so the
 canonical payload stands for it.
 */
module Idempotency {
  import opened Records
  import JobCreation
  import CanonicalForm
  import Normalization

  datatype Scope = Scope(client: string, key: string)

  /** 202, 200, 409 and 500. An `Unconfirmed` answer is a 500 too: the job is committed, but nobody was told. */
  datatype Answer = Created(job: nat) | Replayed(job: nat) | KeyConflict | ServerError | Unconfirmed(job: nat)

  /** What the service makes of a payload: the string that is hashed, and the tasks of a job for it. */
  datatype Api<!P, !T> = Api(canonical: P -> string, tasks: P -> T)

  datatype Phase = Received | Inserted(job: nat) | WithTasks(job: nat) | Replaying(job: nat) | Answered(answer: Answer)

  /** One request at work: its scope (none without a key) and its payload. */
  datatype Request<P> = Request(scope: Option<Scope>, payload: P, phase: Phase)

  datatype Record = Record(canonical: string, job: nat)

  /** The committed tables, the requests, and which request generated which job id. */
  datatype State<P, T> = State(
    records: map<Scope, Record>,
    jobs: set<nat>,
    tasks: map<nat, T>,
    requests: map<nat, Request<P>>,
    issuer: map<nat, nat>)

  datatype Event<P> =
    | Receive(r: nat, client: Option<string>, requestId: string, key: string, payload: P)
    | InsertJob(r: nat, job: nat)
    | FindTaken(r: nat)
    | InsertTasks(r: nat)
    | Commit(r: nat)
    | CommitUnacknowledged(r: nat)
    | Fail(r: nat)

  /** Anonymous clients are scoped by their request id; an empty header counts as missing. */
  function ScopeOf(client: Option<string>, requestId: string, key: string): Option<Scope> {
    if key == "" then None
    else Some(Scope(if client.Some? && client.value != "" then client.value else requestId, key))
  }

  /** Keys of different named clients, and of different anonymous requests, never meet. */
  lemma ScopesSeparate(a: Option<string>, b: Option<string>, idA: string, idB: string, keyA: string, keyB: string)
    requires keyA != "" && keyB != ""
    ensures a.Some? && a.value != "" && b.Some? && b.value != "" ==>
              (ScopeOf(a, idA, keyA) == ScopeOf(b, idB, keyB) <==> a == b && keyA == keyB)
    ensures (a.None? || a.value == "") && (b.None? || b.value == "") ==>
              (ScopeOf(a, idA, keyA) == ScopeOf(b, idB, keyB) <==> idA == idB && keyA == keyB)
  {
  }

  predicate Open(p: Phase) {
    p.Inserted? || p.WithTasks?
  }

  predicate At<P, T>(s: State<P, T>, r: nat) {
    r in s.requests
  }

  /** Some open transaction holds an uncommitted record for the scope. */
  predicate ScopeHeld<P, T>(s: State<P, T>, k: Scope) {
    exists r :: r in s.requests && Open(s.requests[r].phase) && s.requests[r].scope == Some(k)
  }

  predicate Enabled<P, T>(s: State<P, T>, e: Event<P>) {
    match e
    case Receive(r, _, _, _, _) => !At(s, r)
    case InsertJob(r, job) =>
      && At(s, r) && s.requests[r].phase.Received? && job !in s.issuer
      && (s.requests[r].scope.Some? ==>
            s.requests[r].scope.value !in s.records && !ScopeHeld(s, s.requests[r].scope.value))
    case FindTaken(r) =>
      At(s, r) && s.requests[r].phase.Received? && s.requests[r].scope.Some? && s.requests[r].scope.value in s.records
    case InsertTasks(r) => At(s, r) && s.requests[r].phase.Inserted?
    case Commit(r) => At(s, r) && (s.requests[r].phase.WithTasks? || s.requests[r].phase.Replaying?)
    case CommitUnacknowledged(r) => At(s, r) && s.requests[r].phase.WithTasks?
    case Fail(r) => At(s, r) && !s.requests[r].phase.Answered?
  }

  function Goto<P, T>(s: State<P, T>, r: nat, p: Phase): State<P, T>
    requires At(s, r)
  {
    s.(requests := s.requests[r := s.requests[r].(phase := p)])
  }

  function Apply<P, T>(api: Api<P, T>, s: State<P, T>, e: Event<P>): State<P, T>
    requires Enabled(s, e)
  {
    match e
    case Receive(r, client, id, key, payload) =>
      s.(requests := s.requests[r := Request(ScopeOf(client, id, key), payload, Received)])
    case InsertJob(r, job) => Goto(s, r, Inserted(job)).(issuer := s.issuer[job := r])
    case FindTaken(r) =>
      var record := s.records[s.requests[r].scope.value];
      Goto(s, r, Decision(api, s.requests[r].payload, record))
    case InsertTasks(r) => Goto(s, r, WithTasks(s.requests[r].phase.job))
    case Commit(r) =>
      if s.requests[r].phase.Replaying? then Goto(s, r, Answered(Replayed(s.requests[r].phase.job)))
      else CommitJob(api, s, r, Created(s.requests[r].phase.job))
    case CommitUnacknowledged(r) => CommitJob(api, s, r, Unconfirmed(s.requests[r].phase.job))
    case Fail(r) => Goto(s, r, Answered(ServerError))
  }

  /** What a request finds when its key is taken. */
  function Decision<P, T>(api: Api<P, T>, payload: P, record: Record): Phase {
    if record.canonical == api.canonical(payload) then Replaying(record.job) else Answered(KeyConflict)
  }

  function CommitJob<P, T>(api: Api<P, T>, s: State<P, T>, r: nat, answer: Answer): State<P, T>
    requires At(s, r) && s.requests[r].phase.WithTasks?
  {
    var q := s.requests[r];
    var job := q.phase.job;
    Goto(s, r, Answered(answer)).(
      records := if q.scope.None? then s.records
                 else s.records[q.scope.value := Record(api.canonical(q.payload), job)],
      jobs := s.jobs + {job},
      tasks := s.tasks[job := api.tasks(q.payload)])
  }

  ghost predicate Valid<P, T>(api: Api<P, T>, s: State<P, T>, es: seq<Event<P>>)
    decreases |es|
  {
    es == [] || (Enabled(s, es[0]) && Valid(api, Apply(api, s, es[0]), es[1..]))
  }

  ghost function Exec<P, T>(api: Api<P, T>, s: State<P, T>, es: seq<Event<P>>): State<P, T>
    requires Valid(api, s, es)
    decreases |es|
  {
    if es == [] then s else Exec(api, Apply(api, s, es[0]), es[1..])
  }

  function Start<P, T>(): State<P, T> {
    State(map[], {}, map[], map[], map[])
  }

  // ---- Invariant ----

  predicate Recorded<P, T>(s: State<P, T>, scope: Option<Scope>, canonical: string, job: nat) {
    scope.Some? && scope.value in s.records && s.records[scope.value] == Record(canonical, job)
  }

  predicate Issued<P, T>(s: State<P, T>, r: nat, job: nat) {
    job in s.issuer && s.issuer[job] == r
  }

  /** The request has committed the job, whether or not it could say so. */
  predicate Made(p: Phase, job: nat) {
    p == Answered(Created(job)) || p == Answered(Unconfirmed(job))
  }

  /** What each request may rely on in its phase, and what its answer said. */
  ghost predicate RequestSound<P, T>(api: Api<P, T>, s: State<P, T>, r: nat)
    requires At(s, r)
  {
    var q := s.requests[r];
    var canonical := api.canonical(q.payload);
    match q.phase
    case Received => true
    case Inserted(j) => Issued(s, r, j) && (q.scope.Some? ==> q.scope.value !in s.records)
    case WithTasks(j) => Issued(s, r, j) && (q.scope.Some? ==> q.scope.value !in s.records)
    case Replaying(j) => Recorded(s, q.scope, canonical, j)
    case Answered(Replayed(j)) => Recorded(s, q.scope, canonical, j)
    case Answered(Created(j)) => MadeSound(api, s, r, j)
    case Answered(Unconfirmed(j)) => MadeSound(api, s, r, j)
    case Answered(KeyConflict) =>
      q.scope.Some? && q.scope.value in s.records && s.records[q.scope.value].canonical != canonical
    case Answered(ServerError) => true
  }

  ghost predicate MadeSound<P, T>(api: Api<P, T>, s: State<P, T>, r: nat, j: nat)
    requires At(s, r)
  {
    var q := s.requests[r];
    && Issued(s, r, j) && j in s.jobs && j in s.tasks && s.tasks[j] == api.tasks(q.payload)
    && (q.scope.Some? ==> Recorded(s, q.scope, api.canonical(q.payload), j))
  }

  /** A committed job was generated by a request that made it. */
  predicate JobSound<P, T>(s: State<P, T>, j: nat) {
    j in s.issuer && At(s, s.issuer[j]) && Made(s.requests[s.issuer[j]].phase, j)
  }

  /** A record names a committed job whose request has the record's scope. */
  predicate RecordSound<P, T>(s: State<P, T>, k: Scope)
    requires k in s.records
  {
    var j := s.records[k].job;
    j in s.jobs && JobSound(s, j) && s.requests[s.issuer[j]].scope == Some(k)
  }

  predicate SameOpenScope<P, T>(s: State<P, T>, r: nat, q: nat)
    requires At(s, r) && At(s, q)
  {
    && Open(s.requests[r].phase) && Open(s.requests[q].phase)
    && s.requests[r].scope.Some? && s.requests[r].scope == s.requests[q].scope
  }

  ghost predicate Inv<P, T>(api: Api<P, T>, s: State<P, T>) {
    && s.tasks.Keys == s.jobs
    && (forall r :: At(s, r) ==> RequestSound(api, s, r))
    && (forall j :: j in s.jobs ==> JobSound(s, j))
    && (forall k :: k in s.records ==> RecordSound(s, k))
    && (forall j :: j in s.issuer ==> At(s, s.issuer[j]))
    && (forall r, q :: At(s, r) && At(s, q) && SameOpenScope(s, r, q) ==> r == q)
  }

  /** A request that changes nothing but its own phase keeps the rest of the invariant, if it was not done. */
  lemma GotoKeepsInv<P, T>(api: Api<P, T>, s: State<P, T>, r: nat, p: Phase)
    requires Inv(api, s) && At(s, r) && !s.requests[r].phase.Answered?
    requires RequestSound(api, Goto(s, r, p), r)
    requires Open(p) ==> Open(s.requests[r].phase)
    requires p.Answered? ==> !p.answer.Created? && !p.answer.Unconfirmed?
    ensures Inv(api, Goto(s, r, p))
  {
    var s' := Goto(s, r, p);
    forall q | At(s', q) ensures RequestSound(api, s', q) {
      if q != r {
        assert At(s, q) && RequestSound(api, s, q);
      }
    }
    forall j | j in s'.jobs ensures JobSound(s', j) {
      assert JobSound(s, j);
    }
    forall k | k in s'.records ensures RecordSound(s', k) {
      assert RecordSound(s, k);
    }
    forall a, b | At(s', a) && At(s', b) && SameOpenScope(s', a, b) ensures a == b {
      assert At(s, a) && At(s, b) && SameOpenScope(s, a, b);
    }
  }

  lemma InsertKeepsInv<P, T>(api: Api<P, T>, s: State<P, T>, e: Event<P>)
    requires Inv(api, s) && Enabled(s, e) && e.InsertJob?
    ensures Inv(api, Apply(api, s, e))
  {
    var s' := Apply(api, s, e);
    forall q | At(s', q) ensures RequestSound(api, s', q) {
      if q != e.r {
        assert At(s, q) && RequestSound(api, s, q);
      }
    }
    forall j | j in s'.jobs ensures JobSound(s', j) {
      assert JobSound(s, j);
    }
    forall k | k in s'.records ensures RecordSound(s', k) {
      assert RecordSound(s, k);
    }
    forall a, b | At(s', a) && At(s', b) && SameOpenScope(s', a, b) ensures a == b {
      if a != e.r && b != e.r {
        assert At(s, a) && At(s, b) && SameOpenScope(s, a, b);
      }
    }
  }

  lemma ReceiveKeepsInv<P, T>(api: Api<P, T>, s: State<P, T>, e: Event<P>)
    requires Inv(api, s) && Enabled(s, e) && e.Receive?
    ensures Inv(api, Apply(api, s, e))
  {
    var s' := Apply(api, s, e);
    forall q | At(s', q) ensures RequestSound(api, s', q) {
      if q != e.r {
        assert At(s, q) && RequestSound(api, s, q);
      }
    }
    forall j | j in s'.jobs ensures JobSound(s', j) {
      assert JobSound(s, j);
    }
    forall k | k in s'.records ensures RecordSound(s', k) {
      assert RecordSound(s, k);
    }
    forall a, b | At(s', a) && At(s', b) && SameOpenScope(s', a, b) ensures a == b {
      assert At(s, a) && At(s, b) && SameOpenScope(s, a, b);
    }
  }

  /** A commit that goes through, acknowledged or not. */
  ghost predicate Commits<P, T>(s: State<P, T>, r: nat, answer: Answer) {
    && At(s, r) && s.requests[r].phase.WithTasks?
    && Made(Answered(answer), s.requests[r].phase.job)
  }

  lemma CommitKeepsRequests<P, T>(api: Api<P, T>, s: State<P, T>, r: nat, answer: Answer, q: nat)
    requires Inv(api, s) && Commits(s, r, answer) && At(s, q)
    ensures RequestSound(api, CommitJob(api, s, r, answer), q)
  {
    var s' := CommitJob(api, s, r, answer);
    assert RequestSound(api, s, r) && RequestSound(api, s, q);
    if q != r {
      assert At(s, r) && At(s, q) && !SameOpenScope(s, r, q);
    }
  }

  lemma CommitKeepsRecords<P, T>(api: Api<P, T>, s: State<P, T>, r: nat, answer: Answer, k: Scope)
    requires Inv(api, s) && Commits(s, r, answer) && k in CommitJob(api, s, r, answer).records
    ensures RecordSound(CommitJob(api, s, r, answer), k)
  {
    assert RequestSound(api, s, r);
    if Some(k) != s.requests[r].scope {
      assert RecordSound(s, k);
    }
  }

  lemma CommitKeepsInv<P, T>(api: Api<P, T>, s: State<P, T>, r: nat, answer: Answer)
    requires Inv(api, s) && Commits(s, r, answer)
    ensures var s' := CommitJob(api, s, r, answer);
            Inv(api, s') && forall k :: k in s.records ==> k in s'.records && s'.records[k] == s.records[k]
  {
    var s' := CommitJob(api, s, r, answer);
    var job := s.requests[r].phase.job;
    assert RequestSound(api, s, r);
    forall q | At(s', q) ensures RequestSound(api, s', q) {
      CommitKeepsRequests(api, s, r, answer, q);
    }
    forall j | j in s'.jobs ensures JobSound(s', j) {
      assert j != job ==> JobSound(s, j);
    }
    forall k | k in s'.records ensures RecordSound(s', k) {
      CommitKeepsRecords(api, s, r, answer, k);
    }
    forall a, b | At(s', a) && At(s', b) && SameOpenScope(s', a, b) ensures a == b {
      assert At(s, a) && At(s, b) && SameOpenScope(s, a, b);
    }
  }

  lemma StepKeepsInv<P, T>(api: Api<P, T>, s: State<P, T>, e: Event<P>)
    requires Inv(api, s) && Enabled(s, e)
    ensures Inv(api, Apply(api, s, e))
    ensures forall k :: k in s.records ==> k in Apply(api, s, e).records && Apply(api, s, e).records[k] == s.records[k]
  {
    match e
    case Receive(_, _, _, _, _) => ReceiveKeepsInv(api, s, e);
    case InsertJob(_, _) => InsertKeepsInv(api, s, e);
    case FindTaken(r) =>
      var record := s.records[s.requests[r].scope.value];
      GotoKeepsInv(api, s, r, Decision(api, s.requests[r].payload, record));
    case InsertTasks(r) =>
      assert RequestSound(api, s, r);
      GotoKeepsInv(api, s, r, WithTasks(s.requests[r].phase.job));
    case Commit(r) =>
      assert RequestSound(api, s, r);
      if s.requests[r].phase.Replaying? {
        GotoKeepsInv(api, s, r, Answered(Replayed(s.requests[r].phase.job)));
      } else {
        CommitKeepsInv(api, s, r, Created(s.requests[r].phase.job));
      }
    case CommitUnacknowledged(r) => CommitKeepsInv(api, s, r, Unconfirmed(s.requests[r].phase.job));
    case Fail(r) => GotoKeepsInv(api, s, r, Answered(ServerError));
  }

  lemma {:induction false} RunKeepsInv<P, T>(api: Api<P, T>, s: State<P, T>, es: seq<Event<P>>)
    requires Inv(api, s) && Valid(api, s, es)
    ensures Inv(api, Exec(api, s, es))
    ensures forall k :: k in s.records ==> k in Exec(api, s, es).records && Exec(api, s, es).records[k] == s.records[k]
    decreases |es|
  {
    if es != [] {
      StepKeepsInv(api, s, es[0]);
      RunKeepsInv(api, Apply(api, s, es[0]), es[1..]);
    }
  }

  // ---- Main results ----

  /** The job id that a 200 or 202 answer carries. */
  function AnsweredJob(p: Phase): Option<nat> {
    if p.Answered? && (p.answer.Created? || p.answer.Replayed?) then Some(p.answer.job) else None
  }

  /** The job that a request was answered with, or committed without being able to answer. */
  function JobOf(p: Phase): Option<nat> {
    if p.Answered? && p.answer.Unconfirmed? then Some(p.answer.job) else AnsweredJob(p)
  }

  /**
   Exactly-once creation, in every reachable state of any interleaving. Two requests under the same
   client and key that answered 200 or 202, or committed a job unacknowledged, have the same job and came
   with the same canonical payload; the job is committed with the tasks of the request that made it.
   */
  lemma ExactlyOnce<P, T>(api: Api<P, T>, es: seq<Event<P>>, r: nat, q: nat)
    requires Valid(api, Start<P, T>(), es)
    requires var s := Exec(api, Start<P, T>(), es);
             && At(s, r) && At(s, q) && s.requests[r].scope.Some? && s.requests[r].scope == s.requests[q].scope
             && JobOf(s.requests[r].phase).Some? && JobOf(s.requests[q].phase).Some?
    ensures var s := Exec(api, Start<P, T>(), es);
            var j := JobOf(s.requests[r].phase).value;
            && JobOf(s.requests[q].phase) == Some(j)
            && api.canonical(s.requests[r].payload) == api.canonical(s.requests[q].payload)
            && j in s.jobs && j in s.tasks
            && j in s.issuer && At(s, s.issuer[j]) && s.tasks[j] == api.tasks(s.requests[s.issuer[j]].payload)
            && (Made(s.requests[r].phase, j) <==> s.issuer[j] == r)
  {
    RunKeepsInv(api, Start<P, T>(), es);
    var s := Exec(api, Start<P, T>(), es);
    assert RequestSound(api, s, r) && RequestSound(api, s, q);
    var j := JobOf(s.requests[r].phase).value;
    assert RecordSound(s, s.requests[r].scope.value);
    assert RequestSound(api, s, s.issuer[j]);
  }

  /** At most one committed job per client and key: two committed jobs of one scope are the same job. */
  lemma OneJobPerKey<P, T>(api: Api<P, T>, es: seq<Event<P>>, i: nat, j: nat)
    requires Valid(api, Start<P, T>(), es)
    requires var s := Exec(api, Start<P, T>(), es);
             && i in s.jobs && i in s.issuer && At(s, s.issuer[i])
             && j in s.jobs && j in s.issuer && At(s, s.issuer[j])
             && s.requests[s.issuer[i]].scope.Some? && s.requests[s.issuer[i]].scope == s.requests[s.issuer[j]].scope
    ensures i == j
  {
    RunKeepsInv(api, Start<P, T>(), es);
    var s := Exec(api, Start<P, T>(), es);
    assert JobSound(s, i) && JobSound(s, j);
    assert RequestSound(api, s, s.issuer[i]) && RequestSound(api, s, s.issuer[j]);
  }

  /**
   A request answered 409 exactly because its key stands for a different canonical payload: no request
   under that key with its payload was ever answered with a job, or made one.
   */
  lemma ConflictMeansDifferentPayload<P, T>(api: Api<P, T>, es: seq<Event<P>>, r: nat, q: nat)
    requires Valid(api, Start<P, T>(), es)
    requires var s := Exec(api, Start<P, T>(), es);
             && At(s, r) && At(s, q) && s.requests[r].scope == s.requests[q].scope
             && s.requests[r].phase == Answered(KeyConflict) && JobOf(s.requests[q].phase).Some?
    ensures var s := Exec(api, Start<P, T>(), es);
            api.canonical(s.requests[r].payload) != api.canonical(s.requests[q].payload)
  {
    RunKeepsInv(api, Start<P, T>(), es);
    var s := Exec(api, Start<P, T>(), es);
    assert RequestSound(api, s, r) && RequestSound(api, s, q);
  }

  /**
   A committed job stems from the request that made it and from no other: at every moment of every run a
   request has left a job with its tasks, or a record, behind if and only if it was answered 202 or its
   commit went through unacknowledged. One answered 200 or 409, rolled back, or still at work left none.
   */
  lemma OnlyMakersLeaveAnything<P, T>(api: Api<P, T>, es: seq<Event<P>>, r: nat)
    requires Valid(api, Start<P, T>(), es) && At(Exec(api, Start<P, T>(), es), r)
    ensures var s := Exec(api, Start<P, T>(), es);
            && s.tasks.Keys == s.jobs
            && (forall j :: j in s.jobs ==> j in s.issuer && (s.issuer[j] == r <==> Made(s.requests[r].phase, j)))
            && (forall j :: Made(s.requests[r].phase, j) ==> j in s.jobs)
            && (forall k :: k in s.records ==> s.records[k].job in s.jobs)
  {
    RunKeepsInv(api, Start<P, T>(), es);
    var s := Exec(api, Start<P, T>(), es);
    assert RequestSound(api, s, r);
    forall j | j in s.jobs ensures j in s.issuer && (s.issuer[j] == r <==> Made(s.requests[r].phase, j)) {
      assert JobSound(s, j);
    }
    forall k | k in s.records ensures s.records[k].job in s.jobs {
      assert RecordSound(s, k);
    }
  }

  /** The client as far as keys go: the named client, or the request itself when it is anonymous. */
  function EffectiveClient(client: Option<string>, requestId: string): string {
    if client.Some? && client.value != "" then client.value else requestId
  }

  lemma StepKeepsRequests<P, T>(api: Api<P, T>, s: State<P, T>, e: Event<P>, r: nat)
    requires Enabled(s, e) && At(s, r)
    ensures At(Apply(api, s, e), r)
    ensures Apply(api, s, e).requests[r].scope == s.requests[r].scope
    ensures Apply(api, s, e).requests[r].payload == s.requests[r].payload
  {
  }

  lemma {:induction false} RunKeepsRequests<P, T>(api: Api<P, T>, s: State<P, T>, es: seq<Event<P>>, r: nat)
    requires Valid(api, s, es) && At(s, r)
    ensures At(Exec(api, s, es), r)
    ensures Exec(api, s, es).requests[r].scope == s.requests[r].scope
    ensures Exec(api, s, es).requests[r].payload == s.requests[r].payload
    decreases |es|
  {
    if es != [] {
      StepKeepsRequests(api, s, es[0], r);
      RunKeepsRequests(api, Apply(api, s, es[0]), es[1..], r);
    }
  }

  /**
   A request stays under the scope and with the payload that it came with: without a key it has none,
   with a key it is scoped by its client, or by its own id when it is anonymous.
   */
  lemma {:induction false} RequestsAreScoped<P, T>(api: Api<P, T>, s: State<P, T>, es: seq<Event<P>>, i: nat)
    requires Valid(api, s, es) && i < |es| && es[i].Receive?
    ensures var e := es[i];
            var s' := Exec(api, s, es);
            && At(s', e.r) && s'.requests[e.r].payload == e.payload
            && (e.key == "" ==> s'.requests[e.r].scope == None)
            && (e.key != "" ==>
                  s'.requests[e.r].scope == Some(Scope(EffectiveClient(e.client, e.requestId), e.key)))
    decreases |es|
  {
    var s1 := Apply(api, s, es[0]);
    if i == 0 {
      RunKeepsRequests(api, s1, es[1..], es[0].r);
    } else {
      assert es[i] == es[1..][i - 1];
      RequestsAreScoped(api, s1, es[1..], i - 1);
    }
  }

  /**
   In every run, a request received without a key is never answered as a replay or a conflict, and the job
   it is answered with is its own: it has the tasks of its payload and no key ever stands for it.
   */
  lemma KeylessRequestsStandAlone<P, T>(api: Api<P, T>, es: seq<Event<P>>, i: nat)
    requires Valid(api, Start<P, T>(), es) && i < |es| && es[i].Receive? && es[i].key == ""
    ensures var r := es[i].r;
            var s := Exec(api, Start<P, T>(), es);
            && At(s, r)
            && var p := s.requests[r].phase;
               && !p.Replaying? && p != Answered(KeyConflict)
               && !(p.Answered? && p.answer.Replayed?)
               && (JobOf(p).Some? ==>
                     var j := JobOf(p).value;
                     && j in s.issuer && s.issuer[j] == r
                     && j in s.tasks && s.tasks[j] == api.tasks(es[i].payload)
                     && forall k :: k in s.records ==> s.records[k].job != j)
  {
    RequestsAreScoped(api, Start<P, T>(), es, i);
    OwnJobOnly(api, es, es[i].r);
  }

  lemma OwnJobOnly<P, T>(api: Api<P, T>, es: seq<Event<P>>, r: nat)
    requires Valid(api, Start<P, T>(), es) && At(Exec(api, Start<P, T>(), es), r)
    requires Exec(api, Start<P, T>(), es).requests[r].scope.None?
    ensures var s := Exec(api, Start<P, T>(), es);
            var p := s.requests[r].phase;
            && !p.Replaying? && p != Answered(KeyConflict)
            && (JobOf(p).Some? ==>
                  var j := JobOf(p).value;
                  Made(p, j) && Issued(s, r, j) && j in s.tasks && s.tasks[j] == api.tasks(s.requests[r].payload)
                  && forall k :: k in s.records ==> s.records[k].job != j)
  {
    RunKeepsInv(api, Start<P, T>(), es);
    var s := Exec(api, Start<P, T>(), es);
    assert RequestSound(api, s, r);
    forall k | k in s.records ensures RecordSound(s, k) {
    }
  }

  lemma {:induction false} RunsSplit<P, T>(api: Api<P, T>, s: State<P, T>, es: seq<Event<P>>, more: seq<Event<P>>)
    requires Valid(api, s, es + more)
    ensures Valid(api, s, es) && Valid(api, Exec(api, s, es), more)
    ensures Exec(api, s, es + more) == Exec(api, Exec(api, s, es), more)
    decreases |es|
  {
    if es == [] {
      assert es + more == more;
    } else {
      var all := es + more;
      assert all[0] == es[0] && all[1..] == es[1..] + more;
      RunsSplit(api, Apply(api, s, es[0]), es[1..], more);
    }
  }

  /** A committed record is for ever: no later request, failure or replay changes what its key stands for. */
  lemma RecordsAreForever<P, T>(api: Api<P, T>, es: seq<Event<P>>, more: seq<Event<P>>, k: Scope)
    requires Valid(api, Start<P, T>(), es + more)
    requires Valid(api, Start<P, T>(), es) && k in Exec(api, Start<P, T>(), es).records
    ensures k in Exec(api, Start<P, T>(), es + more).records
    ensures Exec(api, Start<P, T>(), es + more).records[k] == Exec(api, Start<P, T>(), es).records[k]
  {
    RunsSplit(api, Start<P, T>(), es, more);
    RunKeepsInv(api, Start<P, T>(), es);
    RunKeepsInv(api, Exec(api, Start<P, T>(), es), more);
  }

  /**
   A taken key decides every later answer. Once a record is committed for a client and key, then in every
   later state a request under them with a different canonical payload has been answered 409 or 500, or
   is still waiting to be; one with the same payload is never answered 409, and no other job than the
   recorded one is ever inserted for it.
   */
  lemma TakenKeyDecides<P, T>(api: Api<P, T>, es: seq<Event<P>>, more: seq<Event<P>>, k: Scope, r: nat)
    requires Valid(api, Start<P, T>(), es + more) && Valid(api, Start<P, T>(), es)
    requires k in Exec(api, Start<P, T>(), es).records
    requires var s := Exec(api, Start<P, T>(), es + more); At(s, r) && s.requests[r].scope == Some(k)
    ensures var s := Exec(api, Start<P, T>(), es + more);
            var record := Exec(api, Start<P, T>(), es).records[k];
            var q := s.requests[r];
            && (api.canonical(q.payload) != record.canonical ==>
                  q.phase in {Received, Answered(KeyConflict), Answered(ServerError)})
            && (api.canonical(q.payload) == record.canonical ==>
                  q.phase in {Received, Answered(ServerError), Replaying(record.job), Answered(Replayed(record.job)),
                              Answered(Created(record.job)), Answered(Unconfirmed(record.job))})
  {
    RecordsAreForever(api, es, more, k);
    RunKeepsInv(api, Start<P, T>(), es + more);
    assert RequestSound(api, Exec(api, Start<P, T>(), es + more), r);
  }

  // ---- Every request can be answered ----

  lemma LastStep<P, T>(api: Api<P, T>, s: State<P, T>, e: Event<P>)
    requires Enabled(s, e)
    ensures Valid(api, s, [e]) && Exec(api, s, [e]) == Apply(api, s, e)
  {
    assert [e][1..] == [];
    assert Valid(api, Apply(api, s, e), []);
  }

  /** With no key, or a free one, a request goes through to its own job, which is committed with its record. */
  lemma FreeRequestCreates<P, T>(api: Api<P, T>, s: State<P, T>, r: nat, job: nat)
    requires At(s, r) && s.requests[r].phase.Received? && job !in s.issuer
    requires var k := s.requests[r].scope; k.Some? ==> k.value !in s.records && !ScopeHeld(s, k.value)
    ensures var es := [InsertJob(r, job), InsertTasks(r), Commit(r)];
            var q := s.requests[r];
            && Valid(api, s, es)
            && var s' := Exec(api, s, es);
               && s'.requests == s.requests[r := q.(phase := Answered(Created(job)))]
               && s'.jobs == s.jobs + {job} && s'.tasks == s.tasks[job := api.tasks(q.payload)]
               && s'.records == (if q.scope.None? then s.records
                                 else s.records[q.scope.value := Record(api.canonical(q.payload), job)])
  {
    var s1 := Apply(api, s, InsertJob(r, job));
    var s2 := Apply(api, s1, InsertTasks(r));
    var one: seq<Event<P>> := [Commit(r)];
    var two: seq<Event<P>> := [InsertTasks(r), Commit(r)];
    var es: seq<Event<P>> := [InsertJob(r, job), InsertTasks(r), Commit(r)];
    LastStep(api, s2, Commit(r));
    assert two[1..] == one && Valid(api, s1, two);
    assert es[1..] == two;
  }

  /** With a taken key it is answered from the record, or refused, and the tables stay as they are. */
  lemma TakenRequestIsAnswered<P, T>(api: Api<P, T>, s: State<P, T>, r: nat)
    requires At(s, r) && s.requests[r].phase.Received?
    requires s.requests[r].scope.Some? && s.requests[r].scope.value in s.records
    ensures var record := s.records[s.requests[r].scope.value];
            var q := s.requests[r];
            var same := api.canonical(q.payload) == record.canonical;
            var es: seq<Event<P>> := if same then [FindTaken(r), Commit(r)] else [FindTaken(r)];
            && Valid(api, s, es)
            && var answer := if same then Replayed(record.job) else KeyConflict;
               Exec(api, s, es) == s.(requests := s.requests[r := q.(phase := Answered(answer))])
  {
    var record := s.records[s.requests[r].scope.value];
    var s1 := Apply(api, s, FindTaken(r));
    if api.canonical(s.requests[r].payload) == record.canonical {
      var es: seq<Event<P>> := [FindTaken(r), Commit(r)];
      LastStep(api, s1, Commit(r));
      assert es[1..] == [es[1]];
    } else {
      LastStep(api, s, FindTaken(r));
    }
  }

  /** A commit whose acknowledgement is lost leaves the same tables as one that is acknowledged. */
  lemma LostAnswerCommitsAllTheSame<P, T>(api: Api<P, T>, s: State<P, T>, r: nat)
    requires At(s, r) && s.requests[r].phase.WithTasks?
    ensures Enabled(s, Commit(r)) && Enabled(s, CommitUnacknowledged(r))
    ensures var told, lost := Apply(api, s, Commit(r)), Apply(api, s, CommitUnacknowledged(r));
            && lost.records == told.records && lost.jobs == told.jobs && lost.tasks == told.tasks
            && lost.issuer == told.issuer
            && lost.requests[r].phase == Answered(Unconfirmed(s.requests[r].phase.job))
            && forall q :: q in s.requests && q != r ==> q in lost.requests && lost.requests[q] == s.requests[q]
  {
  }

  /** Any request can come in at any time, and by itself changes no table. */
  lemma RequestsComeIn<P, T>(
    api: Api<P, T>, s: State<P, T>, r: nat, client: Option<string>, requestId: string, key: string, payload: P)
    requires r !in s.requests
    ensures var e := Receive(r, client, requestId, key, payload);
            && Enabled(s, e)
            && Apply(api, s, e).(requests := s.requests) == s
            && r in Apply(api, s, e).requests && Apply(api, s, e).requests[r].phase == Received
            && forall q :: q in s.requests ==>
                 q in Apply(api, s, e).requests && Apply(api, s, e).requests[q] == s.requests[q]
  {
  }

  /** A transaction that fails is rolled back: nothing but its answer changes, and its key is free again. */
  lemma FailureLeavesTables<P, T>(api: Api<P, T>, s: State<P, T>, r: nat)
    requires At(s, r) && !s.requests[r].phase.Answered?
    ensures Enabled(s, Fail(r))
    ensures Apply(api, s, Fail(r)) == s.(requests := s.requests[r := s.requests[r].(phase := Answered(ServerError))])
    ensures forall k :: ScopeHeld(Apply(api, s, Fail(r)), k) ==> ScopeHeld(s, k)
    ensures Inv(api, s) && Open(s.requests[r].phase) && s.requests[r].scope.Some? ==>
              !ScopeHeld(Apply(api, s, Fail(r)), s.requests[r].scope.value)
  {
    var s' := Apply(api, s, Fail(r));
    if Inv(api, s) && Open(s.requests[r].phase) && s.requests[r].scope.Some? {
      forall q | At(s', q) && Open(s'.requests[q].phase) ensures s'.requests[q].scope != s.requests[r].scope {
        assert At(s, q) && (s.requests[q].scope == s.requests[r].scope ==> SameOpenScope(s, q, r));
      }
    }
  }

  // ---- The service's own payloads ----

  /** A payload is a list of submitted strings. */
  function JobApi(t: Normalization.Text): Api<seq<string>, seq<JobCreation.NewTask>> {
    Api((domains: seq<string>) => CanonicalForm.Canonical(JobCreation.NormalValues(t, domains)),
        (domains: seq<string>) => JobCreation.JobTasks(JobCreation.NormalValues(t, domains)))
  }

  lemma CanonicalDecides(t: Normalization.Text, a: seq<string>, b: seq<string>)
    requires Normalization.Faithful(t)
    ensures JobApi(t).canonical(a) == JobApi(t).canonical(b)
            <==> multiset(JobCreation.NormalValues(t, a)) == multiset(JobCreation.NormalValues(t, b))
    ensures JobApi(t).canonical(a) == JobApi(t).canonical(b) ==>
              multiset(JobApi(t).tasks(a)) == multiset(JobApi(t).tasks(b))
  {
    JobCreation.CanonicalDecidesJob(t, a, b);
  }

  /**
   What a client is told it has is what it asked for: whichever request made the job, in whatever order,
   spelling and repetition the domains were sent, the committed tasks of the job that a request was
   answered with are those that its own list of domains makes.
   */
  lemma AnswersMatchPayloads(t: Normalization.Text, es: seq<Event<seq<string>>>, r: nat)
    requires Normalization.Faithful(t)
    requires Valid(JobApi(t), Start<seq<string>, seq<JobCreation.NewTask>>(), es)
    requires var s := Exec(JobApi(t), Start<seq<string>, seq<JobCreation.NewTask>>(), es);
             At(s, r) && JobOf(s.requests[r].phase).Some?
    ensures var s := Exec(JobApi(t), Start<seq<string>, seq<JobCreation.NewTask>>(), es);
            var j := JobOf(s.requests[r].phase).value;
            && j in s.tasks
            && multiset(s.tasks[j]) == multiset(JobApi(t).tasks(s.requests[r].payload))
  {
    var api := JobApi(t);
    var start := Start<seq<string>, seq<JobCreation.NewTask>>();
    var s := Exec(api, start, es);
    if s.requests[r].scope.Some? {
      ExactlyOnce(api, es, r, r);
      var j := JobOf(s.requests[r].phase).value;
      MakerHasSamePayload(api, es, r);
      CanonicalDecides(t, s.requests[r].payload, s.requests[s.issuer[j]].payload);
    } else {
      OwnJobOnly(api, es, r);
    }
  }

  /** And a client is refused only if the domains that it sent really are others than those its key stands for. */
  lemma RefusedPayloadsDiffer(t: Normalization.Text, es: seq<Event<seq<string>>>, r: nat, q: nat)
    requires Normalization.Faithful(t)
    requires Valid(JobApi(t), Start<seq<string>, seq<JobCreation.NewTask>>(), es)
    requires var s := Exec(JobApi(t), Start<seq<string>, seq<JobCreation.NewTask>>(), es);
             && At(s, r) && At(s, q) && s.requests[r].scope == s.requests[q].scope
             && s.requests[r].phase == Answered(KeyConflict) && JobOf(s.requests[q].phase).Some?
    ensures var s := Exec(JobApi(t), Start<seq<string>, seq<JobCreation.NewTask>>(), es);
            multiset(JobCreation.NormalValues(t, s.requests[r].payload))
            != multiset(JobCreation.NormalValues(t, s.requests[q].payload))
  {
    var s := Exec(JobApi(t), Start<seq<string>, seq<JobCreation.NewTask>>(), es);
    ConflictMeansDifferentPayload(JobApi(t), es, r, q);
    CanonicalDecides(t, s.requests[r].payload, s.requests[q].payload);
  }

  lemma MakerHasSamePayload<P, T>(api: Api<P, T>, es: seq<Event<P>>, r: nat)
    requires Valid(api, Start<P, T>(), es)
    requires var s := Exec(api, Start<P, T>(), es);
             At(s, r) && s.requests[r].scope.Some? && JobOf(s.requests[r].phase).Some?
    ensures var s := Exec(api, Start<P, T>(), es);
            var j := JobOf(s.requests[r].phase).value;
            && j in s.issuer && At(s, s.issuer[j])
            && api.canonical(s.requests[s.issuer[j]].payload) == api.canonical(s.requests[r].payload)
  {
    RunKeepsInv(api, Start<P, T>(), es);
    var s := Exec(api, Start<P, T>(), es);
    var j := JobOf(s.requests[r].phase).value;
    assert RequestSound(api, s, r);
    assert RecordSound(s, s.requests[r].scope.value);
    assert RequestSound(api, s, s.issuer[j]);
  }
}
