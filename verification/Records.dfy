/** The rows of the task database and the status arithmetic shared by every component. */
module Records {

  datatype Option<+T> = None | Some(value: T)

  datatype Status = Pending | Processing | Completed | Failed

  datatype TaskType = UserRequest | Refresh

  /** A row of the task table. `id` is the row's UUID, read only for its place in the order of UUIDs. */
  datatype Task = Task(
    id: nat,
    job: Option<nat>,
    domain: nat,
    kind: TaskType,
    status: Status,
    attempts: nat,
    lease: Option<int>,
    createdAt: int)

  predicate Terminal(s: Status) {
    s.Completed? || s.Failed?
  }

  function Max(a: int, b: int): int {
    if a < b then b else a
  }

  function Min(a: int, b: int): int {
    if a < b then a else b
  }

  /** The `count(*) ... status in (PENDING, PROCESSING)` query over the tasks of one job. */
  function Open(statuses: seq<Status>): nat {
    if statuses == [] then 0
    else (if Terminal(statuses[0]) then 0 else 1) + Open(statuses[1..])
  }

  lemma {:induction false} OpenIsZero(statuses: seq<Status>)
    ensures Open(statuses) == 0 <==> forall k :: 0 <= k < |statuses| ==> Terminal(statuses[k])
  {
    if statuses != [] {
      OpenIsZero(statuses[1..]);
      assert forall k :: 0 < k < |statuses| ==> statuses[k] == statuses[1..][k - 1];
      assert forall k :: 0 <= k < |statuses| - 1 ==> statuses[1..][k] == statuses[k + 1];
    }
  }

  /** What the completion check makes of a job's status once it has counted the open tasks. */
  function NextJobStatus(job: Status, open: nat): Status {
    if open == 0 then Completed
    else if job.Pending? then Processing
    else job
  }

  /** A job only ever moves forward along this rank. */
  function JobRank(job: Status): nat {
    match job
    case Pending => 0
    case Processing => 1
    case Completed => 2
    case Failed => 2
  }
}
