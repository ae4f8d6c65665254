# Domain processing service: a verified model

A Dafny model of the durable task pipeline of the domain processing service, and proofs of what the
pipeline promises. `dafny verify dfyconfig.toml` checks the whole project.

The service accepts lists of domains, turns them into jobs and tasks, and lets managers claim the
tasks from a database under a lease, hand them to workers through a bounded queue, and recover them
when a lease expires. Workers lock a domain in Redis, probe it, store a versioned observation and end
the task. The model is built in layers, one module a file:

- **Tables and queries.** `Records`, `Sorting` and `TaskTable` hold the rows, ORDER BY, the claim,
  recovery and refresh queries with `FOR UPDATE SKIP LOCKED`, and the worker's final writes. The class
  `TaskStore` updates its rows one by one, as the repository does, and is proved against functions that
  the state machines share. `DomainProcessor`, `WorkerLoop`, `Manager`, `Scheduler`, `BoundedQueue`, `DomainLock`
  and `DomainDetail` are the source's classes, proved against specifications in the same way.
- **The pipeline.** `Pipeline` is one transition system in which each short database session, queue
  operation, crash and passing of time is a step, with any number of copies of a task in flight.
  `Termination`, `Dispatch`, `Ownership` and `JobProgress` prove what all its runs have in common.
- **Transactions opened into statements.** `ClaimTransactions` (claims and recoveries that are open at
  the same time), `JobCompletion` (the completion check under the job's row lock), `VersionHistory`
  (optimistic writers), `Rescheduling` (the unlocked read of a retry) and `Idempotency` (job creation against the unique key) interleave statements of
  any number of sessions. `HandOff` interleaves both manager loops with the workers, and `LockProtocol`
  any number of workers around one domain's lock.
- **Request handling.** `DomainSyntax`, `Normalization`, `CanonicalForm`, `JobCreation` and `Paging`.

Four properties that one would like to state turn out to be false of the code, and the model says
exactly when they hold:

- A job whose tasks have all ended is COMPLETED, except when recovery fails a task
  (`src/domain_processing_service/repositories/task.py:257-265` does not look at the job) or when a job
  is created with invalid domains only. `JobCompletion.RecoveryGuardIsExact` and
  `JobCompletion.CreatedJobNeedsAValidDomain` give the exact conditions,
  `JobCompletion.RecoveryCanLoseCompletion` a run that loses the completion. The converse, that a
  COMPLETED job has no open task, fails when a late worker reschedules a task that has ended;
  `JobCompletion.RescheduleGuardIsExact` says exactly when.
- Of two successful detail writes that expect the same version of one row, at most one is an update; but
  an insert carries whatever version its writer read before the row was deleted.
  `VersionHistory.SameExpectation` says exactly which pairs share a version and where the insert's writer
  had read it, `VersionHistory.InsertSharesExpectationIff` says the same at the insert itself, and
  `VersionHistory.StaleInsertSharesExpectation` shows a run with such a pair.
- The capacity check before a batch does not keep `put` from meeting a full queue, although a comment says
  that this should not happen (`src/domain_processing_service/manager.py:313-315`): two loops read the
  same free capacity. `HandOff.WaitingIffNoRoom` says from which states the batches under way can lead a
  loop in front of a full queue, `HandOff.PlanKeepsRoomIff` which reads of the free capacity keep it from
  that, and `HandOff.PutMeetsFullQueue` gives a run that does meet it, for all sizes.
- A task is claimed no more often than the attempt limit as long as a rescheduling session reads and writes
  its row undisturbed; but it reads without a lock
  (`src/domain_processing_service/domain_processor.py:892-931`). `Rescheduling.BoundBreaksIffStale` says
  which late writes break the limit, `Rescheduling.BudgetHoldsIff` for which limits no run breaks it, and
  `Rescheduling.AttemptsStayBounded` the bound that holds in every run all the same.

Where code and documentation disagree the model follows the code. The claim query does not look at
`next_attempt_at`, although `ARCHITECTURE.md` shows `next_attempt_at <= NOW()`, so nothing here says that
backoff delays a claim. Recovery leaves `attempts` alone, although its docstring says they are
incremented. The lock key starts with `lock:domain:`, not `domain_lock:`. A worker that finds the lock
held reschedules its task, it does not wait.

Assumptions that the statements carry with them: the attempt limit has two sources, the processor's
settings and the settings read inside recovery (`Pipeline.Limits` keeps both, `Budget` is the larger, each is at
least 1); each write helper is one atomic step, except the completion transaction, which `JobCompletion`
opens, and the rescheduling session, which `Rescheduling` opens (the attempt bounds of `Pipeline` and
`Dispatch` rest on its being undisturbed); the request hash
is injective, and ids, tokens and job ids are fresh; of Unicode and IDNA only `Normalization.Faithful` is
assumed, which `Normalization.AsciiIsFaithful` shows can be met. Times are integers.

## Model

| member | source | states |
|---|---|---|
| TaskTable.SelectIsFirst | src/domain_processing_service/repositories/task.py:163-182 | A SKIP LOCKED batch is exactly the first `limit` unlocked matching rows in (type priority, created_at, id) order: strictly ordered, nothing left out while there is room, everything left out comes later |
| TaskTable.OrderOfTasks | src/domain_processing_service/repositories/task.py:163-176 | The order of the queries: user requests before refreshes, then the older task, then the smaller id |
| TaskTable.ClaimTakesFirst | src/domain_processing_service/repositories/task.py:155-182 | The claimed rows are PENDING, of a wanted type and unlocked, in that order; any other row like that comes after all of them, and then the batch is full |
| TaskTable.RecoveryTakesFirst | src/domain_processing_service/repositories/task.py:217-243 | The same for recovery: PROCESSING rows with a lease that is over, the first ones of them and no fewer than the limit allows |
| TaskTable.ClaimKeepsPriority | src/domain_processing_service/repositories/task.py:155-195 | A REFRESH task is claimed only together with every unlocked PENDING USER_REQUEST task |
| TaskTable.TaskStore.ClaimTasks | src/domain_processing_service/repositories/task.py:129-195 | The batch is the first unlocked PENDING rows of the wanted types, each now PROCESSING under the lease with one more attempt, every other row untouched, no row twice |
| TaskTable.TaskStore.RecoverExpiredTasks | src/domain_processing_service/repositories/task.py:197-283 | The first unlocked PROCESSING rows whose lease is over fail when their attempts are used up and return to PENDING otherwise, the lease is cleared, attempts stay, every other row is untouched |
| TaskTable.TaskStore.CreateRefreshTasks | src/domain_processing_service/repositories/task.py:41-84 | The creation loop either gives the rows of the specification and their number, or raises and leaves the table as it was |
| TaskTable.CreateRefreshAppends | src/domain_processing_service/repositories/task.py:31-84 | Refresh creation only appends PENDING refresh rows, makes no second live one for any domain, and leaves each candidate with a live one, repeated ids included |
| TaskTable.CreatedForIdleDomains | src/domain_processing_service/repositories/task.py:59-79 | Refreshes are created for those candidates only that had none PENDING or PROCESSING |
| TaskTable.RaisesIffDuplicates | src/domain_processing_service/repositories/task.py:38-39 | The duplicate check raises exactly when some candidate has two unfinished refreshes already |
| TaskTable.OpenCountsJob | src/domain_processing_service/domain_processor.py:767-779 | The count of open tasks is zero exactly when every task of the job is terminal |
| TaskTable.OutcomeFinishes | src/domain_processing_service/domain_processor.py:788-946 | What each final write leaves: its status and lease in its own row, every other row as it was, and the job COMPLETED exactly if its tasks have all ended or it was, in progress if it was untouched |
| TaskTable.FinishedDetermines | src/domain_processing_service/domain_processor.py:788-946 | Those promises determine the tables after a final write |
| ClaimTransactions.WriteBackRows | src/domain_processing_service/repositories/task.py:184-193 | Writing loaded values back row by row changes each row of the batch once and no other |
| ClaimTransactions.StepKeepsInv | src/domain_processing_service/repositories/task.py:169-195 | Opening, committing, rolling back and foreign writes keep open batches disjoint and their loaded rows current |
| ClaimTransactions.OpenBatchesAreDisjoint | src/domain_processing_service/repositories/task.py:169-195 | In every interleaving of claims, recoveries and worker writes, concurrently open transactions hold disjoint rows whose loaded values are still the stored ones |
| ClaimTransactions.CommitActsOnCurrentRows | src/domain_processing_service/repositories/task.py:181-193 | No lost update: at any point of any run a commit equals claiming, or recovering, the rows as they are then, one attempt more each |
| ClaimTransactions.OpenedBatchIsFirst | src/domain_processing_service/repositories/task.py:155-182 | A claim opened at any point of any run takes exactly the first `limit` PENDING rows of the wanted types that no open transaction holds |
| ClaimTransactions.OpenedRecoveryIsFirst | src/domain_processing_service/repositories/task.py:217-243 | And a recovery the first `limit` PROCESSING rows whose lease is over |
| ClaimTransactions.CommitWrites | src/domain_processing_service/repositories/task.py:181-193 | A commit writes what its purpose says into the rows of its batch as they are then, and frees them |
| ClaimTransactions.ClaimThenCommit | src/domain_processing_service/repositories/task.py:152-195 | A claim opened and committed leaves the first free PENDING rows of the wanted types claimed and nothing else changed |
| ClaimTransactions.RecoveryThenCommit | src/domain_processing_service/repositories/task.py:217-283 | A recovery opened and committed leaves the first free expired rows recovered and nothing else changed |
| ClaimTransactions.RollbackOnlyFrees | src/domain_processing_service/manager.py:331-333 | A rollback frees exactly the rows of its batch and writes none |
| ClaimTransactions.WorkerWritesUnlockedRow | src/domain_processing_service/domain_processor.py:788-946 | A worker's write goes through exactly when no open transaction has its row, and touches that row only |
| Pipeline.StepKeepsInv | src/domain_processing_service/repositories/task.py:186-270 | Claim, recovery, finish, creation, queue steps and crashes keep: attempts within budget, PENDING rows below it and without a lease, PROCESSING rows with a lease and an attempt |
| Pipeline.ClaimedRowsAndCopies | src/domain_processing_service/manager.py:283-305 | Any PENDING rows can be claimed: PROCESSING under the lease with one attempt more and one copy in hand each, all else as before |
| Pipeline.RecoveredRowsAndCopies | src/domain_processing_service/manager.py:176-199 | Any PROCESSING rows whose lease is over can be recovered: FAILED at the limit, else PENDING with one copy in hand, all else as before |
| Pipeline.OthersAreLeftAlone | src/domain_processing_service/repositories/task.py:170-236 | Rows whose status or lease forbids it are neither claimed nor recovered |
| Pipeline.CopiesMoveOn | src/domain_processing_service/worker/worker.py:80-101 | Copies go from a loop's hand to the queue and from there to a worker one at a time, and the tables stay |
| Pipeline.JobsComeIn | src/domain_processing_service/routes.py:324-366 | A new job comes with its unclaimed tasks, and no other row or job changes |
| Pipeline.AttemptsCountClaims | src/domain_processing_service/repositories/task.py:186-190 | Over every run a row's attempts grow by exactly the number of claim steps on it |
| Pipeline.AttemptAccounting | src/domain_processing_service/repositories/task.py:186-270 | In every reachable state attempts equals the number of claims and is within budget, PENDING means budget is left and no lease, PROCESSING means a lease and at least one claim |
| Pipeline.ClaimQueryIsAStep | src/domain_processing_service/manager.py:283-305 | The claim query with any rows locked is a claim step of the transition system with the same rows and the same copies handed on |
| Termination.WritesOnlyEnd | src/domain_processing_service/domain_processor.py:788-946 | A worker's last write, late or not, touches one row, never its attempts, and never makes a task PROCESSING |
| Termination.StepLowersMeasure | src/domain_processing_service/repositories/task.py:186-278 | Every step that changes anything, creation aside, strictly lowers a measure of unused attempts, open leases and copies by how far they got |
| Termination.CreationAddsBudget | src/domain_processing_service/repositories/task.py:65-79 | A created row adds 8 to the measure for each attempt it may make, and nothing else gets heavier |
| Termination.RunsPayForSteps | src/domain_processing_service/manager.py:195-305 | In every run the changing steps are paid for by the measure; only new rows add to it |
| Termination.EveryRunIsFinite | src/domain_processing_service/manager.py:195-305 | Termination under every interleaving: at most 8 * max_attempts changing steps for each task ever created, whatever expires, crashes or is written late |
| Termination.WorkRemains | src/domain_processing_service/repositories/task.py:230-276 | In a state that is not done there is a step, now or after a wait, that changes something |
| Termination.QuiescentIffDone | src/domain_processing_service/repositories/task.py:170-276 | In a reachable state nothing can happen, now or later, exactly when every task is COMPLETED or FAILED and no copy is left |
| Termination.CanAlwaysFinish | src/domain_processing_service/domain_processor.py:887-946 | From every state of the invariant some run without new work brings every task to an end: there is no dead end |
| Dispatch.StepSpendsPotential | src/domain_processing_service/manager.py:195-305 | Each step pays for the hand-overs it makes out of the claims and recoveries the row has left |
| Dispatch.ProcessingBound | src/domain_processing_service/manager.py:195-305 | In every run one task is handed to workers at most max_attempts times for claims plus once for each attempt value below recovery's limit, at most 2 * max_attempts - 1 |
| Dispatch.OneAttempt | src/domain_processing_service/manager.py:195-199 | One attempt can cost two hand-overs while recovery still re-dispatches, and one after that |
| Dispatch.BoundIsReached | src/domain_processing_service/manager.py:195-305 | For all limits some run hands one task over exactly as often as the bound allows |
| Rescheduling.UndisturbedIsAtomic | src/domain_processing_service/domain_processor.py:887-931 | Opened into read and write, an undisturbed rescheduling is the one step that the pipeline takes for it |
| Rescheduling.ClaimAndRecovery | src/domain_processing_service/repositories/task.py:186-270 | In the opened session too a claim needs a PENDING row and a recovery a PROCESSING one, which it fails at the limit |
| Rescheduling.OtherEnds | src/domain_processing_service/domain_processor.py:788-885 | How else a copy or a session comes to its end: a lost run, a final write, a rollback |
| Rescheduling.BoundBreaksIffStale | src/domain_processing_service/domain_processor.py:892-931 | A step breaks the attempt bound if and only if it writes PENDING from attempts read below the limit when the budget is used up by now; the next claim then exceeds the budget |
| Rescheduling.AttemptsPayForStaleWrites | src/domain_processing_service/domain_processor.py:892-931 | In every run attempts exceed the budget by no more than the number of such writes |
| Rescheduling.StepSpendsSessions | src/domain_processing_service/manager.py:195-305 | Every such write uses up one of the sessions that attempts below the worker's limit can leave open |
| Rescheduling.AttemptsStayBounded | src/domain_processing_service/domain_processor.py:887-946 | In every run of the opened session attempts stay within max_attempts + 2 * (max_attempts - 1) |
| Rescheduling.AttemptBoundIsReached | src/domain_processing_service/domain_processor.py:887-946 | For all limits of which recovery's is not the smaller one, some run makes every one of those attempts |
| Rescheduling.BudgetHoldsIff | src/domain_processing_service/config.py:55 | The attempt limit holds in all runs of the opened session if and only if the worker's or recovery's limit is 1 |
| Ownership.FinishOfOwner | src/domain_processing_service/domain_processor.py:788-946 | With a single owner, finishing changes only status and lease of one PROCESSING row |
| Ownership.StepKeepsOwned | src/domain_processing_service/worker/worker.py:221-248 | Every step other than recovery keeps single ownership, finished jobs finished, one live refresh per domain, and never writes an ended row |
| Ownership.SingleOwnershipWithoutExpiry | src/domain_processing_service/domain_processor.py:751-797 | In every run without recovery: one copy per task and only while PROCESSING, COMPLETED and FAILED absorbing, a COMPLETED job keeps all its tasks terminal |
| Ownership.OneLiveRefreshPerDomain | src/domain_processing_service/repositories/task.py:31-84 | In every run without recovery no domain has two PENDING or PROCESSING refresh tasks |
| Ownership.RecoveryRevivesEndedTasks | src/domain_processing_service/manager.py:195-199 | The hypothesis is needed: after one expired lease a late reschedule makes a COMPLETED task of a COMPLETED job PENDING again |
| JobProgress.FinishEndsTask | src/domain_processing_service/domain_processor.py:788-946 | In the pipeline a finishing worker, late or not, leaves the status its outcome says in its row, no other row changed, and its job following its tasks |
| JobProgress.StepKeepsLaw | src/domain_processing_service/domain_processor.py:751-797 | Every step of the pipeline whose recovery fails no task of a job keeps: a job whose tasks have all ended is COMPLETED |
| JobProgress.EveryCompletionIsNoticed | src/domain_processing_service/domain_processor.py:751-797 | No lost completion over whole runs of the pipeline, for jobs with a valid domain and recoveries that fail no task of a job |
| JobProgress.CompletedExactlyWhenDone | src/domain_processing_service/domain_processor.py:751-797 | In runs without recovery a job with a valid domain is COMPLETED at every moment exactly when its tasks have all ended |
| JobCompletion.StepKeepsLocks | src/domain_processing_service/domain_processor.py:761-765 | In every interleaving at most one transaction holds the job lock, written rows stay distinct, and the job status does not move backwards |
| JobCompletion.StepKeepsInv | src/domain_processing_service/domain_processor.py:751-797 | Each statement of each session keeps: all tasks committed terminal implies job COMPLETED, and counts taken under the lock stay right |
| JobCompletion.CountIsExact | src/domain_processing_service/domain_processor.py:767-779 | The count under the lock is zero exactly when, with the transaction's own write, no task of the job is open, and counting changes nothing else |
| JobCompletion.CommitSettles | src/domain_processing_service/domain_processor.py:779-786 | A commit leaves its own write, and the job COMPLETED exactly when the count was zero or it was COMPLETED before |
| JobCompletion.AloneCompletion | src/domain_processing_service/domain_processor.py:751-797 | A worker that nobody holds up can run all its statements, and leaves the job COMPLETED if no task is open any more, in progress if not |
| JobCompletion.LastCompletionIsNotLost | src/domain_processing_service/domain_processor.py:751-797 | From a created job with a valid domain, in every interleaving whose recovery failures are safe, all tasks terminal implies job COMPLETED |
| JobCompletion.NoFailedRecoveryNoLoss | src/domain_processing_service/domain_processor.py:751-797 | No completion is lost in any run in which no task fails through lease recovery |
| JobCompletion.CompletedMeansDone | src/domain_processing_service/domain_processor.py:769-786 | The converse: in every interleaving whose reschedulings are safe, a COMPLETED job has no open task |
| JobCompletion.CompletedIffDone | src/domain_processing_service/domain_processor.py:751-797 | Both directions: in runs that are safe in both respects a job is COMPLETED exactly when all its tasks have ended |
| JobCompletion.CompletedIffDoneUndisturbed | src/domain_processing_service/domain_processor.py:751-797 | In particular in every run in which recovery fails no task and no ended task is rescheduled |
| JobCompletion.RescheduleGuardIsExact | src/domain_processing_service/domain_processor.py:930-932 | Rescheduling an ended task keeps the converse if and only if the job is not COMPLETED and no final count of zero is about to be committed |
| JobCompletion.OtherSessionsWrite | src/domain_processing_service/repositories/task.py:184-276 | Other sessions write a row that no completion has written, as its status allows, and touch nothing else |
| JobCompletion.LocksAndStatusesBlock | src/domain_processing_service/domain_processor.py:761-765 | A row that a completion has written, and a job that one has locked, keep everybody else out |
| JobCompletion.RollbackLeavesNothing | src/domain_processing_service/domain_processor.py:790-797 | A completion that is rolled back leaves neither its write nor its locks |
| JobCompletion.JobNeverMovesBack | src/domain_processing_service/domain_processor.py:779-786 | The job status never moves backwards, in any run at all |
| JobCompletion.RecoveryGuardIsExact | src/domain_processing_service/repositories/task.py:257-265 | Failing a task in recovery keeps the completion law if and only if the job is COMPLETED already or another task keeps it open |
| JobCompletion.CreatedJobNeedsAValidDomain | src/domain_processing_service/routes.py:341-364 | A created job satisfies the law if and only if it has a valid domain |
| JobCompletion.RecoveryCanLoseCompletion | src/domain_processing_service/repositories/task.py:257-265 | A run in which the only task fails in recovery and the job stays open for ever |
| DomainProcessor.Processor.CountOpenTasks | src/domain_processing_service/domain_processor.py:769-777 | The scan counts the open tasks, and finds none exactly when all tasks of the job are terminal |
| DomainProcessor.Processor.CheckAndUpdateJobStatus | src/domain_processing_service/domain_processor.py:751-786 | The job becomes COMPLETED when all its tasks are terminal, leaves PENDING otherwise, and no other job is touched; no job and an unknown job are ignored |
| DomainProcessor.Processor.WriteCompleteTask | src/domain_processing_service/domain_processor.py:788-797 | One session: the row is COMPLETED without regard to its old status, the job is COMPLETED if its tasks have all ended and in progress if not, nothing else changes; an unknown row is ignored |
| DomainProcessor.Processor.WriteFailTask | src/domain_processing_service/domain_processor.py:799-885 | One session: the row is FAILED without regard to its old status, and the job follows its tasks in the same way |
| DomainProcessor.Processor.WriteRescheduleTask | src/domain_processing_service/domain_processor.py:887-946 | One session: back to PENDING without a lease while attempts are left and the job untouched, else FAILED and the job follows its tasks |
| WorkerLoop.Worker.RunOnce | src/domain_processing_service/worker/worker.py:221-248 | One iteration takes the oldest queued task and ends it with one final write, or changes nothing when none arrives |
| WorkerLoop.Worker.RunLoop | src/domain_processing_service/worker/worker.py:221-261 | The loop ends tasks in queue order, each write on the tables that the earlier ones left |
| WorkerLoop.LoopIsARun | src/domain_processing_service/worker/worker.py:221-261 | Refinement: the worker's loop is a run of the transition system with the same final tables and queue, whatever else is queued or running |
| BoundedQueue.PutIsSound | src/domain_processing_service/worker/worker.py:80-90 | A put keeps the history equal to what was taken followed by what is queued, and size within peak within capacity |
| BoundedQueue.GetIsSound | src/domain_processing_service/worker/worker.py:92-101 | A get keeps first-in first-out order of the history |
| BoundedQueue.Queue.CountersBalance | src/domain_processing_service/worker/worker.py:76-126 | total_enqueued - total_dequeued = size <= max_size_reached <= capacity |
| BoundedQueue.Queue.Put | src/domain_processing_service/worker/worker.py:80-90 | Appends the item, keeps counters, peak and history in step |
| BoundedQueue.Queue.PutNowait | src/domain_processing_service/worker/worker.py:103-114 | Refuses exactly when the queue is full, and then changes nothing |
| BoundedQueue.Queue.GetNowait | src/domain_processing_service/worker/worker.py:116-126 | Returns the oldest item, or reports an empty queue and changes nothing |
| HandOff.StepKeepsInv | src/domain_processing_service/manager.py:153-305 | Planning, fetching, putting and losing batches by two loops, and workers taking items, keep the joint bound |
| HandOff.BoundedHandOff | src/domain_processing_service/manager.py:153-305 | In every run of both loops and the workers, tasks in the loops' hands plus queued never exceed capacity + min(capacity, worker_concurrency), and the queue is first-in first-out within its capacity |
| HandOff.WorkerTakesTheOldest | src/domain_processing_service/worker/worker.py:92-101 | A worker takes the oldest task whenever there is one |
| HandOff.FetchedAreHandedOn | src/domain_processing_service/manager.py:195-305 | Conservation: in every run in which no loop is cut off, the tasks fetched are exactly those enqueued with those still in hand |
| HandOff.CutOffLoopLosesItsTasks | src/domain_processing_service/manager.py:302-333 | A loop that is cut off loses what it has in hand, and nothing else |
| HandOff.LoneLoopNeverWaits | src/domain_processing_service/manager.py:257-315 | With one loop alone a put always finds room |
| HandOff.WaitingIffNoRoom | src/domain_processing_service/manager.py:257-315 | From a state of any run, the batches planned or held can lead a loop in front of a full queue if and only if they exceed the room in it |
| HandOff.PlanKeepsRoomIff | src/domain_processing_service/manager.py:257-258 | Reading the free capacity keeps that room if and only if the other loop has nothing in hand, the queue is full, or a batch of full size fits beside what the other loop has |
| HandOff.SafePlansNeverWait | src/domain_processing_service/manager.py:153-305 | In a run whose reads all meet that condition no loop ever stands in front of a full queue |
| HandOff.TwoLoopsOvercommit | src/domain_processing_service/manager.py:153-305 | The bound is reached from the empty queue, for all capacities and batch sizes |
| HandOff.PutMeetsFullQueue | src/domain_processing_service/manager.py:313-315 | For all capacities and batch sizes a run ends with a loop that holds a task and cannot put it |
| Manager.TaskManager.Dispatch | src/domain_processing_service/manager.py:302-312 | The dispatch loop appends the whole batch to the queue in order |
| Manager.TaskManager.ClaimCycle | src/domain_processing_service/manager.py:241-334 | An uninterrupted claim cycle claims the first min(free capacity, concurrency) unlocked PENDING rows until now plus the lease time and queues exactly them, in claim order; without a worker pool it does nothing |
| Manager.TaskManager.RecoveryCycle | src/domain_processing_service/manager.py:132-239 | An uninterrupted recovery cycle takes the first expired rows, fails the exhausted ones and queues exactly the others, which stay PENDING; without a worker pool it does nothing |
| Manager.RedispatchedHaveBudget | src/domain_processing_service/manager.py:195-227 | Recovery hands on exactly the tasks with attempts left and fails exactly the others |
| Manager.RecoveryCycleIsAStep | src/domain_processing_service/manager.py:176-199 | A recovery cycle with any rows locked is a recovery step of the transition system, and the tasks it dispatches are exactly the copies of that step |
| Scheduler.CandidatesAreDue | src/domain_processing_service/repositories/domain_detail.py:189-200 | Every candidate is an active domain that is due, whatever the limit and however the database orders equally due ones |
| Scheduler.CandidatesAreLongestDue | src/domain_processing_service/repositories/domain_detail.py:189-200 | A due domain is left out only when the limit is reached, and then none of the chosen ones was due after it |
| Scheduler.RefreshScheduler.Tick | src/domain_processing_service/scheduler.py:101-214 | With or without a worker pool, a tick creates at most min(worker_concurrency, free capacity) tasks and no second live one, leaves each of that many longest due domains with one in progress, creates none where one was in progress, and fails exactly if some candidate had two already |
| Scheduler.TickIsAStep | src/domain_processing_service/scheduler.py:167-175 | A tick is one refresh step of the pipeline, with the same rows |
| Scheduler.NoDuplicatesNoError | src/domain_processing_service/repositories/task.py:38-39 | The duplicate check raises only when some domain already had two live refresh tasks |
| DomainLock.LockKeysDiffer | src/domain_processing_service/domain_lock.py:71 | Different domains have different lock keys |
| DomainLock.Lock.Acquire | src/domain_processing_service/domain_lock.py:60-133 | The context is acquired exactly when no live key existed and the answer arrived; the key then holds this token for sixty seconds; lost answers and errors leave it not acquired; no other domain is touched |
| DomainLock.Lock.Release | src/domain_processing_service/domain_lock.py:135-191 | True exactly when this call is known to have deleted its own live key; executed with that token it leaves no key, and with a foreign or expired one it deletes nothing |
| LockProtocol.FreeLockIsGiven | src/domain_processing_service/domain_lock.py:75-82 | Whoever asks for a free lock has its key for sixty seconds and is inside |
| LockProtocol.HeldLockIsRefused | src/domain_processing_service/domain_lock.py:75-82 | Whoever asks for a held one changes nothing |
| LockProtocol.ReleaseFreesTheLock | src/domain_processing_service/domain_lock.py:152-172 | A release with the live token of the owner leaves no key |
| LockProtocol.LostAnswerHoldsTheLock | src/domain_processing_service/domain_lock.py:75-92 | A command whose answer is lost takes a free lock for sixty seconds, though nobody is inside |
| LockProtocol.SecondCheckIsExact | src/domain_processing_service/domain_processor.py:215-238 | The second check lets a worker go on exactly when there is no row or one older than the window |
| LockProtocol.AloneWorkerPersists | src/domain_processing_service/domain_processor.py:194-397 | A worker alone with a free lock and no fresh row gets through: its observation is stored and the lock is free again |
| LockProtocol.MutualExclusionModuloTtl | src/domain_processing_service/domain_lock.py:60-133 | In every run of any number of workers, two of them inside means one acquired sixty seconds ago or more; one whose time is not over owns the key |
| LockProtocol.ReleaseRemovesOnlyItsOwnKey | src/domain_processing_service/domain_lock.py:148-181 | In every reachable state a late or repeated release removes at most the key of its own token, whose worker has left |
| LockProtocol.PersistKeepsSpacing | src/domain_processing_service/domain_processor.py:379-396 | A persist within sixty seconds keeps observations spaced, because the second check saw the row that it replaces |
| LockProtocol.ObservationsAreSpaced | src/domain_processing_service/domain_processor.py:194-238 | If every holder persists before its time is over, consecutive observations between deletions lie more than the freshness window apart, in every run |
| LockProtocol.LatePersistBreaksSpacing | src/domain_processing_service/domain_lock.py:29 | The hypothesis is needed, for every freshness window: a run with two observations of the same moment |
| DomainDetail.DetailRepository.UpsertWithOcc | src/domain_processing_service/repositories/domain_detail.py:75-153 | Stores exactly when there is no row or the version matches, at the replaced version plus one; otherwise reports the version found and changes nothing |
| DomainDetail.DetailRepository.PersistDomainDetail | src/domain_processing_service/domain_processor.py:662-738 | Against arbitrary interference before the first write, the re-read and the retry: success leaves this observation at the replaced version plus one, failure takes interference and leaves the row to the others |
| VersionHistory.StepKeepsInv | src/domain_processing_service/repositories/domain_detail.py:99-147 | Each statement of each writer keeps the chain of versions |
| VersionHistory.LinearHistory | src/domain_processing_service/repositories/domain_detail.py:75-153 | In every interleaving, between deletions, the writes make versions 1, 2, 3, ..., each from its predecessor, no writer twice, and the row is the last of them; so did the rows before each deletion |
| VersionHistory.SameExpectation | src/domain_processing_service/repositories/domain_detail.py:99-147 | Two writes of a chain expected the same version if and only if the first is the insert and expected the version that the second replaced; its writer had read that version from a row that was deleted since |
| VersionHistory.InsertSharesExpectationIff | src/domain_processing_service/repositories/domain_detail.py:122-140 | An insert that expected no row shares its expectation with nobody; one that expected version v shares it exactly when the chain gets as far as v + 1 |
| VersionHistory.StaleInsertSharesExpectation | src/domain_processing_service/repositories/domain_detail.py:122-140 | A run in which that happens |
| VersionHistory.UndisturbedWriterSucceeds | src/domain_processing_service/repositories/domain_detail.py:75-153 | A writer that nobody comes between succeeds at its first try, on a stored row and on none |
| VersionHistory.ConflictIsRetriedOnce | src/domain_processing_service/domain_processor.py:700-737 | A writer that somebody came before tries once more from the version that it finds then, and gives up when that fails too |
| VersionHistory.DeletionEndsTheChain | src/domain_processing_service/repositories/domain_detail.py:75-153 | A deletion ends the chain and leaves every writer as it was |
| VersionHistory.SuccessLeavesOwnObservation | src/domain_processing_service/domain_processor.py:687-737 | A write that succeeds, first try or retry, has just put its own observation at exactly the replaced version plus one |
| Normalization.NormalizeDomain | src/domain_processing_service/normalization.py:54-142 | For every string the normal form, validity and message of the specification: white space only is empty and invalid, and whatever white space, scheme, path, query, fragment or port surrounds a host that is valid in lower case less its trailing dots, that host is the result |
| Normalization.EncodeEach | src/domain_processing_service/normalization.py:111-126 | The label loop encodes every label, keeps one that has no encoding, and breaks off at the first other exception |
| Normalization.EveryStringIsSpelled | src/domain_processing_service/normalization.py:71-105 | Every string that is not blank consists of white space, an optional scheme, a host and what follows it |
| Normalization.ValidHostIsFound | src/domain_processing_service/normalization.py:71-142 | Spelled in whatever way, a valid host is what normalization returns |
| Normalization.EncodedHostIsFound | src/domain_processing_service/normalization.py:71-142 | Any other host is replaced by its encoded labels, and valid exactly when those are; a host of dots only is empty and invalid |
| Normalization.CrashedHostIsInvalid | src/domain_processing_service/normalization.py:113-127 | A label on which the encoder breaks off makes the domain invalid with the host as its value |
| Normalization.StripTrims | src/domain_processing_service/normalization.py:72 | Stripping removes exactly the white space at both ends |
| Normalization.RStripDotsTrims | src/domain_processing_service/normalization.py:98 | All trailing dots go, and nothing else |
| DomainSyntax.LabelsHaveNoDots | src/domain_processing_service/normalization.py:111 | No label contains a dot; with `JoinSplit` this fixes the split |
| Normalization.SchemeCharsAre | src/domain_processing_service/normalization.py:83 | The characters of a scheme by their codes |
| Normalization.SchemeEndIsTheMatch | src/domain_processing_service/normalization.py:83-87 | The scheme that is cut off is the only possible match of the pattern, and is found whenever there is one |
| Normalization.HostStopsAtFirstDelimiter | src/domain_processing_service/normalization.py:89-92 | The chain of splits keeps exactly what precedes the first slash, question mark, hash or colon, in whatever order they occur |
| DomainSyntax.JoinSplit | src/domain_processing_service/normalization.py:111-121 | Joining the labels of a string gives the string back |
| DomainSyntax.LabelCharsAre | src/domain_processing_service/normalization.py:27 | The characters of a label by their codes: hyphen, digits, small letters |
| DomainSyntax.SplitJoin | src/domain_processing_service/normalization.py:111-121 | The labels are the only dot-free strings that join to the string |
| DomainSyntax.SyntaxErrorIs | src/domain_processing_service/normalization.py:37-51 | The message for an invalid domain is that of the first check that fails, and names the first bad label |
| DomainSyntax.SyntaxIsClean | src/domain_processing_service/normalization.py:16-51 | Validity character by character: at most 253, a dot, only letters, digits, hyphens and dots, no hyphen or dot at an end or beside a dot, no 64 in a row without a dot; and nothing else |
| DomainSyntax.FirstInvalidIsNone | src/domain_processing_service/normalization.py:43-51 | The label check passes exactly when every label is valid |
| Normalization.ValidIsFixed | src/domain_processing_service/normalization.py:54-142 | A syntactically valid domain is a fixed point of normalization |
| Normalization.ValidityIsSyntax | src/domain_processing_service/normalization.py:54-142 | Validity is a function of the normalized value alone, on every path |
| Normalization.NormalizationIsIdempotent | src/domain_processing_service/normalization.py:54-142 | For every string with a valid result, normalizing the result gives it back |
| Normalization.DeduplicateDomains | src/domain_processing_service/normalization.py:145-167 | The loop keeps, for every list, the first entry of each key in order |
| Normalization.SameDedupKey | src/domain_processing_service/normalization.py:157-163 | Two entries count as one domain exactly when both are valid with one normal form, or both invalid and equal up to case and surrounding white space |
| Normalization.DedupGrows | src/domain_processing_service/normalization.py:156-166 | One entry more adds itself, in normal form if valid and as sent if not, unless an earlier entry counts as the same domain |
| Normalization.FirstOccurrencesGrow | src/domain_processing_service/normalization.py:154-167 | Kept entries come in the order of their first occurrence |
| Normalization.FirstOccurrencesAreDistinct | src/domain_processing_service/normalization.py:154-167 | The kept entries are distinct and are exactly the elements of the list |
| Normalization.DedupOfValidValues | src/domain_processing_service/normalization.py:145-167 | On valid values the second normalization changes nothing: only repetitions are dropped |
| Normalization.DedupKeepsOnePerKey | src/domain_processing_service/normalization.py:158-166 | On any list, invalid entries included, exactly one entry is kept for each key |
| CanonicalForm.StringOrder | src/domain_processing_service/routes.py:78 | The order that `sort` uses on strings is total, so sorting is canonical |
| CanonicalForm.EscapeMeans | src/domain_processing_service/routes.py:79 | Every character is written in ASCII as JSON for itself, by section 7 of RFC 8259 |
| CanonicalForm.Hex4IsHexadecimal | src/domain_processing_service/routes.py:79 | Four digits of an escape are hexadecimal for its number |
| CanonicalForm.EscapePrefix | src/domain_processing_service/routes.py:79 | The escapes of JSON characters, surrogate pairs included, form a prefix code |
| CanonicalForm.EscapeAllPrefix | src/domain_processing_service/routes.py:79 | A quoted string ends at its closing quote and nowhere else |
| CanonicalForm.TailInjective | src/domain_processing_service/routes.py:79 | The serialized list determines the list |
| CanonicalForm.CanonicalDecidesMultiset | src/domain_processing_service/routes.py:75-80 | Two lists have the same canonical string if and only if they are the same multiset, whatever characters they contain |
| JobCreation.NormalizeAll | src/domain_processing_service/routes.py:169-171 | Every entry gets its normal form, valid exactly when the value is |
| JobCreation.Partition | src/domain_processing_service/routes.py:173-195 | The loop splits the results into the valid and the invalid values, in order |
| JobCreation.LookUp | src/domain_processing_service/routes.py:201-204 | Looking deduplicated values up again loses none of them |
| JobCreation.PrepareTasks | src/domain_processing_service/routes.py:124-361 | For every list of strings: rejected when empty or too long, else one PENDING task per distinct valid value and one FAILED task per invalid entry |
| JobCreation.BuildTasks | src/domain_processing_service/routes.py:324-361 | The two loops build the pending tasks and then the failed ones, an empty value filed as "invalid" |
| JobCreation.TasksConserveDomains | src/domain_processing_service/routes.py:198-361 | Conservation: each distinct valid value has exactly one PENDING task, each invalid entry exactly one FAILED task, nothing else has any |
| JobCreation.TasksDependOnMultiset | src/domain_processing_service/routes.py:169-361 | The multiset of tasks is a function of the multiset of normalized values |
| JobCreation.CanonicalDecidesJob | src/domain_processing_service/routes.py:75-361 | Two payloads hash the same string exactly when their normalized values are the same multiset, and then they create the same tasks |
| Idempotency.ScopesSeparate | src/domain_processing_service/routes.py:120-122 | Keys of different named clients never meet, nor do those of different anonymous requests |
| Idempotency.RequestsAreScoped | src/domain_processing_service/routes.py:120-122 | In every run a request received without a key has no scope, and one with a key is scoped by its client, or by its own id when anonymous |
| Idempotency.StepKeepsInv | src/domain_processing_service/routes.py:227-387 | Each statement of each request, failures and lost acknowledgements included, keeps answers, records, jobs and tasks in agreement, and changes no committed record |
| Idempotency.ExactlyOnce | src/domain_processing_service/routes.py:227-400 | In every interleaving, all requests under one client and key that got a 200 or 202, or committed a job unacknowledged, have one job and one canonical payload; that job and the tasks of the request that made it are committed |
| Idempotency.AnswersMatchPayloads | src/domain_processing_service/routes.py:257-400 | The committed tasks of the job that a request is answered with are, as a multiset, those that its own list of domains makes, replays included |
| Idempotency.RefusedPayloadsDiffer | src/domain_processing_service/routes.py:257-264 | A request answered 409 sent another multiset of normalized domains than every request under its key that got a job |
| Idempotency.OneJobPerKey | src/domain_processing_service/models.py:122-128 | Two committed jobs of one client and key are the same job |
| Idempotency.ConflictMeansDifferentPayload | src/domain_processing_service/routes.py:257-264 | A request answered 409 differs in canonical payload from every request under its key that got or made a job |
| Idempotency.TakenKeyDecides | src/domain_processing_service/routes.py:253-266 | In every state after a key was taken, a request under it with another payload can only have been answered 409 or 500; one with the same payload is never answered 409, and no other job is ever inserted for it |
| Idempotency.OnlyMakersLeaveAnything | src/domain_processing_service/routes.py:366-387 | At every moment a request has left a job, its tasks or a record behind if and only if it was answered 202 or its commit went through without being acknowledged; 200, 409, a rolled back 500 and an unfinished request left none |
| Idempotency.KeylessRequestsStandAlone | src/domain_processing_service/routes.py:267-272 | In every run a request received without a key is never answered as a replay or a conflict; the job it is answered with is its own, has the tasks of its payload, and no record names it |
| Idempotency.FreeRequestCreates | src/domain_processing_service/routes.py:227-366 | A request without a key, or with a free one, can go through to its own job, committed with the tasks of its payload and its record |
| Idempotency.TakenRequestIsAnswered | src/domain_processing_service/routes.py:252-266 | One with a taken key can be answered from the record or refused, and the tables stay as they are |
| Idempotency.RequestsComeIn | src/domain_processing_service/routes.py:94-122 | A request can come in at any time, and by itself changes no table |
| Idempotency.LostAnswerCommitsAllTheSame | src/domain_processing_service/routes.py:366-387 | A commit whose acknowledgement is lost leaves the same tables as one that is acknowledged |
| Idempotency.FailureLeavesTables | src/domain_processing_service/routes.py:374-387 | A transaction that fails changes nothing but its answer, and its key is free again |
| Idempotency.RecordsAreForever | src/domain_processing_service/routes.py:227-272 | What a key stands for never changes after its record is committed |
| Paging.SortBeyond | src/domain_processing_service/repositories/task.py:108-114 | Filtering by the cursor and then ordering is the same as cutting the ordered listing |
| Paging.CutIsExact | src/domain_processing_service/routes.py:496-511 | Reading two rows more than the page and dropping them is reading the page and knowing whether more follows |
| Paging.PageIsExact | src/domain_processing_service/routes.py:470-511 | A page is given exactly when the job exists, the limit is positive and the cursor decodes; it is the first `limit` keys beyond the cursor, with a next cursor exactly when keys remain |
| Paging.PageSizeIsRespected | src/domain_processing_service/routes.py:470-477 | A page is never longer than asked for, nor than the maximum, and is full when another follows |
| Paging.PageShowsStoredRows | src/domain_processing_service/repositories/task.py:98-116 | What a page shows are rows of the job beyond the cursor, as stored when the page is read |
| Paging.ListingIsExact | src/domain_processing_service/repositories/task.py:106-114 | The listing of a job holds the creation times and ids of exactly its tasks, each once, older first and the smaller id first among tasks of one time |
| Paging.CursorWalk | src/domain_processing_service/routes.py:470-511 | For any limits and whatever changes between pages except the keys, a cursor walk returns each task once, in strictly increasing (created_at, id) order, and stops after at most as many pages as tasks |
| Paging.RunKeepsJobKeys | src/domain_processing_service/repositories/task.py:98-116 | No run of the pipeline changes the keys that the listing of an existing job is made of |
| Paging.WalkDuringARun | src/domain_processing_service/routes.py:470-511 | A cursor walk interleaved with any run of the pipeline equals the sorted listing |

## Left out

- FastAPI wiring, middleware, logging, metrics, settings parsing, migrations: libraries and wiring without a law of their own.
- The SQLAlchemy identity map: a repository read is a read of the row, so the retry's re-read sees the stored version.
- DNS, HTTP and IP validation: a worker run is the nondeterministic choice of its final write (complete, fail, reschedule, or none, as after HTTP 408 and 429).
- Error classification tables, the backoff formula and the columns next_attempt_at, error_payload and updated_at: no query of the pipeline reads them.
- A second write by the same worker run after an exception that follows a committed write: each run ends with at most one final write.
- SHA-256, base64 and UUID generation: the hash is injective on the canonical form, the cursor is the pair it carries (or malformed), ids are fresh.
- The IDNA algorithm and Unicode tables: parameters of `Normalization.Text`.
- Uncommitted detail writes: each statement of `VersionHistory` takes effect at once, in commit order, so a writer that would wait for a row lock waits before its statement.
- Domain activation and deactivation: only the deletion of a detail row matters, and it is an interfering step.
- Lookup and creation of domain rows while a job is created: a task names its domain by its string.
- Shutdown ordering and signal handling: a crash step covers their effect on tasks.
- The status summary of a job and the rest of a page's payload: counting and copying of fields.
- Functions that only the repository's tests call (update_status, the unversioned upsert, process_domain).
- Manager.TaskManager.ClaimCycle: states a cycle during which nobody else uses the queue; the interleaving with the recovery loop and the workers is `HandOff`.
- Manager.TaskManager.RecoveryCycle: states an uninterrupted cycle, as above; the deactivation of domains is left out.
- BoundedQueue.Queue.Put: states a put once it proceeds; waiting for room is a step of `HandOff` that is not enabled.
- DomainProcessor.Processor.WriteFailTask: leaves out the error payload and the deactivation of the domain.
- DomainProcessor.Processor.WriteRescheduleTask: leaves out next_attempt_at with its backoff, the error payload and the deactivation of the domain; it reads and writes in one step, `Rescheduling` does not.
- WorkerLoop.Worker.RunLoop: states one worker with its queue to itself; several workers and everything between their steps are runs of `Pipeline`. The `task_done` count is left out.
- DomainLock.Lock.Acquire: states entering the context; leaving it is `Release`, which the protocol may repeat or lose.
- DomainDetail.DetailRepository.PersistDomainDetail: takes each upsert as one step; interference between its statements is `VersionHistory`.
- JobCreation.PrepareTasks: states domain strings and initial statuses; ids, times and error payloads of the new rows are left out.
- Scheduler.RefreshScheduler.Tick: takes the ids of new tasks and the database's answer to the ordered query as parameters.
- Rescheduling.AttemptBoundIsReached: is stated for a recovery limit that is not below the worker's; below it the bound of `AttemptsStayBounded` holds but is not claimed to be reached.
