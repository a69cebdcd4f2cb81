# The task queue, its supervisor and its migrations: a verified model

Many workers, task threads, stale-peer sweeps, startup cleanups and users act on
one table of task rows. Correctness rests on a small state machine, row locks with
SKIP LOCKED, a fresh runner id per claim, and a retry budget. This project models
that table and everything that writes it, and proves what the protocol guarantees
over whole runs.

`dafny verify dfyconfig.toml` checks the project.

## How it is laid out

- `TaskModel`, `TaskOrder`: a task row, the transition table, the effect of each
  single-row action, the serving order.
- `Claiming`, `Cascade`, `WaitingParent`, `Progress`: what one claim, cancellation,
  parent check and progress update make of the table, each with an independent
  characterisation (a rank condition, chains of active children, an if-and-only-if
  for completion, the mean of the children as they finally stand).
- `Protocol`, `Guarantees`: every committed transaction on the table as one step,
  any interleaving as a run, and the theorems about all runs.
- `Outcomes`, `Completion`, `Retries`: when each transaction goes through and what it
  leaves, in terms of the stored rows alone; where a result comes from; what becomes
  of a task that keeps raising.
- `Scenarios`: concrete runs from the empty table where the queue does less than one
  might expect.
- `Locking`: single-row transactions split into begin, acquire, hook, write, commit
  and abort; every interleaving is matched by a run of `Protocol` steps, and a
  transaction nobody is in the way of takes its step.
- `Recovery`: sweeps over dead workers and the startup cleanup.
- `Pipeline`, `PipelineHistory`, `PipelineProgress`: multi-phase tasks inside the
  protocol. A root's own code commits as execute() transactions and parent checks;
  every other step, of whomever, may come in between.
- `TaskTable`: the model's methods as the code writes them on stored rows, each
  proved to leave the table the functions above describe; `Batches`: those that write
  many rows are runs of protocol steps.
- `QueueWorker`, `WorkerRecords`, `Supervisor`, `TypeRegistry`, `Migrations`: slots
  and timeouts, worker records, the beat loop, the type registry, migration keys.

The table is a sequence of rows whose ids are their positions, so ids grow with
time and a parent is always older than its children.

## What turned out differently

- An automatic retry takes a running task to pending, which the declared transition
  table does not contain; `TaskModel.AutoRetryLeavesTheTable` says exactly when, and
  the relation actually in force is the table plus that edge
  (`TaskModel.EffectTransitions`).
- `action_start` looks at no runner id, so a thread that starts late may start the
  execution of a later claim (`Scenarios.LateStartIsAccepted`; exactly when:
  `Guarantees.StartIsOwnClaimIff`). Each claim is still started at most once.
- The singleton promise can break when two claims overlap: their snapshots can pick
  different canonical rows (`Guarantees.OverlappingClaimsBreakSingleton`). It
  survives exactly when no claimable row of the type has come to precede the one
  the first claim holds (`Claiming.OverlapSafeIff`, `Claiming.OverlapSafe`).
- A pipeline's execute() asks for no runner either. A starved thread that commits it
  after a later claim has parked the root plans phase 0 again and spawns a second
  wave (`Scenarios.LateExecuteReplans`), or, with nothing to spawn, marks the root
  past its last phase so that the next check completes it
  (`Scenarios.LateEmptySkipsPhase`). Exactly-once planning holds as long as this does
  not happen, and goes wrong with the first such commit
  (`PipelineHistory.PlannedOnceIff`, `Pipeline.NextInv`). A transaction can tell: with
  phases to plan and an execution open it is not late exactly when the task is
  running, or stuck with nothing to spawn. A late commit leaves the root's children
  partitioned into waves (`PipelineHistory.WavesPartition`), and a check still hands
  on the results of the wave spawned last (`PipelineHistory.HookSeesLastWave`); the
  percentage falls exactly when the late one spawns a wave whose phase begins below
  what is shown (`PipelineProgress.ExecuteFallsIff`).
- A pipeline root that is executed again keeps the children of its earlier
  executions. One of them that failed for good fails the root after any new wave
  (`Scenarios.RetriedRootFails`), until it is itself retried by hand, cancelled or
  given retries (`Guarantees.DeadChildBlocks`).
- A canonical singleton row that is not due yet, on a channel nobody serves, or
  locked holds back all other rows of its type (`Claiming.HeadOfLine`).
- The recovery sweep looks at the first ten orphans only. If ten of them keep
  failing to recover or stay locked, every orphan behind them waits for good;
  `Recovery.SweepsReach` gives the exact condition.
- An empty list of effective types means all types to `claim_task`, so service
  affinity holds exactly for non-empty lists (`QueueWorker.AffinityHoldsIff`).
- Merging a task type runs `__init_subclass__` again, so merged classes enter the
  list of definitions they were built from. Lookups are not affected
  (`TypeRegistry.LookupIsNewestFirst`).
- A joined parent keeps only settled children until somebody creates a task naming
  it as parent, which nothing forbids (`Guarantees.DoneParentAdopts`).
- A creation that loses the race for a unique key to a row its own snapshot does
  not show raises instead of reusing it (`TaskTable.TaskTable.CreateTask`).

## Model

| member | source | states |
|---|---|---|
| Guarantees.OneOutcomePerClaim | generic_task_queue/models/generic_task_queue_task.py:491-546 | In every run, of all done, fail, auto-retry and lost-execution writes accepted while the row carries one runner id, at most one is ever accepted |
| Guarantees.SpentRunnerNeverReturns | generic_task_queue/models/generic_task_queue_task.py:1299-1303 | Once a claim has its outcome, no assigned, running or stuck row carries its runner id again |
| Guarantees.ZombieWriteDropped | generic_task_queue/models/generic_task_queue_task.py:491-504 | From the moment a claim is over, whether finished, recovered, parked or cancelled, a write presenting its runner id leaves the whole system unchanged, on any row, however late it arrives |
| Guarantees.DroppedIffOver | generic_task_queue/models/generic_task_queue_task.py:506-546 | The guard is exact: every write presenting an issued runner id is dropped if and only if no row in flight carries it |
| Guarantees.OneStartPerClaim | generic_task_queue/models/generic_task_queue_task.py:333-345 | In every run at most one start is accepted while a row carries a given runner id, whichever threads try |
| Guarantees.StartIsOwnClaimIff | generic_task_queue/models/generic_task_queue_task.py:333-345 | An accepted start by the thread of a claim starts that claim if and only if no later claim has taken the row |
| Guarantees.RunnerIsLastClaim | generic_task_queue/models/generic_task_queue_task.py:1296-1303 | A row in flight carries the runner id of its last claim, and no id comes back to a row once replaced |
| Scenarios.LateStartIsAccepted | generic_task_queue/models/generic_task_queue_task.py:333-345 | The run: claim 1, its worker lost, claim 2, then a start by the thread of claim 1 is accepted and runs under runner 2 |
| Guarantees.ExecutionsConserved | generic_task_queue/models/generic_task_queue_task.py:426-471 | For every task in every run: accepted starts, plus one if pending or assigned, equal 1 + retry_count + manual retries; at most that if cancelled |
| Guarantees.BoundedExecutions | generic_task_queue/models/generic_task_queue_task.py:577-590 | While no edit changes max_retries, whatever else is edited, retry_count never passes it, and starts never pass 1 + max_retries + manual retries, however often workers crash |
| Guarantees.RetriesWereAllowed | generic_task_queue/models/generic_task_queue_task.py:237-241 | However users edit max_retries, retry_count never passes the largest value max_retries had at some moment of the run |
| Guarantees.HistoryCounts | generic_task_queue/models/generic_task_queue_task.py:334-345 | The start and manual-retry counters of the history are the numbers of accepted such steps in the run |
| Guarantees.SingletonExclusion | generic_task_queue/models/generic_task_queue_task.py:1262-1282 | When claims are serial and all carry the singleton types, no reachable table has two in-flight rows of one such type, whatever the limits and the other steps |
| Claiming.SecondPickIff | generic_task_queue/models/generic_task_queue_task.py:1255-1286 | While a first claim holds row i, still pending in the second snapshot, a second claim takes a row of the type if and only if another row of it is eligible, unlocked, within the limit, and served before i |
| Claiming.OverlapSafeIff | generic_task_queue/models/generic_task_queue_task.py:1255-1303 | Once both overlapping claims have committed, at most one row of the singleton type is in flight if and only if no row overtakes i in the second snapshot |
| Claiming.OverlapSafe | generic_task_queue/models/generic_task_queue_task.py:1271-1282 | Exclusion survives the overlap when no pending row of the type has come to precede i between the snapshots |
| Guarantees.OverlappingClaimsBreakSingleton | generic_task_queue/models/generic_task_queue_task.py:1255-1286 | An instance that breaks it: a more urgent row of the type is created between the two snapshots |
| Guarantees.LeavesWaiting | generic_task_queue/models/generic_task_queue_task.py:662-701 | In every reachable state one step takes a task out of waiting only by cancelling it, or to a terminal state with no child active |
| Guarantees.JoinIsFinal | generic_task_queue/models/generic_task_queue_task.py:703-759 | If a task went from waiting to done at some step, it stays done and every child it had then is done or cancelled, in all later states |
| Guarantees.DoneParentAdopts | generic_task_queue/models/generic_task_queue_task.py:1381-1384 | A done task gains a child exactly by a task creation that names it as parent |
| Guarantees.JoinCoversEveryChild | generic_task_queue/models/generic_task_queue_task.py:703-759 | If no creation names the joined parent afterwards, all children it has in any later state are done or cancelled |
| Guarantees.DeadChildBlocks | generic_task_queue/models/generic_task_queue_task.py:675-696 | A child that failed for good, of whatever execution of its parent, keeps the parent from becoming done out of waiting, in every run, until that child is retried by hand, cancelled or given retries |
| Guarantees.DeadUntilFreed | generic_task_queue/models/generic_task_queue_task.py:675-681 | A child that failed for good stays so in every step except exactly an accepted manual retry or cancellation of it, or an edit giving it retries |
| WaitingParent.CanCompleteIff | generic_task_queue/models/generic_task_queue_task.py:662-759 | Some hook outcome completes an unlocked waiting parent if and only if all its children, of whatever execution, are done or cancelled |
| WaitingParent.CheckFailsIff | generic_task_queue/models/generic_task_queue_task.py:675-744 | With no child active an unlocked waiting parent fails if and only if some child failed for good, or the hook, run on settled children, fails it |
| Scenarios.RetriedRootFails | generic_task_queue/models/generic_task_queue_task.py:675-696 | The run: a pipeline root fails with its child, is retried by hand, its second wave is all done, and it fails again for the child of the first |
| Guarantees.OneActivePerKey | generic_task_queue/models/generic_task_queue_task.py:68-75 | In every reachable table at most one active row holds each unique_key |
| Protocol.ReachInv | generic_task_queue/models/generic_task_queue_task.py:28-38 | Every run keeps at once: parents older than children, conservation, retry budget, exclusive ownership of runner ids, key uniqueness, progress within 0..100 |
| Protocol.StepConserves | generic_task_queue/models/generic_task_queue_task.py:334-488 | Every kind of committed transaction, or its rollback, keeps the conservation of executions on every row |
| Protocol.StepBudgets | generic_task_queue/models/generic_task_queue_task.py:237-241 | Every step keeps retry_count within the largest max_retries the row ever had, user edits included |
| Protocol.StepOwns | generic_task_queue/models/generic_task_queue_task.py:1295-1303 | Every step keeps: in-flight rows hold pairwise distinct issued runner ids, none of them spent, assigned ones not begun, and none is begun or spent twice |
| Protocol.StepKeys | generic_task_queue/models/generic_task_queue_task.py:68-75 | Every step, creations and both retries included, keeps at most one active row per unique_key |
| Protocol.StepInRange | generic_task_queue/models/generic_task_queue_task.py:1069-1197 | Every step, progress reports included, keeps all progress values within 0..100 |
| Protocol.StepExcludes | generic_task_queue/models/generic_task_queue_task.py:1262-1282 | Every step keeps at most one in-flight row per singleton type |
| Protocol.StepSettled | generic_task_queue/models/generic_task_queue_task.py:36-37 | Done and cancelled rows never change state, result or error again |
| Protocol.StayInFlight | generic_task_queue/models/generic_task_queue_task.py:1296-1302 | Only a claim puts a row in flight, and nothing rewrites the runner or worker of a row that stays in flight |
| Protocol.StepShape | generic_task_queue/models/generic_task_queue_task.py:1381-1384 | Every step keeps parent, type and key of every row, deletes none, and attaches new rows below older ones only |
| TaskModel.EffectTransitions | generic_task_queue/models/generic_task_queue_task.py:28-38 | Every thread, recovery and cleanup write follows the declared transition table, or is a charged retry from running to pending; terminal rows are never written |
| TaskModel.AutoRetryLeavesTheTable | generic_task_queue/models/generic_task_queue_task.py:447-471 | An accepted write leaves the declared table if and only if it requeues a running task with budget left: its thread failed retriably, or its execution was lost under a retrying policy |
| TaskModel.WhenceAllowed | generic_task_queue/models/generic_task_queue_task.py:28-38 | The transition table read by its targets: for each state, exactly from which it may be entered |
| TaskModel.RaisedRetriesIff | generic_task_queue/service/task_queue_worker.py:697-702 | A raising execution that owns its running or stuck row is requeued, charged and un-owned if and only if retries are left and the policy is retry_any, or retry_known with a known exception; otherwise the row fails with the trace |
| TaskModel.LostNamesTheExecution | generic_task_queue/models/generic_task_queue_task.py:519-546 | A recovery acts if and only if the row is in flight under the runner and the worker it was told, as far as it was told |
| Retries.FailsWithLastAllowed | generic_task_queue/service/task_queue_worker.py:350-385 | A task claimed and raising over and over stays pending, one retry charged each time, as long as policy and budget allow another attempt after each; it fails for good with the trace of the first attempt that neither lets be followed |
| Locking.InterleavingIsSerial | generic_task_queue/models/generic_task_queue_task.py:506-546 | Every interleaving of begin, acquire-or-skip, hook, write, commit and abort yields exactly the table and history of a run of atomic steps |
| Locking.InterleavingInv | generic_task_queue/models/generic_task_queue_task.py:506-546 | So all run invariants hold between any two micro steps |
| Locking.CommitIsAtomic | generic_task_queue/models/generic_task_queue_task.py:490-546 | A commit of a row re-read under its lock equals the atomic compare-and-set on state, runner and worker |
| Locking.OneCommitPerClaim | generic_task_queue/models/generic_task_queue_task.py:506-526 | Under arbitrary interleaving at most one final write per runner id is committed |
| Locking.LocksExclude | generic_task_queue/models/generic_task_queue_task.py:534-541 | Two transactions never hold the same row |
| Locking.NextKeepsLocks | generic_task_queue/models/generic_task_queue_task.py:544-546 | A lock holder always sees the committed row, and its decision on it still stands, until it commits |
| Locking.AloneIsAtomic | generic_task_queue/models/generic_task_queue_task.py:506-546 | Begun on any stored row of any reachable lock table, a transaction left alone commits exactly its atomic step if the row is unlocked and gives it something to do; otherwise table and locks are as before, a final write has given up and any other waits for the lock |
| Locking.FinalWriteEnds | generic_task_queue/models/generic_task_queue_task.py:534-546 | However long ago it began, a final write skips a locked row, and commits on an unlocked one if and only if the row as it now stands gives it something to do |
| Locking.OtherWriteEnds | generic_task_queue/models/generic_task_queue_task.py:333-357 | However long ago it began, any other write waits while its row is locked, then commits if and only if the row is still the one it saw; else it is dropped |
| Locking.WholeGoesThroughIff | generic_task_queue/models/generic_task_queue_task.py:1284-1286 | A multi-row transaction goes through if and only if every row it changes is unlocked |
| Locking.RereadMatters | generic_task_queue/models/generic_task_queue_task.py:511-513 | Two finalizers of one execution both find work on the same stale row, but after either has written the other finds none |
| Claiming.ClaimByRank | generic_task_queue/models/generic_task_queue_task.py:1255-1295 | A claim takes a row if and only if it is eligible, unlocked, and fewer than limit eligible unlocked rows are served before it |
| Claiming.ClaimCount | generic_task_queue/models/generic_task_queue_task.py:1284-1295 | The number claimed is min(limit, number of eligible unlocked rows) |
| Claiming.DueFromEtaOn | generic_task_queue/models/generic_task_queue_task.py:1261 | A row with an eta can be claimed at a clock if and only if the clock has reached it and it could be claimed at the eta; one without at every clock or at none |
| Claiming.OwnChannelOnly | generic_task_queue/models/generic_task_queue_task.py:1259 | Of the channels served only the row's own decides, and it has to be among them |
| Claiming.SingletonWaitsForHead | generic_task_queue/models/generic_task_queue_task.py:1262-1282 | The singleton clauses add exactly this, for singleton types only: nothing of the type is assigned, running or stuck, and the row is its first pending one by priority, creation date, id |
| Claiming.PendingIsEnough | generic_task_queue/models/generic_task_queue_task.py:1258-1286 | A due row of an unrestricted type on a served channel can be claimed if and only if it is pending and unlocked |
| Claiming.NoOvertaking | generic_task_queue/models/generic_task_queue_task.py:1283-1285 | Every claimed row comes before every eligible unlocked row left behind: lower priority value, then older creation date, then smaller id |
| Claiming.HeadOfLine | generic_task_queue/models/generic_task_queue_task.py:1271-1282 | A canonical singleton row that cannot be claimed (not due, foreign channel, locked) keeps every row of its type from being claimed |
| Claiming.ClaimKeepsSingleton | generic_task_queue/models/generic_task_queue_task.py:1262-1282 | One claim of any size never puts a second row of a singleton type in flight |
| Claiming.ClaimRow | generic_task_queue/models/generic_task_queue_task.py:1296-1303 | Each claimed row was pending and becomes assigned to the worker under its own drawn runner id; every other row is unchanged |
| TaskOrder.TakeByRank | generic_task_queue/models/generic_task_queue_task.py:1283-1284 | Taking the first n in order is the rank condition: fewer than n members are served before it |
| TaskTable.TaskTable.ClaimTask | generic_task_queue/models/generic_task_queue_task.py:1223-1304 | The claim as written (assign all, then a runner id per row) leaves exactly the claimed table and returns the claimed ids in order |
| TaskTable.TaskTable.ActionAssign | generic_task_queue/models/generic_task_queue_task.py:321-331 | Assigns all listed rows to the worker, or none if one is not pending |
| TaskTable.TaskTable.WriteRunners | generic_task_queue/models/generic_task_queue_task.py:1299-1302 | Each claimed row gets its own runner id and nothing else changes |
| TaskTable.NothingOnNoChannel | generic_task_queue/models/generic_task_queue_task.py:1241-1242 | Returning early on an empty channel list loses nothing: no row would have been eligible |
| TaskTable.TaskTable.AcquireFinalization | generic_task_queue/models/generic_task_queue_task.py:506-546 | True exactly when the row is unlocked, in an allowed state, and carries the runner and worker asked for, an unset check being skipped |
| TaskTable.TaskTable.OwnsExecution | generic_task_queue/models/generic_task_queue_task.py:490-504 | Without a runner id always proceeds; with one, exactly when the execution still owns the row |
| TaskTable.TaskTable.ActionStart | generic_task_queue/models/generic_task_queue_task.py:333-345 | Assigned becomes running with progress reset, whoever calls: no runner is checked; anything else is refused unchanged |
| TaskTable.TaskTable.ActionStuck | generic_task_queue/models/generic_task_queue_task.py:347-357 | Only running becomes stuck, without a charge |
| TaskTable.TaskTable.ActionWaitChildren | generic_task_queue/models/generic_task_queue_task.py:382-396 | Only running becomes waiting |
| TaskTable.TaskTable.ActionDone | generic_task_queue/models/generic_task_queue_task.py:359-380 | Dropped exactly when a runner is given and no longer owns the row, refused exactly outside running, stuck and waiting, otherwise done with the result |
| TaskTable.TaskTable.ActionFail | generic_task_queue/models/generic_task_queue_task.py:398-424 | The same three-way split for failing |
| TaskTable.TaskTable.ActionAutoRetry | generic_task_queue/models/generic_task_queue_task.py:447-471 | Requeues, un-owns and charges one attempt exactly when the caller owns the row, with no transition check |
| TaskTable.TaskTable.ActionRetry | generic_task_queue/models/generic_task_queue_task.py:426-445 | All requeued without a charge if all are failed and no key becomes active twice; otherwise none is changed |
| TaskTable.TaskTable.ActionRequeue | generic_task_queue/models/generic_task_queue_task.py:473-488 | Back to pending without a charge, where the table allows it |
| TaskTable.TaskTable.FinishThread | generic_task_queue/service/task_queue_worker.py:306-385 | The end of a task thread commits exactly the row effect of its captured runner id: nothing when parked, stale or locked |
| TaskTable.TaskTable.HandleLostExecution | generic_task_queue/models/generic_task_queue_task.py:548-590 | Recovery under lock: never-started rows requeued uncharged, retriable ones charged, others failed with the runner cleared; rows owned by another claim untouched |
| TaskTable.TaskTable.RecoverLostExecutions | generic_task_queue/models/generic_task_queue_task.py:592-607 | Every listed row is recovered, except that locked rows and rows whose recovery raises stay as they were; one error does not stop the rest |
| TaskTable.TaskTable.RecoverDeadWorkerTasks | generic_task_queue/service/task_queue_worker.py:746-760 | One sweep recovers the first ten orphans in serving order |
| TaskTable.TaskTable.CleanupOrphanedTasks | generic_task_queue/service/task_queue_worker.py:504-549 | Startup cleanup: waiting rows of the record un-owned, in-flight ones recovered, nothing else written |
| TaskTable.TaskTable.ActionCancel | generic_task_queue/models/generic_task_queue_task.py:609-626 | Recursive cancellation cancels exactly the reached rows and fails, changing nothing, exactly when a root is done or already cancelled |
| TaskTable.TaskTable.CheckWaitingParent | generic_task_queue/models/generic_task_queue_task.py:628-759 | The check as written leaves exactly the table of the completion rule |
| TaskTable.TaskTable.CompleteParent | generic_task_queue/models/generic_task_queue_task.py:703-759 | After the hook: parent re-armed if fresh children are active, left as the hook ended it, kept waiting on a retry or transient error, failed on any other, else done |
| TaskTable.TaskTable.StartWave | generic_task_queue/service/task_type.py:405-433 | The loop finds the first phase from the given index that yields children, spawns them, records phase and wave and parks the task; when planning raises or parking is refused nothing is written; exhaustion records the index |
| TaskTable.TaskTable.CreateTask | generic_task_queue/models/generic_task_queue_task.py:1306-1426 | With a key: an active holder is reused or reported without inserting; otherwise at most one row is added even in the race, and the row returned is an active holder |
| TaskTable.TaskTable.AutoRetryFailed | generic_task_queue/service/task_queue_worker.py:626-680 | Some ten, or all if fewer, unlocked retriable failed rows of the worker's channels and types are all charged and requeued, or none if that would put two active rows under one key |
| TaskTable.RetriableIsNotDead | generic_task_queue/service/task_queue_worker.py:626-680 | The failed-task sweep may take exactly the unlocked failed rows of its channels and types that do not count as dead for their parent |
| Outcomes.CreateOutcome | generic_task_queue/models/generic_task_queue_task.py:243-262 | For all values of a new task: it is stored as a fresh pending row if and only if its parent is stored and no unfinished row holds its key |
| Outcomes.CancelOutcome | generic_task_queue/models/generic_task_queue_task.py:609-626 | A cancellation goes through if and only if the task is neither done nor cancelled, and then sets exactly the state of it and of all unfinished rows joined to it by unfinished rows |
| Outcomes.ForkOutcome | generic_task_queue/service/task_type.py:413-429 | Children are spawned and the task parked if and only if it is running, or waiting and the fork is a pipeline wave; the marker holds the phase and the ids of the appended rows in order |
| Outcomes.HookOutcome | generic_task_queue/models/generic_task_queue_task.py:703-759 | A hook that returns with children has them appended under the still waiting parent; one that returns without completes it with its value |
| Outcomes.ManualRetryOutcome | generic_task_queue/models/generic_task_queue_task.py:426-445 | A manual retry requeues uncharged if and only if the row is failed and no unfinished row holds its key, whatever policy and budget |
| Outcomes.DeadOrRetriable | generic_task_queue/models/generic_task_queue_task.py:675-681 | A failed child counts as dead for its parent if and only if the automatic retry of failed tasks may never take it |
| Batches.CleanupIsRun | generic_task_queue/service/task_queue_worker.py:504-549 | The startup cleanup equals a run of un-owning and recovery steps, so every run invariant survives it |
| Batches.SweepIsRun | generic_task_queue/service/task_queue_worker.py:746-760 | A sweep with any rows locked or raising equals a run of recovery steps |
| Batches.ChargeIsRun | generic_task_queue/service/task_queue_worker.py:626-680 | A committed sweep over failed tasks equals a run of automatic retries, each admitted by the unique index |
| Batches.ResetIsRun | generic_task_queue/models/generic_task_queue_task.py:426-445 | A committed manual retry of a recordset equals a run of single retries |
| TaskTable.TaskTable.UpdateProgress | generic_task_queue/models/generic_task_queue_task.py:1069-1129 | Clamps, writes unless locked, and propagates as specified |
| TaskTable.TaskTable.PropagateProgressUpward | generic_task_queue/models/generic_task_queue_task.py:1131-1197 | The recursive climb leaves exactly the propagated table |
| Cascade.ReachedByChain | generic_task_queue/models/generic_task_queue_task.py:620-625 | A row is reached by a cancellation exactly when a chain of active children joins it to a root |
| Cascade.CancelExact | generic_task_queue/models/generic_task_queue_task.py:609-626 | A cancellation changes exactly the joined rows, keeps all parent links, and leaves no active child below a reached row |
| Cascade.LevelByLevel | generic_task_queue/models/generic_task_queue_task.py:616-625 | Cancelling level by level reaches the same rows as the chains |
| Cascade.NextLevelCancellable | generic_task_queue/models/generic_task_queue_task.py:615-625 | Below the roots no transition check can fail |
| WaitingParent.CheckSettles | generic_task_queue/models/generic_task_queue_task.py:662-759 | A check takes a parent out of waiting only unlocked and with all children terminal, to done only with all children done or cancelled, and only along the transition table |
| WaitingParent.CheckCompletes | generic_task_queue/models/generic_task_queue_task.py:703-759 | A waiting parent with children is done after a check if and only if it was unlocked, all children are done or cancelled, and the hook returned without spawning or itself completed the task |
| WaitingParent.CheckFrame | generic_task_queue/models/generic_task_queue_task.py:628-759 | A check writes only its parent and appends fresh children of it, and appends only while it stays waiting |
| Progress.UpdateExact | generic_task_queue/models/generic_task_queue_task.py:1069-1197 | The task holds the clamped value unless locked; every ancestor on the climb has children and holds the integer nearest to their sum over their number as they finally stand; no other row or field changes |
| Progress.PropagateExact | generic_task_queue/models/generic_task_queue_task.py:1131-1197 | Along one climb every written ancestor has children and holds the integer nearest to their mean in the final table |
| Progress.UpdateInRange | generic_task_queue/models/generic_task_queue_task.py:1091 | Progress values stay within 0..100 |
| Progress.LockedStops | generic_task_queue/models/generic_task_queue_task.py:1159-1170 | A locked ancestor stops the climb: it and everything above keep their rows |
| Progress.RoundedMeanIsNearest | generic_task_queue/models/generic_task_queue_task.py:1150-1156 | The written mean is the integer nearest to sum over count, halves away from zero |
| Progress.KidCountIsSize | generic_task_queue/models/generic_task_queue_task.py:1150-1155 | The count is the size of the set of children |
| Progress.KidSumMoves | generic_task_queue/models/generic_task_queue_task.py:1150-1155 | Writing one row's progress moves the sum of its parent's children by exactly the difference, and no other sum |
| Progress.EvenKids | generic_task_queue/models/generic_task_queue_task.py:1150-1155 | Children that all stand at v sum to v times their number |
| Recovery.RecoveredSettles | generic_task_queue/models/generic_task_queue_task.py:577-590 | A recovered row is pending and un-owned, or failed without a runner; charged one attempt exactly when it had started and is requeued |
| Recovery.SweepFrame | generic_task_queue/service/task_queue_worker.py:753-757 | Rows of live workers and rows not in flight are untouched by a sweep |
| Recovery.SweepByRank | generic_task_queue/service/task_queue_worker.py:751-757 | A sweep leaves an orphan exactly if it is blocked or ten orphans are served before it |
| Recovery.SweepCount | generic_task_queue/service/task_queue_worker.py:24-26 | With nothing blocked a sweep recovers min(10, n) of n orphans |
| Recovery.RecoveryConverges | generic_task_queue/service/task_queue_worker.py:746-757 | Amid arbitrary other steps that hand no row to a dead worker, after k sweeps at most n - 10k of n orphans are left; ceil(n/10) sweeps leave none |
| Recovery.RecoverIsRecoverAll | generic_task_queue/models/generic_task_queue_task.py:592-607 | A sweep run as protocol steps yields the swept table |
| Recovery.RecoverInv | generic_task_queue/models/generic_task_queue_task.py:592-607 | Sweeps keep every run invariant |
| Recovery.OthersAddNoOrphans | generic_task_queue/service/task_queue_worker.py:753-756 | Only a claim by a dead worker can add orphans |
| Recovery.SweepsReach | generic_task_queue/service/task_queue_worker.py:746-757 | With persistently blocked rows, repeated sweeps recover an unblocked orphan if and only if fewer than ten blocked orphans are served before it |
| Recovery.Starved | generic_task_queue/service/task_queue_worker.py:24-26 | Ten blocked orphans ahead starve a row through every number of sweeps |
| Recovery.CleanupSettles | generic_task_queue/service/task_queue_worker.py:504-549 | After startup no unblocked row of the record is in flight or an owned waiting parent; rows of other workers are unchanged |
| PipelineHistory.PlannedOnceInOrder | generic_task_queue/service/task_type.py:378-433 | Over the whole life of a root in which no execute() of it comes late, whatever else happens: the committed plan_phase calls of an execution are for phases 0, 1, 2, ... without gap or repetition; a done root has planned all of them |
| PipelineHistory.PlannedOnceIff | generic_task_queue/service/task_type.py:405-433 | After such a life one more event keeps the calls in order if and only if it is no late execute(), one that commits while an execution is open without beginning its own; with phases to plan it repeats phase 0 |
| PipelineHistory.WavesPartition | generic_task_queue/service/task_type.py:413-429 | In every life of a root, late execute() included, the children it got since its execution began are exactly the members of the waves, each in one wave only, and those created under it by hand, which are in none |
| PipelineHistory.AdoptedMeans | generic_task_queue/models/generic_task_queue_task.py:1381-1384 | A row counts as created by hand under the root if and only if some event of its life is an accepted creation that names the root and appends that very row, and the row is newer than the start of the execution; late execute() or not |
| PipelineHistory.PlanSeesLastWave | generic_task_queue/service/task_type.py:388-403 | Without late execute() each plan_phase call was told the outcome of the last non-empty wave and of nothing else, one entry per child in the order spawned: for a done child the value handed in by the accepted step that completed it, for a cancelled one nothing, for neither an error; with no wave before, nothing at all |
| PipelineHistory.HookSeesLastWave | generic_task_queue/service/task_type.py:388-403 | In every life of a root, late execute() included, a check that plans hands on the outcome of the wave spawned last, read through the stored child ids, entry by entry as for PlanSeesLastWave, and all of that wave is done or cancelled |
| PipelineHistory.ChildHoldsValue | generic_task_queue/models/generic_task_queue_task.py:360-380 | In every life of a root each of its children created meanwhile and done by now holds the value handed in by the step that took it to done, a step of somebody else |
| Completion.ResultIsHandedIn | generic_task_queue/models/generic_task_queue_task.py:359-380 | In every run a done task holds the value its thread returned, its hook returned or its hook ended it with, in the accepted step that took it to done; nothing if it was completed for want of children |
| PipelineHistory.LateEmptyCompletes | generic_task_queue/service/task_type.py:431-433 | An execute() with nothing to spawn that commits while the root waits makes the next check of the settled root complete it, whatever phases were left |
| Scenarios.LateExecuteReplans | generic_task_queue/service/task_queue_worker.py:306-338 | The run: claim 1 starts, its worker is declared dead, claim 2 starts and spawns the wave of phase 0; then the thread of claim 1 plans phase 0 again and spawns a second wave, and both commit |
| Scenarios.LateEmptySkipsPhase | generic_task_queue/service/task_type.py:431-433 | The run: the late thread has nothing to spawn and writes the phase past the end; a two-phase root is done after one wave although its second phase had a child to spawn |
| Pipeline.AdvanceDecreases | generic_task_queue/service/task_type.py:405-433 | Spawning a wave strictly lowers the number of phases left; completion happens only at phase = number of phases |
| Pipeline.RaisingHookInert | generic_task_queue/models/generic_task_queue_task.py:717-744 | A raising hook changes neither phase, wave nor any other row; it fails the parent unless it asked for a retry or hit a transient error |
| Pipeline.HookIsStartWave | generic_task_queue/service/task_type.py:388-433 | The parent check of a pipeline whose children have settled leaves the table _start_wave leaves: the next non-empty wave spawned and the root still waiting, or the root done with the phase index past the end and the aggregate as result; a raising plan or aggregate fails it exactly for an error that is neither a retry request nor a database error |
| Pipeline.StartOk | generic_task_queue/service/task_type.py:378-386 | execute() of a running task, or of a stuck one with nothing to spawn, begins an execution in which the pipeline invariant holds, whatever children earlier executions left |
| Pipeline.ExecuteInvIff | generic_task_queue/service/task_type.py:405-433 | From any state of the invariant, every execute() of any thread, committed or not, keeps it if and only if it does not come late |
| Pipeline.NextInv | generic_task_queue/service/task_type.py:378-433 | The pipeline invariant survives an event of anybody, creations under the root and its requeueing included, if and only if the event is no late execute() |
| Pipeline.ResultStays | generic_task_queue/service/task_type.py:283-292 | What a done or cancelled child reports never changes afterwards |
| Pipeline.ReportSays | generic_task_queue/service/task_type.py:283-292 | A report gives the state of its task, the result of a done one only, the error of a failed one only |
| Pipeline.ForeignFrame | generic_task_queue/models/generic_task_queue_task.py:628-660 | Steps of others leave the phase and wave of the root alone, attach to it exactly the tasks created by hand, move a waiting root only to cancelled, a terminal one only by requeueing, and none to done |
| PipelineProgress.PercentRange | generic_task_queue/service/task_type.py:461-483 | The percentage is at most 100, and 100 exactly when the last phase's wave is fully terminal |
| PipelineProgress.PercentExact | generic_task_queue/service/task_type.py:461-483 | The percentage is the filled share of the equal slices, rounded down |
| PipelineProgress.ShowsAllOfIt | generic_task_queue/service/task_type.py:461-483 | A waiting root shows at most 100, and 100 if and only if it stands in its last phase and every member of that wave is done, failed or cancelled |
| PipelineProgress.FinishedIsSize | generic_task_queue/service/task_type.py:475-479 | The number of finished children is the size of the set of those done, failed or cancelled |
| PipelineProgress.PercentInWave | generic_task_queue/service/task_type.py:477-482 | Within a wave it is monotone in the number of terminal children |
| PipelineProgress.PercentAcross | generic_task_queue/service/task_type.py:461-483 | It never falls across phases, whatever the wave sizes and however many phases are skipped |
| PipelineProgress.ProgressNeverFalls | generic_task_queue/service/task_type.py:461-483 | While the root waits no event makes the shown percentage fall, except an accepted retry of a failed child of the current wave and an execute() that spawns a wave |
| PipelineProgress.ExecuteFallsIff | generic_task_queue/service/task_type.py:405-483 | Any execute() of a waiting root, whichever thread's, makes the percentage fall if and only if it spawns a wave whose phase begins below the percentage shown |
| PipelineProgress.LateWaveShows | generic_task_queue/service/task_type.py:461-483 | A late execute() that spawns a wave sends the percentage to the start of its phase, wherever it stood |
| QueueWorker.SlotBound | generic_task_queue/service/task_queue_worker.py:191-194 | Over every sequence of cycles, each claiming as many rows as it finds slots free, the tracked threads never exceed max_parallel_jobs, nor zero if it is negative |
| QueueWorker.CycleFills | generic_task_queue/service/task_queue_worker.py:191-194 | A cycle fills all free slots, or as many as there are claimable rows |
| QueueWorker.ThreadOwnsRow | generic_task_queue/service/task_queue_worker.py:253-281 | Each spawned thread holds the runner id, worker and timeout of the row claimed for it, which it therefore owns |
| QueueWorker.StuckMeansFull | generic_task_queue/service/task_queue_worker.py:108-121 | is_stuck is true exactly when there are slots, none is free, and every one holds a timed-out live thread |
| QueueWorker.StuckClaimsNothing | generic_task_queue/service/task_queue_worker.py:172-194 | A stuck worker's cycle changes no slot while those threads live |
| QueueWorker.AffinityHoldsIff | generic_task_queue/models/generic_task_queue_task.py:1246-1251 | Claims respect the effective type list if and only if it is not empty: an empty list means all types |
| QueueWorker.ClaimableIff | generic_task_queue/service/task_queue_worker.py:207-228 | With a non-empty effective list a row is considered if and only if it would be without type filter and its type is registered, bound to no other service, and allowed |
| QueueWorker.StuckByLook | generic_task_queue/service/task_queue_worker.py:452-502 | One look makes a task stuck if and only if it is running and a live thread not flagged before has been on it longer than its timeout, zero meaning none |
| QueueWorker.FlaggedOncePastDeadline | generic_task_queue/service/task_queue_worker.py:452-502 | Over any sequence of looks a thread is flagged, for good, if and only if it has a timeout and some look came past its deadline |
| QueueWorker.QueueWorker.FinalizeCompleted | generic_task_queue/service/task_queue_worker.py:394-411 | The one-pass loop keeps exactly the live threads in order and returns exactly the ended timed-out ones |
| QueueWorker.QueueWorker.CheckTimeouts | generic_task_queue/service/task_queue_worker.py:452-502 | Flags exactly the expired threads, and makes stuck exactly the running tasks of those still alive |
| QueueWorker.QueueWorker.IsStuck | generic_task_queue/service/task_queue_worker.py:108-121 | Decides the full-of-timed-out-threads condition |
| QueueWorker.QueueWorker.ClaimAndSpawn | generic_task_queue/service/task_queue_worker.py:239-281 | One tracked thread per claimed row, carrying the runner id stored on the row; earlier threads untouched |
| QueueWorker.QueueWorker.RunCycle | generic_task_queue/service/task_queue_worker.py:172-194 | A cycle drops ended threads, flags expired ones and their tasks by the liveness seen then, and claims exactly for the free slots, one thread a row; without free slots nothing is claimed; the slot bound is kept |
| WorkerRecords.StaleCheckAndSweep | generic_task_queue/models/generic_task_queue_worker.py:121-157 | After a stale check exactly the formerly dead and the unlocked silent workers are dead; the following sweep settles their first ten tasks and touches no task of others |
| WorkerRecords.WorkerTable.FindOrCreate | generic_task_queue/models/generic_task_queue_worker.py:84-119 | Reuses the first record of the same service, database and host under the new uuid if there is one, and appends one if not; one record per home is kept |
| WorkerRecords.WorkerTable.Heartbeat | generic_task_queue/models/generic_task_queue_worker.py:53-65 | Refreshes time and health, reviving a record declared dead |
| WorkerRecords.WorkerTable.MarkDead | generic_task_queue/models/generic_task_queue_worker.py:67-72 | The dead workers become those before plus exactly the given ones; every record keeps its home, uuid and heartbeat, so every restart finds the record it would have found |
| WorkerRecords.WorkerTable.CheckStaleWorkers | generic_task_queue/models/generic_task_queue_worker.py:121-157 | Returns and marks dead exactly the unlocked, not yet dead records silent since before the threshold |
| Supervisor.OneLiveWorkerPerDatabase | generic_background_service/service/background_service.py:200-230 | Over any sequence of beats and worker deaths no database has two live workers, and a live one is registered |
| Supervisor.AlwaysSupervised | generic_background_service/service/background_service.py:311-320 | Every live worker ever spawned is the registry entry of its database, in every reachable fleet |
| Supervisor.RemovedWorkersAreDead | generic_background_service/service/background_service.py:269-283 | A worker leaves the registry only when it is dead |
| Supervisor.ActiveDatabasesServed | generic_background_service/service/background_service.py:216-230 | After spawning without an exception every active database has a registered worker |
| Supervisor.SignalledIff | generic_background_service/service/background_service.py:244-267 | A beat signals exactly the live registered workers whose database's last probe is missing or inactive, and changes nothing else |
| Supervisor.FiresIff | generic_background_service/service/background_service.py:388-414 | The stuck handler fires at a beat if and only if all beats since the later of the last non-stuck beat and the last firing are stuck and the first of them is at least the timeout earlier |
| Supervisor.FiringsApart | generic_background_service/service/background_service.py:404-409 | With a non-decreasing clock two firings are at least the timeout apart |
| Supervisor.BackgroundService.SpawnWorkers | generic_background_service/service/background_service.py:216-230 | The loop spawns exactly for active databases without a registered worker, an exception skipping only its own |
| Supervisor.BackgroundService.SpawnWorker | generic_background_service/service/background_service.py:200-214 | Registers before starting: a worker whose thread cannot start stays registered, dead |
| Supervisor.BackgroundService.StopWorkers | generic_background_service/service/background_service.py:244-267 | Signals exactly the live workers of databases whose last probe is missing or inactive; registry unchanged |
| Supervisor.BackgroundService.StopWorker | generic_background_service/service/background_service.py:232-242 | Signals the registered worker if alive |
| Supervisor.BackgroundService.CleanWorkers | generic_background_service/service/background_service.py:269-283 | Removes exactly the dead entries |
| Supervisor.BackgroundService.IsStuck | generic_background_service/service/background_service.py:362-368 | True exactly when some live worker ever spawned reports being stuck |
| Supervisor.BackgroundService.CheckServiceStuck | generic_background_service/service/background_service.py:388-414 | One beat of the timer, and a hard reload is requested exactly on firing in worker mode |
| TypeRegistry.LookupIsNewestFirst | generic_task_queue/service/task_type_registry.py:31-92 | After any sequence of definitions, initializations and lookups, a lookup yields all bodies defined under the name, newest first, and fails exactly for names never defined |
| TypeRegistry.AlwaysCoherent | generic_task_queue/service/task_type_registry.py:31-63 | Every cached class and every definition list resolves to the bodies defined so far under its name, although merged classes register themselves |
| TypeRegistry.MergeKeepsLookup | generic_task_queue/service/task_type.py:112-116 | Registering a merged class in front of its own bases changes no lookup |
| TypeRegistry.TaskTypeRegistry.RegisterType | generic_task_queue/service/task_type_registry.py:31-41 | Inserts in front and drops the cached class of that name only |
| TypeRegistry.TaskTypeRegistry.Initialize | generic_task_queue/service/task_type_registry.py:43-63 | The loop merges exactly the uncached names, each once |
| TypeRegistry.TaskTypeRegistry.GetTaskType | generic_task_queue/service/task_type_registry.py:73-92 | Builds on first access; None exactly for names never registered |
| Migrations.KeyInjective | generic_background_migration/models/generic_background_migration.py:167-170 | On scanned versions and names the composite key is equal exactly for equal migrations, whatever the add-on name |
| Migrations.UnscannedKeysCollide | generic_background_migration/models/generic_background_migration.py:167-170 | Without the scan's restriction two different migrations can share a key |
| Migrations.OneActiveTaskPerMigration | generic_background_migration/models/generic_background_migration.py:167-182 | In every reachable table two active rows with migration keys are the same row exactly when their migrations are the same |
| Migrations.Scheduler.ScheduleMigration | generic_background_migration/models/generic_background_migration.py:111-146 | Done migrations are left alone; any other is pending afterwards and linked to the only active row of its key, unless the insert race is lost |
| Migrations.Scheduler.EnqueueTask | generic_background_migration/models/generic_background_migration.py:167-182 | At most one row added and none changed; the record is linked to an active holder of its key unless the insert loses the race to a row it cannot see, exactly then nothing is recorded; other records are unchanged |

## Left out

- Locking.InterleavingIsSerial: only single-row transactions are split; a claim, cancellation, creation, parent check or wave is one atomic step that goes through only while it leaves locked rows alone, so what a multi-row transaction sees of others that commit during it is not modelled.
- Guarantees.SingletonExclusion: claims are serial atomic steps; with overlapping snapshots it holds exactly under the condition of Claiming.OverlapSafeIff, which is stated for two claims.
- Guarantees.BoundedExecutions: assumes no edit changes the task's max_retries during the run, since users may write it.
- PipelineProgress.PercentRange: exact rational arithmetic; rounding of the floating-point fraction is not modelled.
- TypeRegistry.LookupIsNewestFirst: method resolution is reduced to "each body at its first place, newest first", without Python's C3 consistency check, and each class object is registered once.
- WorkerRecords.WorkerTable.FindOrCreate: two hosts registering at the same moment; the record table has no constraint against it.
- QueueWorker.QueueWorker.RunCycle: the slot-keeping part of a cycle; heartbeat, parent checks, retries and sweeps are proved separately and do not touch the slots, and what they commit between the timeouts and the claim is not part of the cycle.
- Ties between equal priority and creation date, which SQL leaves open, are broken by id.
- Deletion of old tasks, and hence gaps in ids.
- Hooks other than on_all_children_done: tasks they create appear as separate creations, their business writes not at all.
- TaskTable.TaskTable.CompleteParent: a hook may end its own task as done, failed or cancelled, but not both spawn children and end it.
- Hooks may run more than once and a zombie's business logic may overlap a re-run; only final writes are guarded, so nothing is claimed about hooks.
- Liveness of running tasks, and fairness of the poll loops (the waiting-parent poll looks at ten rows a cycle).
- The caller of recovery for timed-out threads that ended without a final state (its effect is the same lost-execution step).
- Retry delay tables: the retry time is a parameter.
- PipelineHistory.PlannedOnceInOrder: the whole pipeline is the framework's execute() and on_all_children_done; a plan_phase that itself parks, forks or ends its root is not modelled.
- Names, timestamps, structured error data, params and bus notifications of tasks; access rules and user identity.
- update_progress on several records at once; the percentage is written for one.
- Task specs, create_tasks, type synchronisation, configuration parsing.
- Threads, signals, containers, shutdown waits, database probing: liveness, probe results and clocks are parameters.
- The migration directory scan and the migration task itself: scanned versions and names enter as strings without a separator.
