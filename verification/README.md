# A verified model of the agent runtime's state machines, logs and indexes

The repository is an agent runtime. Around its model calls sit small state machines, queues, logs and indexes. This
project models them in Dafny and proves what they keep over unbounded runs:

- `CoordinatorProtocol.dfy` is the swarm coordinator as a transition system on values, `CoordinatorOutcomes.dfy` what each
  of its steps changes, and `Coordinator.dfy` its mutable objects: each method is proved to take the protocol step of the
  same name.
- `DelegationGraph.dfy` and `SwarmExecutor.dfy` are the subtask graph with Kahn's algorithm and the round-based executor.
- `Heap.dfy`, `Jobs.dfy`, `JobQueue.dfy` and `QueueManager.dfy` are the job queue over a binary heap, with its persistence.
- `Scheduler.dfy` is the cascade of event triggers that re-enters itself through the event bus.
- `Transactions.dfy` is snapshot and rollback under path aliasing; `JobStore.dfy` is the job log with crash recovery;
  `EventReplay.dfy`,
  `ReplayCounts.dfy` and `PluginReplay.dfy` are the event store and the two replays; `LineLog.dfy` is the log files of both.
- `StateMachine.dfy` and `Orchestrator.dfy` are the control loop over planner, critic and coder as arbitrary oracles.
- `MergeEngine.dfy`, `CommandPalette.dfy` with `PaletteScores.dfy`, and `ResponseCache.dfy` are patch merging, fuzzy search
  with the command history, and the response cache. `StableSort.dfy` is the built-in sort they use.
- `Basics.dfy` and `Sequences.dfy` hold small functions and facts about sequences that several components share.

A class carries the fields its source object updates, its methods are proved against functions on values, and the laws
are lemmas about those functions. Clocks, agent answers, write failures and crash points are parameters.

Where a promise does not hold of the code, the model follows the code, a lemma gives the exact condition and another an
input on which it fails:

- `complete` and `fail` of the coordinator do not look at a task's status; they keep the invariant exactly on unknown or
  assigned ids (`CompleteKeepsIff`, `FailKeepsIff`; broken in `ReportedAgainBreaks`).
- The executor has no round left after its cap to mark nodes failed (`TerminalIff`, `ChainOverCap`).
- `peek` gives the job a new ticket, so it may lose its turn to a tie (`PeekKeepsNextIff`, `PeekSwapsTies`); requeueing a
  job that was cancelled while waiting leaves two entries for it (`RequeueKeepsOneEntryIff`, `CancelThenRequeue`); reloading
  reorders ties that were not in table order (`SaveLoadKeepsOrderIff`, `ReloadSwapsTies`).
- A cascade of triggers ends on every clock exactly when nothing listens to its event or nothing to the two events of a
  firing (`EventEndsIff`); otherwise a slow enough clock keeps it going (`TriggersItself`), but only one that never stops
  moving on (`EndsInTime`). How often a trigger fires in any window is bounded on every clock (`FiresPerWindow`).
- A file that cannot be read is not protected by its snapshot, and one with carriage returns or bytes that are no characters
  is restored altered (`SnapshotProtectsIff`, `ReadsBackIff`, `LineEndIsLost`).
- A pending job without update that has 2000 or more later job records is not recovered (`ReportedIff`,
  `OldJobIsNotReported`), a torn last line makes recovery report a job twice (`RecoverTwice`, `TornThenRecovered`), and the
  previous status that recovery reports is always `crashed`, whatever it was (`JobPipeline.Recover`).
- Beyond 50000 events the two replays agree on counts, commands and plugins under the conditions of `CountsAgreeIff`,
  `CommandsAgreeIff`, `PluginsAgreeIff` and `PluginsAgreeIffReloaded` only (`MissedBeyondLimit`), and they differ on errors
  without a type (`ErrorsAgreeIff`, `ErrorWithoutType`); a flush that breaks off writes lines twice or loses one
  (`FlushKeepsIff`, `RetryRestoresIff`, `HalfWrittenFlush`).
- A plan rejected twice is executed (`SecondRejectionIsExecuted`), and the orchestrator's own transaction never holds a
  snapshot, so its rollback restores no file (`Orchestrator.Run`).
- A single patch is taken for the whole file without looking at the base (`SinglePatchIff`, `OneOfTwoLetters`); extending
  the empty query can add power commands (`ExtendingNarrowsIff`, `PrefixAddsPower`); in a cache loaded over its bound the
  entry just put can be evicted (`SurvivesIff`, `PutIsEvicted`).

## Model

| member | source | states |
|---|---|---|
| CoordinatorProtocol.Select | engine/distributed/coordinator.py:13-34 | a worker is chosen exactly when one is idle, it is idle, and if any idle worker has the required capabilities it has them |
| CoordinatorProtocol.SelectIsFirstLeast | engine/distributed/coordinator.py:13-34 | the chosen worker is in the pool, the capable idle workers if there are any and else all idle ones; none in it has a lesser key, and none before it in registry order an equal one |
| CoordinatorProtocol.LeastLoadedTakesFewest | engine/distributed/coordinator.py:29-30 | the least loaded strategy takes a worker of the pool with the fewest completed jobs, the first in registry order of several |
| CoordinatorProtocol.CapabilityFirstTakesMost | engine/distributed/coordinator.py:31-32 | the capability strategy takes one with the most capabilities, the first of several |
| CoordinatorProtocol.OthersTakeFirst | engine/distributed/coordinator.py:27-34 | the other strategies take the first of the pool in registry order |
| CoordinatorProtocol.ReachableIsSafe | engine/distributed/coordinator.py:82-256 | in every state a legal run reaches: nothing waits for recovery, nothing waits while a worker is idle, every submitted task is running, pending, completed or failed, busy workers are as many as running tasks, and the worker counters count the outcomes |
| CoordinatorProtocol.EachTaskOnce | engine/distributed/coordinator.py:82-256 | running, pending, completed and failed are disjoint and together are what was submitted, in number as well |
| CoordinatorProtocol.BusyMatchesRunning | engine/distributed/coordinator.py:110-129 | busy workers and assigned tasks match one to one through the worker id |
| CoordinatorProtocol.CountersAgree | engine/distributed/coordinator.py:154-197 | the workers' failure counts add up to the tasks' retries, their completion counts to the completed tasks, and a task has failed for good exactly when its retries are used up |
| CoordinatorProtocol.RunKeeps | engine/distributed/coordinator.py:82-256 | every legal run of submit, complete, fail and handle_dead_worker keeps the invariant |
| CoordinatorProtocol.StartKeeps | engine/distributed/coordinator.py:68-80 | an unused registry and no task satisfy the invariant |
| CoordinatorProtocol.StepKeeps | engine/distributed/coordinator.py:82-256 | each allowed step keeps the invariant |
| CoordinatorProtocol.SubmitKeeps | engine/distributed/coordinator.py:82-108 | submitting a new task keeps the invariant |
| CoordinatorProtocol.CompleteKeepsIff | engine/distributed/coordinator.py:131-152 | complete does not look at the status: it keeps the invariant exactly when the id is unknown or its task is assigned |
| CoordinatorProtocol.FailKeepsIff | engine/distributed/coordinator.py:154-197 | fail does not look at the status either: it keeps the invariant exactly when the id is unknown or its task is assigned |
| CoordinatorProtocol.ReportedAgainBreaks | engine/distributed/coordinator.py:131-197 | a run, submit and complete, after which completing or failing the same task again breaks the invariant |
| CoordinatorProtocol.RetryReassigns | engine/distributed/coordinator.py:159-176 | with retries left the freed worker is idle, so the branch that queues a task and then fails it for good is never taken |
| CoordinatorProtocol.HandleDeadWorkerKeeps | engine/distributed/coordinator.py:202-242 | a worker's death keeps the invariant |
| CoordinatorProtocol.DeadBusyWorker | engine/distributed/coordinator.py:202-242 | a dead worker leaves at most one orphan, which is placed or queued at once; the recovery queue ends empty |
| CoordinatorProtocol.ProcessPendingDrains | engine/distributed/coordinator.py:244-256 | draining assigns a prefix of the pending queue and changes no other task |
| CoordinatorProtocol.ProcessPendingLeaves | engine/distributed/coordinator.py:244-256 | draining touches no other list, no retry count and no worker counter |
| CoordinatorProtocol.ProcessPendingKeeps | engine/distributed/coordinator.py:244-256 | after draining, no worker is idle if anything still waits |
| CoordinatorProtocol.StepIsFifo | engine/distributed/coordinator.py:82-256 | a step removes tasks from the front of the pending queue and adds at its end; what leaves is assigned |
| CoordinatorProtocol.RunIsFifo | engine/distributed/coordinator.py:244-256 | over any legal run tasks leave the pending queue in exactly the order in which they entered it |
| CoordinatorProtocol.ChargedFirst | engine/distributed/coordinator.py:159-182 | counting the retry before or together with the change of status comes to the same state |
| CoordinatorOutcomes.SubmitOutcome | engine/distributed/coordinator.py:82-129 | a new task, with the default requirement if none is given, runs on a worker that was idle and becomes busy, or waits last exactly when none was idle; no other task or worker changes |
| CoordinatorOutcomes.CompleteOutcome | engine/distributed/coordinator.py:131-152 | the task is completed and filed last, exactly its worker counts one completion, and then a first part of the queue is assigned and nothing else changes |
| CoordinatorOutcomes.FailOutcome | engine/distributed/coordinator.py:154-197 | the task counts a retry and exactly its worker a failure; before the third it runs again, on its freed worker or one that was idle, and the third is final and drains the queue |
| CoordinatorOutcomes.DeathOutcome | engine/distributed/coordinator.py:202-242 | the dead worker stays failed with its counters; its task runs on another worker that was idle, or waits last as orphaned exactly when there was none; no other task or worker changes |
| CoordinatorOutcomes.SpareDeathOutcome | engine/distributed/coordinator.py:202-213 | the death of a worker that runs nothing changes its state alone |
| Coordinator.WorkerNode.constructor | engine/distributed/core.py:14-22 | a worker starts idle with zero counters and by default can execute |
| Coordinator.TaskAssignment.constructor | engine/distributed/coordinator.py:38-51 | an assignment starts pending, without worker or retries |
| Coordinator.SwarmCoordinator.constructor | engine/distributed/coordinator.py:68-80 | the coordinator starts with empty tables |
| Coordinator.SwarmCoordinator.ChooseWorker | engine/distributed/coordinator.py:90-94 | the worker objects in registry order are selected from as the protocol says |
| Coordinator.SwarmCoordinator.Submit | engine/distributed/coordinator.py:82-108 | takes the protocol's submit step and reports the worker or the queue |
| Coordinator.SwarmCoordinator.Assign | engine/distributed/coordinator.py:110-129 | marks task and worker and files the assignment under its id |
| Coordinator.SwarmCoordinator.Complete | engine/distributed/coordinator.py:131-152 | takes the protocol's complete step; an unknown id changes nothing |
| Coordinator.SwarmCoordinator.Fail | engine/distributed/coordinator.py:154-197 | takes the protocol's fail step; an unknown id changes nothing |
| Coordinator.SwarmCoordinator.Retry | engine/distributed/coordinator.py:160-176 | frees the worker, selects again, and assigns or queues |
| Coordinator.SwarmCoordinator.GiveUp | engine/distributed/coordinator.py:178-197 | fails a task for good, frees its worker and drains the queue |
| Coordinator.SwarmCoordinator.WorkerCompletes | engine/distributed/core.py:133-138 | the worker becomes idle and counts a completion; an unknown worker is ignored |
| Coordinator.SwarmCoordinator.WorkerFails | engine/distributed/core.py:146-151 | the worker becomes idle and counts a failure; an unknown worker is ignored |
| Coordinator.SwarmCoordinator.ProcessPending | engine/distributed/coordinator.py:244-256 | the loop ends and yields the protocol's drained state |
| Coordinator.SwarmCoordinator.RecoverOrphaned | engine/distributed/coordinator.py:226-242 | the loop ends and yields the protocol's recovered state; the first orphan without worker is queued and stops it |
| Coordinator.SwarmCoordinator.FindAffected | engine/distributed/coordinator.py:210-213 | exactly the tracked tasks assigned to or retrying on the worker, in table order |
| Coordinator.SwarmCoordinator.OrphanAll | engine/distributed/coordinator.py:215-222 | each affected task loses its worker and joins the recovery queue |
| Coordinator.SwarmCoordinator.HandleDeadWorker | engine/distributed/coordinator.py:202-224 | takes the protocol's dead-worker step; an unknown worker changes nothing |
| DelegationGraphs.DelegationGraph.TopologicalOrder | core/delegation_graph.py:174-205 | terminates; lists exactly the schedulable nodes, once each, dependencies first |
| DelegationGraphs.SchedulableIffClosedAndAcyclic | core/delegation_graph.py:174-205 | a node is schedulable exactly when neither a missing id nor a cycle is reachable from it |
| DelegationGraphs.OrdersAllIff | core/delegation_graph.py:174-205 | the order lists all nodes exactly when the graph is closed and acyclic |
| DelegationGraphs.DoneIffShortChains | core/delegation_graph.py:126-149 | a node can be done after k rounds exactly when it is schedulable and no dependency chain from it has more than k nodes |
| DelegationGraphs.EmitAll | core/delegation_graph.py:194-205 | the queue loop of Kahn's algorithm, with repeated, missing and circular dependencies |
| DelegationGraphs.Release | core/delegation_graph.py:200-203 | in-degrees drop once for each time a dependency is listed, and a node is queued once, when its count reaches zero |
| DelegationGraphs.DelegationGraph.DependentsOf | core/delegation_graph.py:184-189 | the dependents lists repeat a node as often as it lists the dependency; missing ids are dropped |
| DelegationGraphs.LinkAll | core/delegation_graph.py:187-189 | one node is linked to each of its dependencies, counted with repetition |
| DelegationGraphs.DelegationGraph.ReadyNodes | core/delegation_graph.py:126-149 | returns, in insertion order, and marks READY exactly the pending nodes all of whose dependencies are completed nodes |
| DelegationGraphs.DelegationGraph.MarkIfReady | core/delegation_graph.py:133-148 | one node becomes READY exactly when it is pending and its dependencies are completed nodes |
| DelegationGraphs.DelegationGraph.AllCompleted | core/delegation_graph.py:140-145 | a missing dependency is not completed |
| DelegationGraphs.DelegationGraph.IsComplete | core/delegation_graph.py:163-165 | true exactly when every node is terminal |
| DelegationGraphs.DelegationGraph.HasRunning | core/delegation_graph.py:151-153 | true exactly when some node is running |
| DelegationGraphs.DelegationGraph.AddNode | core/delegation_graph.py:103-106 | adding under an id already present replaces the node and keeps its place |
| SwarmExecutor.ExecuteDag | core/swarm_coordinator.py:142-216 | on an all-pending graph: the final states and the order of completions after at most 50 rounds |
| SwarmExecutor.CompletionOrderIsSound | core/swarm_coordinator.py:192-204 | completed nodes are listed once each, after all of their dependencies |
| SwarmExecutor.TerminalIff | core/swarm_coordinator.py:150-163 | every node ends terminal exactly when the chains are shorter than the cap, or as long with nothing left over to fail |
| SwarmExecutor.ChainOverCap | core/swarm_coordinator.py:150-163 | a chain of more nodes than rounds: all of them can be scheduled, and one is left pending |
| SwarmExecutor.ChainsWithinIffSettled | core/swarm_coordinator.py:152-163 | the chains have at most k nodes exactly when round k + 1 adds nothing |
| SwarmExecutor.ExecutorAgreesWithKahn | core/swarm_coordinator.py:142-216 | with chains of at most 49 nodes the completed nodes are those of the topological order and all others are failed |
| SwarmExecutor.RunRound | core/swarm_coordinator.py:152-204 | one round completes the next level, or finds no progress and fails the rest |
| SwarmExecutor.RunRounds | core/swarm_coordinator.py:152-210 | the final states and the order of completions for any cap on the rounds |
| SwarmExecutor.Dispatch | core/swarm_coordinator.py:166-184 | the ready nodes become running |
| SwarmExecutor.CompleteRunning | core/swarm_coordinator.py:194-204 | the running nodes become completed, in insertion order |
| SwarmExecutor.FailRemaining | core/swarm_coordinator.py:160-162 | every node that is not terminal becomes failed |
| Heap.Push | core/queue_manager.py:40 | heappush keeps the heap order and adds one item |
| Heap.Pop | core/queue_manager.py:57 | heappop removes a least item and keeps the heap order and the rest |
| Heap.SiftDown | core/queue_manager.py:40 | an item rises past later parents |
| Heap.SiftUp | core/queue_manager.py:57 | a hole sinks to a leaf along lesser children and the item rises from there |
| Heap.RootIsLeast | core/queue_manager.py:57 | the root of a heap is before every item |
| QueueManagers.QueueManager.Submit | core/queue_manager.py:36-45 | adds one entry with the next ticket, records the job, whose place is kept if it is submitted again, and saves |
| QueueManagers.QueueManager.NextJob | core/queue_manager.py:47-71 | with the clock read for every entry: removes an entry that is ready in the end and precedes, by priority, creation time and ticket, every other that was ready in the beginning; it finds nothing only if none was; every other entry stays |
| QueueManagers.QueueManager.PopUntilReady | core/queue_manager.py:53-65 | what is popped before the first ready entry was not ready in the beginning |
| QueueManagers.QueueManager.PushAll | core/queue_manager.py:67-69 | the skipped entries are pushed back |
| QueueManagers.QueueManager.Drain | core/queue_manager.py:47-71 | taking jobs until none is ready, on a clock that moves: everything ready in the beginning comes out and nothing not ready in the end, and an entry that was ready in the beginning only after lesser ones |
| JobQueue.NoneBecomesReady | core/queue_manager.py:47-71 | if no job becomes ready meanwhile, the drain is the strictly sorted list of the ready jobs and the next job its first, at any of the times |
| JobQueue.DrainIsUnique | core/queue_manager.py:47-71 | what a drain yields is determined by what is queued |
| JobQueue.NextThenRest | core/queue_manager.py:47-71 | taking the next job and draining the rest is draining everything |
| JobQueue.NextIsEarliest | core/queue_manager.py:40-62 | the next job is queued and due, and of a lesser priority number than every other that was due at the start, or of the same and created earlier, or of both the same and with an earlier ticket |
| JobQueue.NoneReadyIff | core/queue_manager.py:53-65 | nothing is ready exactly when no entry names a queued job whose time has come |
| JobQueue.DrainIsInOrder | core/queue_manager.py:40-69 | a drain lists the queued jobs whose time has come, and neighbours and all others are in that order |
| JobQueue.UrgentComesFirst | core/queue_manager.py:24-31 | an urgent job comes before one in the background that was created before it |
| QueueManagers.QueueManager.Peek | core/queue_manager.py:73-84 | returns the next job and gives its entry a new ticket; nothing changes if none is ready |
| JobQueue.PeekKeepsNextIff | core/queue_manager.py:73-84 | the peeked job stays next exactly when no other ready job ties with it on priority and creation time |
| JobQueue.PeekSwapsTies | core/queue_manager.py:73-84 | of two jobs with one priority and creation time the first is next, and after a peek the second |
| QueueManagers.QueueManager.CancelJob | core/queue_manager.py:90-103 | an unknown or terminal job is refused; otherwise the job is cancelled and its entry stays on the heap |
| QueueManagers.QueueManager.RequeueFailed | core/queue_manager.py:105-118 | a failed or cancelled job becomes queued with a new entry and the file is written; any other is refused and nothing changes |
| JobQueue.RequeueKeepsOneEntryIff | core/queue_manager.py:105-118 | one entry per queued job remains exactly when the heap held none for the requeued job, as it does for a job cancelled while waiting |
| JobQueue.CancelThenRequeue | core/queue_manager.py:90-118 | submitted, cancelled while waiting and requeued, a job has two entries |
| JobQueue.SubmitKeepsOneEntryIff | core/queue_manager.py:36-41 | submitting keeps one entry per queued job exactly when it is not a job that is still queued, once more |
| JobQueue.TakeKeepsOneEntry | core/queue_manager.py:56-62 | taking a job off the heap and starting it keeps one entry per queued job |
| QueueManagers.QueueManager.Save | core/queue_manager.py:145-154 | the file holds the counter and every job in table order |
| QueueManagers.QueueManager.Load | core/queue_manager.py:156-188 | rebuilds every job before the first broken record, or none from a missing or garbled file, and pushes the queued ones in table order with new tickets |
| JobQueue.WrittenIsLoadable | core/queue_manager.py:145-188 | of a file that was saved everything is loaded |
| JobQueue.SaveLoadKeepsOrderIff | core/queue_manager.py:145-188 | with one entry per queued job and priorities 0 to 3, the reloaded queue drains in the same order at any time exactly when of any two ready jobs that tie the one with the lesser ticket comes first in the table |
| JobQueue.ReloadSwapsTies | core/queue_manager.py:145-188 | of two tied jobs the first was peeked at: the reloaded queue drains in another order |
| JobQueue.SaveLoadKeepsOrder | core/queue_manager.py:145-188 | the reloaded queue drains in the same order at any time when no two jobs tie on priority and creation time |
| JobQueue.SameOrderIff | core/queue_manager.py:183-186 | new tickets keep the order of a drain exactly when they keep the order of ties |
| JobQueue.LoadedFacts | core/queue_manager.py:165-186 | loading hands out tickets in table order, one to each queued job |
| JobQueue.LoadedJobsSame | core/queue_manager.py:165-182 | loading restores priority, schedule, creation time and status of every job with one of the four priorities |
| Jobs.PriorityRoundTrip | core/jobs.py:32-40 | a priority survives being written as a name exactly when it is one of the four |
| Jobs.NamedPriorities | core/jobs.py:32-35 | urgent, high, normal and background stand for 0 to 3 in any spelling, and any other name for normal |
| Jobs.CompletedIsFinal | core/jobs.py:44-51 | along legal moves a job completes only out of running, and never moves again |
| Jobs.Job.Transition | core/jobs.py:99-114 | the status moves exactly when the table allows it, and otherwise stays |
| Schedulers.Scheduler.Emit | core/scheduler.py:114-134 | an outer event on any clock on which its cascade ends takes exactly the looks of the cascade; only listeners of the event and of the two events of a firing fire, listeners end up throttled, no trigger fires more than 1 + floor(T / 10) times in the T seconds it takes, and at most once if nothing listens to the two |
| Schedulers.Scheduler.OnEvent | core/scheduler.py:114-134 | an event inside a cascade that ends, at any speed: takes the first looks of what is left and leaves the triggers of the events around it |
| Schedulers.Scheduler.Scan | core/scheduler.py:117-121 | the listeners are looked at one after the other, each with the cascade that it sets off |
| Schedulers.Scheduler.LookAt | core/scheduler.py:118-121 | a trigger within 10 seconds of its mark is skipped, any other fires, as the next step of the cascade says |
| Schedulers.Scheduler.Mark | core/scheduler.py:122-128 | the trigger is marked with a second clock reading and its job is submitted |
| Schedulers.Scheduler.Fire | core/scheduler.py:122-134 | a firing is one look, and the looks that its two events cause come with it |
| Schedulers.Scheduler.Notify | core/scheduler.py:129-134 | the submission's event and then the firing's event re-enter the scheduler |
| Schedulers.Scheduler.Register | core/scheduler.py:97-112 | a trigger is appended to its event's list, and the registration itself is an event with its cascade |
| Schedulers.FiresPerWindow | core/scheduler.py:118-122 | for every sequence of looks at triggers, at any times and however nested, with the marking not before the check: in every window of T seconds a trigger fires at most 1 + floor(T / 10) times |
| Schedulers.LooksThrottle | core/scheduler.py:118-122 | after every sequence of looks each trigger's firings are at least 10 seconds apart, and its mark is the last of them |
| Schedulers.FirstLook | core/scheduler.py:118-122 | a trigger never marked fires from ten seconds after time zero on |
| Schedulers.NextLookFires | core/scheduler.py:118-122 | a marked one from ten seconds after its mark on, and otherwise nothing changes |
| Schedulers.FiringBringsUp | core/scheduler.py:129-134 | the triggers on job.queued come first, then those on job.event_triggered, and then what was left |
| Schedulers.SpacedApart | core/scheduler.py:118-122 | firings k apart in the log are at least 10 k seconds apart |
| Schedulers.EndsIff | core/scheduler.py:114-134 | whatever was marked before, a cascade ends on every clock that does not run backwards exactly when nothing listens to its event or nothing to the events of a firing |
| Schedulers.EventEndsIff | core/scheduler.py:114-134 | read off the registry: no trigger for the event, or none for job.queued and none for job.event_triggered |
| Schedulers.SlowCascadeGoesOn | core/scheduler.py:114-134 | otherwise, on a clock that moves 10 seconds a reading, every look fires and there is always another |
| Schedulers.TriggersItself | core/scheduler.py:114-134 | one trigger on job.queued, on that clock |
| Schedulers.EndsInTime | core/scheduler.py:114-134 | with any listeners, a cascade ends after a number of looks given by listeners and time, if the clock stays within that time so long; one that never ends takes for ever |
| Schedulers.FiringsWithin | core/scheduler.py:118-122 | all triggers together fire at most 1 + floor(T / 10) times their number while T seconds pass |
| Schedulers.CascadeGives | core/scheduler.py:114-134 | what a cascade that ends leaves behind, at any speed: who fired, how often, who is throttled; within 10 seconds each once, and marked in that time |
| Schedulers.QuietFires | core/scheduler.py:114-134 | where nothing listens to the events of a firing, each listener fires at most once |
| Schedulers.FiredInTime | core/scheduler.py:118-122 | while less than 10 seconds pass no trigger fires twice |
| Schedulers.SameEnd | core/scheduler.py:114-134 | a cascade ends in one state only |
| Transactions.RollbackRestores | core/transactions.py:62-154 | after any run of snapshot-then-change steps on readable files, rolling back restores the whole file system exactly when every snapshotted file reads back unchanged, even when paths alias |
| Transactions.RollbackRestoresFile | core/transactions.py:62-154 | file by file: one that was not snapshotted is as it was, and one that was readable is as it was exactly when it reads back unchanged |
| Transactions.RestoreGives | core/transactions.py:113-139 | a rollback puts into each file what its earliest readable snapshot recorded and leaves the others alone |
| Transactions.ReadsBackIff | core/transactions.py:75-120 | what is read as text and written again is the same exactly when it holds characters only and no carriage return |
| Transactions.DecodesTo | core/transactions.py:75-76 | every malformed byte is read as the replacement character and every kind of line end as a line feed |
| Transactions.SnapshotProtectsIff | core/transactions.py:73-82 | a snapshot protects its file against every later write exactly when the file is absent or reads back unchanged |
| Transactions.LineEndIsLost | core/transactions.py:75-120 | a file of one line end of the other kind: taking a snapshot and rolling back changes it |
| Transactions.UndoNewestFirst | core/transactions.py:244-259 | committed transactions on files that read back unchanged, undone newest first, restore the state before the oldest |
| Transactions.UndoInTurn | core/transactions.py:244-259 | calling rollback_to on every transaction, the newest first, restores the files from before the oldest, if the transactions were legal runs one after the other |
| Transactions.UndoEverything | core/transactions.py:244-259 | those calls put the snapshots back one transaction after the other, the newest first |
| Transactions.OldestFirstIff | core/transactions.py:244-259 | undone oldest first, two transactions restore the start exactly when the second found the files it covers as they were before the first |
| Transactions.Transaction.SnapshotFile | core/transactions.py:62-82 | the first snapshot of a path string wins |
| Transactions.SnapshotOnce | core/transactions.py:62-82 | a path that was snapshotted is not snapshotted again, and any other is, last |
| Transactions.Transaction.Rollback | core/transactions.py:101-154 | a committed transaction refuses; otherwise the snapshots are restored last to first and reported |
| Transactions.Transaction.Commit | core/transactions.py:92-94 | the transaction is committed |
| Transactions.TransactionManager.Begin | core/transactions.py:199-209 | a new transaction becomes the active one |
| Transactions.TransactionManager.CommitActive | core/transactions.py:216-223 | the active transaction, if any, is committed and no longer active |
| Transactions.TransactionManager.RollbackActive | core/transactions.py:225-231 | the active transaction, if any and not committed, is rolled back and no longer active |
| Transactions.TransactionManager.GetTransaction | core/transactions.py:237-242 | the transaction with the id, if there is one |
| Transactions.TransactionManager.RollbackTo | core/transactions.py:244-259 | a known transaction not rolled back before is undone even if it was committed; no other transaction changes |
| JobStores.RecoverIsExact | engine/jobs.py:94-116 | for every interleaving of submissions, executions and recoveries and every crash point, torn lines included, recover reports exactly the jobs whose last logged status is pending or running, apart from jobs without update that are older than the job records loaded |
| JobStores.ReportedIff | engine/jobs.py:94-116 | on any log that records jobs before their updates: a job is reported exactly when its last status is pending or running and it has an update or is among the last job records |
| JobStores.ReportedExactly | engine/jobs.py:94-116 | with no more job records than are loaded, a job is reported exactly when its last logged status is pending or running |
| JobStores.StartedThenCrashed | engine/jobs.py:94-116 | a job submitted and started when the engine crashes is reported, and it alone |
| JobStores.UnendedIsReported | engine/jobs.py:94-116 | a record whose line break is missing is read: its job is reported |
| JobStores.OldJobIsNotReported | engine/jobs.py:94-116 | a legal run that submits a job and as many more as are loaded, after which the job is pending and not reported |
| JobStores.RecoverAgainIff | engine/jobs.py:202-221 | what an immediate second recover reports, whatever the end of the file |
| JobStores.RecoverTwice | engine/jobs.py:202-221 | nothing after a clean end, however many records; after a torn line the first job again, because its mark is lost with the line |
| JobStores.TornThenRecovered | engine/jobs.py:202-221 | a crash while the first update is written: the job is reported, and reported again |
| JobStores.ThirdReportsNothing | engine/jobs.py:202-221 | a third recover reports nothing |
| JobStores.RunSound | engine/jobs.py:55-92 | every log that the pipelines can leave behind records jobs before their updates |
| JobStores.JobStore.WriteLine | engine/jobs.py:55-61 | a record is appended; after an unended line it is lost with that line |
| JobStores.JobStore.LoadAll | engine/jobs.py:63-81 | the last job records up to the limit, or all of them for a limit of zero |
| JobStores.JobStore.LoadUpdates | engine/jobs.py:118-138 | the last update of each job |
| JobStores.JobStore.FindIncomplete | engine/jobs.py:94-116 | exactly the incomplete jobs, once each |
| JobStores.JobPipeline.Submit | engine/jobs.py:162-166 | a pending job is logged |
| JobStores.JobPipeline.Execute | engine/jobs.py:168-200 | the run and its outcome are logged; an error fails the job unless it is a stub's, and so does an exception |
| JobStores.JobPipeline.Recover | engine/jobs.py:202-221 | every incomplete job is marked and reported once; the previous status reported is always crashed |
| EventReplays.ReplaysAgreeOnLog | engine/events/store.py:101-138 | on a log with no more selected events than the limit, whenever both replays return they agree on the counts, the loaded plugins and the commands but for their times |
| EventReplays.ReplaysAgree | engine/events/replay.py:191-233 | on any events with dictionaries for data the two folds agree on the counts, the loaded plugins and the commands but for their times |
| ReplayCounts.SinceIs | engine/events/store.py:81-82 | the selected events are those from the given time on, or all for no time or zero |
| ReplayCounts.TallyIs | engine/events/store.py:103-138 | completed and failed are the numbers of finished jobs whose status does or does not say completed; commands, errors and plugins are the fields of their events, a plugin listed as often as its loadings and unloadings leave it |
| ReplayCounts.BuiltIs | engine/events/replay.py:191-239 | the same of the second replay, with the jobs started and recovered and the plugins unloaded |
| ReplayCounts.WithoutDictionary | engine/events/replay.py:191-239 | an event without a dictionary only counts as a job started or recovered |
| ReplayCounts.EntriesAreListed | engine/events/replay.py:344-369 | the job builder lists started jobs with id and the first 80 characters of the task, and recovered ones with their id |
| ReplayCounts.TallyBreaksIff | engine/events/store.py:113-136 | the first replay raises exactly when an event that it looks into carries no dictionary |
| ReplayCounts.ReplayBreaksOn | engine/events/replay.py:344-362 | the second raises on a job event without a dictionary and on a started job whose task cannot be sliced |
| ReplayCounts.ListAsTaskBreaks | engine/events/replay.py:355-361 | and on a finished job searched for among started ones with a list as a task, if its id is not theirs |
| ReplayCounts.MatchedByTask | engine/events/replay.py:355-361 | a started job before, whose task begins with the id, ends the search |
| ReplayCounts.MatchedAsNone | engine/events/replay.py:355-361 | a finished job without an id is searched for as None |
| EventReplays.CountsAgreeIff | engine/events/store.py:101-122 | beyond the limit the counts agree exactly when no job finished there |
| EventReplays.CommandsAgreeIff | engine/events/store.py:101-138 | beyond the limit the commands agree exactly when none was executed there |
| PluginReplays.PluginsAgreeIff | engine/events/store.py:124-130 | beyond the limit the plugin lists agree exactly when what the later events leave of the list and what they load on balance is the list again |
| PluginReplays.PluginsAgreeIffReloaded | engine/events/store.py:124-130 | for a list without repeats: exactly when those of it that are unloaded later are its end, and that end is what is loaded on balance |
| PluginReplays.PluginsAgreeIffNoneLoaded | engine/events/store.py:124-130 | without unloading beyond the limit: exactly when nothing is loaded there |
| PluginReplays.PluginsAgreeIffNoneUnloaded | engine/events/store.py:124-130 | without loading beyond the limit: exactly when no plugin of the list is unloaded there |
| EventReplays.MissedBeyondLimit | engine/events/store.py:101-138 | a job, a command and a plugin that come after the limit and are missed |
| EventReplays.ErrorsAgreeIff | engine/events/replay.py:236-239 | the recorded errors agree exactly when every error event names its type |
| EventReplays.ErrorWithoutType | engine/events/replay.py:236-239 | an error event without a type: nothing in one replay, unknown in the other |
| EventReplays.FlushKeepsIff | engine/events/store.py:43-52 | from a file that ends with a line break, file and buffer stay the history exactly when the write succeeds, writes nothing at all, or had nothing to write; a write that breaks off inside a line is among the outcomes |
| EventReplays.RetryRestoresIff | engine/events/store.py:43-52 | after a write that broke off and one that succeeded, the file holds the history exactly when nothing was written first, or one whole line and part of the second |
| EventReplays.HalfWrittenFlush | engine/events/store.py:43-52 | two lines of which one is written before the failure: it is written twice; the first cut in the middle: it is lost |
| EventReplays.EventStore.Append | engine/events/store.py:22-41 | under writes that succeed or write nothing file and buffer stay the append history, and under successful ones the buffer stays below its limit |
| EventReplays.EventStore.Flush | engine/events/store.py:43-55 | the buffer is moved to the file, or kept when the write breaks off; in sync exactly as said above |
| EventReplays.EventStore.Query | engine/events/store.py:57-96 | flushes and returns the first selected of the readable lines up to the limit |
| LineLogs.AppendAllGives | engine/events/store.py:46-50 | records appended after an unended line are all readable but the first, and the file ends with a line break |
| LineLogs.CutOffGives | engine/events/store.py:46-50 | what is read after a write that broke off, and that the next record is lost with a broken line and the one after it is read |
| EventReplays.EventStore.ReplayReconstruct | engine/events/store.py:101-138 | the tally of the first 50000 selected events; it raises on data that is no dictionary |
| EventReplays.Reconstruct | engine/events/store.py:103-138 | the loop over the events |
| EventReplays.ReplayEngine.Replay | engine/events/replay.py:79-117 | the builders' state after all selected events of the file; what handlers raise is caught, what the job builder raises is not |
| EventReplays.ReplayEngine.Handle | engine/events/replay.py:191-239 | one event's effect on the builders' fields |
| EventReplays.ReplayEngine.Apply | engine/events/replay.py:344-369 | the job builder's list after one event, and exactly when it raises |
| EventReplays.ReplayEngine.SearchJob | engine/events/replay.py:356-361 | the search for a finished job raises exactly when it meets a task without a beginning before a job that matches |
| MergeEngine.MergeIsSubstitution | core/merge_engine.py:171-211 | patches to separate fragments, each occurring once in every partially merged text that has it, merge without conflict into the simultaneous substitution, whatever their order and priorities and whatever is kept between them |
| MergeEngine.MergeFills | core/merge_engine.py:180-190 | any of the patches, in any order, fill exactly their fragments and none conflicts |
| MergeEngine.SinglePatchIff | core/merge_engine.py:159-169 | what is returned for a single patch is what the loop over the patches would give exactly when the patch replaces the whole base |
| MergeEngine.SinglePatchSubstitutesIff | core/merge_engine.py:159-169 | it is the base with the patched fragment replaced exactly when that fragment is all of it |
| MergeEngine.SinglePatchHidesConflict | core/merge_engine.py:159-169 | where the fragment does not occur the loop would report a conflict, and for a single patch none is |
| MergeEngine.OneOfTwoLetters | core/merge_engine.py:159-169 | a patch to one of two letters: the other is lost |
| MergeEngine.MergeFile | core/merge_engine.py:159-211 | which patches are applied and which conflict, in priority order, the regions that a conflict lists, and the merged text exactly when none conflicts |
| MergeEngine.MergeSorted | core/merge_engine.py:180-211 | the loop over the sorted patches |
| MergeEngine.FindOverlaps | core/merge_engine.py:213-222 | every overlapping pair of regions yields its intersection, in the order of the first list and then the second |
| MergeEngine.OverlapsCover | core/merge_engine.py:213-222 | the intersections cover exactly the lines that both lists cover |
| MergeEngine.OverlapsAre | core/merge_engine.py:213-222 | a region is listed exactly as the intersection of two that overlap |
| MergeEngine.SortedByPriority | core/merge_engine.py:176-178 | patches are taken by ascending priority, and those of one priority in the order given |
| MergeEngine.PatchesByRank | core/merge_engine.py:176-178 | agents not listed come first, then planner, coder, tester and security auditor, and the critic last |
| MergeEngine.ApplyIs | core/merge_engine.py:182-190 | a patch applies exactly when its old text occurs, and replaces the first occurrence |
| MergeEngine.MergeTurn | core/merge_engine.py:180-211 | patch by patch: applied where the old text occurs in the text at that point, otherwise a conflict of all patches up to it; nothing is merged once there is a conflict |
| MergeEngine.FindFrom | core/merge_engine.py:188-189 | the first occurrence, or none exactly when there is none |
| CommandPalette.ScorePositiveIff | openvs/core/command_palette.py:39-75 | a score is positive exactly when the normalized query is a subsequence of the item's text |
| CommandPalette.GreedyIsComplete | openvs/core/command_palette.py:63-73 | the greedy search from left to right succeeds exactly when some embedding exists |
| CommandPalette.FuzzyIsLowest | openvs/core/command_palette.py:49-75 | a match that is no substring scores between 1 and 1.5, below every substring match |
| CommandPalette.FuzzyBounds | openvs/core/command_palette.py:63-75 | each character found counts between 1 and 1.5 |
| PaletteScores.NormalizeGives | openvs/core/command_palette.py:44 | the query is lowered and stripped of white space at both ends and nowhere else |
| PaletteScores.AllTextIs | openvs/core/command_palette.py:45-47 | the text searched is title, action and keywords, joined by spaces and lowered |
| PaletteScores.ContainsIff | openvs/core/command_palette.py:50-61 | a text contains a query exactly when it is something, the query and something |
| PaletteScores.TiersInOrder | openvs/core/command_palette.py:39-61 | a title match scores above an action match, that above a keyword match, and that above any other; without a query all items score 1 |
| PaletteScores.FuzzyIs | openvs/core/command_palette.py:63-73 | each character is taken at its first place after the one before; a point for each and half a point more for each that follows at once |
| PaletteScores.FuzzyScoreIs | openvs/core/command_palette.py:75 | such a score is divided by the length of the query |
| CommandPalette.MatchScore | openvs/core/command_palette.py:39-75 | the loops compute the score |
| CommandPalette.FuzzySearch | openvs/core/command_palette.py:63-73 | the character loop computes the greedy sum |
| CommandPalette.ExtendingNarrowsIff | openvs/core/command_palette.py:200-219 | extending a query never adds a result, except from the empty query to a power query that some power command matches, while power commands are hidden |
| CommandPalette.PrefixAddsPower | openvs/core/command_palette.py:200-219 | the prefix alone brings up a power command |
| CommandPalette.LongerMatchesLess | openvs/core/command_palette.py:39-75 | an item that matches a longer query matches each non-empty beginning of it |
| CommandPalette.SearchedIff | openvs/core/command_palette.py:200-219 | which commands a search finds |
| CommandPalette.RankedIs | openvs/core/command_palette.py:215-219 | the results are the matching items, best first |
| CommandPalette.RankedKeepsTies | openvs/core/command_palette.py:215-219 | items of one score keep their original order |
| PaletteScores.BestFirst | openvs/core/command_palette.py:215-219 | no result comes after one with a lower score |
| PaletteScores.UnrankedResults | openvs/core/command_palette.py:200-214 | without a query all commands come in their order, power commands only if asked for; the bare prefix brings up exactly those |
| PaletteScores.OfKindIs | openvs/core/command_palette.py:203-211 | hiding or selecting power commands keeps the order of the others |
| CommandPalette.CommandHistory.Record | openvs/core/command_palette.py:229-235 | the history is the first max_size distinct actions of the reversed trace of calls |
| CommandPalette.CommandHistory.Recent | openvs/core/command_palette.py:237-239 | the first actions of the history |
| CommandPalette.CommandHistory.Clear | openvs/core/command_palette.py:253-254 | the history is empty |
| CommandPalette.RecordGives | openvs/core/command_palette.py:229-235 | moving an action to the front of a cut list is cutting the list with the action moved |
| CommandPalette.CapacityPrefix | openvs/core/command_palette.py:229-235 | a history of capacity k is a prefix of the one of capacity k + 1 |
| Orchestrators.Orchestrator.Run | core/orchestrator.py:63-272 | for arbitrary answers the run ends, its result follows from the answers alone, it is completed exactly when its transaction is committed and the state is DONE and is rolled back otherwise, the history is a legal path, there are at most two planner calls and max_retries + 1 coder calls, and no file is restored |
| Orchestrators.Orchestrator.Attempts | core/orchestrator.py:86-196 | the try block: its result follows from the answers, and the calls made match the entries of the history |
| Orchestrators.Orchestrator.Prepare | core/orchestrator.py:87-129 | planning and validation, once more if the plan is rejected; a second rejection is not looked at |
| Orchestrators.Orchestrator.Attempt | core/orchestrator.py:131-156 | one execution and its check |
| Orchestrators.Orchestrator.Patched | core/orchestrator.py:160-192 | one fix and its attempt; the state machine refuses it when the retries are used up |
| Orchestrators.Orchestrator.RepairLoop | core/orchestrator.py:158-214 | the loop ends after at most max_retries patches |
| Orchestrators.CompletesIff | core/orchestrator.py:63-272 | a run completes exactly when planning raises nothing and, within the retries, every attempt before the last is rejected and repaired and the last passes |
| Orchestrators.ErroredIff | core/orchestrator.py:63-272 | a run ends in an error exactly when a call before the first verdict raises an ordinary exception, a verdict is no dictionary, or with a retry left the fix, the coder or the check after it raises one |
| Orchestrators.RolledBackIff | core/orchestrator.py:158-214 | it ends in a rollback out of the repair loop exactly when an attempt is rejected with no retry left, or its repair raises the exception for a transition |
| Orchestrators.FailedIff | core/orchestrator.py:240-254 | it ends in a plain failure exactly when a call before the first verdict raises that exception |
| Orchestrators.RepairCompletesIff | core/orchestrator.py:158-214 | from a checked attempt on, the run completes exactly when a later attempt within the retries passes and all before it are rejected and repaired |
| Orchestrators.RepairErrsIff | core/orchestrator.py:158-214 | the same for an error, from a checked attempt on |
| Orchestrators.RepairGivesUpIff | core/orchestrator.py:158-214 | and for a rollback |
| Orchestrators.EditsInTurn | core/orchestrator.py:131-190 | each run of the coder edits what the one before left |
| Orchestrators.SecondRejectionIsExecuted | core/orchestrator.py:102-129 | a plan that is rejected twice is executed, and the run completes under the conditions on the attempts alone |
| StateMachines.StateMachine.Transition | core/state_machine.py:54-81 | moves exactly along the table and within the patch bound; a refused patch is still counted |
| StateMachines.StateMachine.Reset | core/state_machine.py:87-91 | back to INIT with an empty history |
| StateMachines.ExecutionsAndPatches | core/state_machine.py:23-31 | on a legal path executions exceed patches by one outside PATCH, or there are neither |
| ResponseCaches.GetRefinesLastPut | openvs/cache/response_cache.py:22-57 | from any loaded cache, however large, and after any run on a clock that does not run backwards, get answers with the last value put, at most the time to live ago, or with nothing; the size is within the bound once anything was put |
| ResponseCaches.GetIsLastPut | openvs/cache/response_cache.py:29-57 | as long as no more keys are put than fit, get answers exactly with a last put that is not too old |
| ResponseCaches.EvictionGives | openvs/cache/response_cache.py:77-83 | eviction cuts the cache to the bound and changes nothing that stays |
| ResponseCaches.OldestGo | openvs/cache/response_cache.py:81-83 | nothing evicted is newer than anything kept |
| ResponseCaches.PutSurvivesIff | openvs/cache/response_cache.py:41-52 | from a cache within the bound the key just put survives exactly when the bound is at least one |
| ResponseCaches.SurvivesIff | openvs/cache/response_cache.py:77-83 | from any cache, as one loaded from disk, it survives exactly when fewer keys than the bound come after it in the dictionary with the same time |
| ResponseCaches.PutIsEvicted | openvs/cache/response_cache.py:41-52 | a cache of two entries loaded over a bound of one: the first, put again at the same time, is evicted at once |
| ResponseCaches.RunKeeps | openvs/cache/response_cache.py:29-62 | every run keeps the order, the last puts, and the size bound once it holds; after a put it holds |
| ResponseCaches.ResponseCache.Get | openvs/cache/response_cache.py:29-39 | answers with a live entry and counts the hit; an expired entry is deleted |
| ResponseCaches.GetGives | openvs/cache/response_cache.py:29-39 | a live entry counts the hit and nothing else changes; one past its time is removed |
| ResponseCaches.ResponseCache.Put | openvs/cache/response_cache.py:41-52 | stores, evicts and saves |
| ResponseCaches.PutGives | openvs/cache/response_cache.py:41-52 | what was put has no hits, and what stays beside it is unchanged |
| ResponseCaches.ResponseCache.EvictIfNeeded | openvs/cache/response_cache.py:77-83 | the loop deletes the oldest entries beyond the bound |
| ResponseCaches.ResponseCache.Invalidate | openvs/cache/response_cache.py:54-57 | the key is gone; the file is not saved |
| ResponseCaches.ResponseCache.Clear | openvs/cache/response_cache.py:59-62 | cache and file are empty |
| ResponseCaches.ResponseCache.constructor | openvs/cache/response_cache.py:22-27 | starts with whatever the file holds, however much |
| StableSort.SortInOrder | openvs/cache/response_cache.py:81 | sorted with a key yields ascending keys |
| StableSort.SortKeepsTies | core/merge_engine.py:178 | elements with equal keys keep their order |
| StableSort.SortAround | openvs/cache/response_cache.py:81 | a greatest element ends up before exactly those later ones that tie with it |

## Left out

- Coordinator.SwarmCoordinator.Submit: a task id is taken to be fresh, as generated ids are; a caller that passes an id twice replaces the table entry, which is not modelled.
- Coordinator.SwarmCoordinator.Complete: the result, the aggregator, timestamps, `_assigned_job` and the events emitted are not modelled; nor is the priority field of an assignment, which nothing reads.
- Coordinator.SwarmCoordinator.HandleDeadWorker: worker registration, unregistration, heartbeats and `RemoteExecution.delegate` bypass the assignment table and are not modelled; the registry is fixed.
- Coordinator.SwarmCoordinator.Fail: failure callbacks are not modelled; `rebalance` only suggests moves and is left out.
- SwarmExecutor.ExecuteDag: the graph starts all pending, as decomposition builds it; the job submitted for each node, tokens, timestamps and results are not modelled.
- DelegationGraphs.DelegationGraph.TopologicalOrder: the first loop over in-degrees, whose result is not used, is left out.
- QueueManagers.QueueManager.Submit: another job object under an id already present is not modelled, as ids are generated; and the event it emits does not re-enter the queue, which is modelled in `Scheduler.dfy`.
- QueueManagers.QueueManager.Load: saved job ids are distinct, as dictionary keys are; a broken record is one that raises before its job is filed.
- Jobs.Job.Transition: the history of a job is not modelled, nor are retries, for which the pool would need a move from WAITING_RETRY to QUEUED that the table does not have.
- Jobs.PriorityRoundTrip: lower-casing covers ASCII letters.
- Schedulers.Scheduler.Emit: a cascade that does not end has no final state and is described by its looks alone (`SlowCascadeGoesOn`, `FiresPerWindow`). Recursion depth, at which the program would stop one, the bus history, stored events and other subscribers are not modelled; a trigger's job stands for what it submits.
- Schedulers.Scheduler.Register: the trigger's label, which repeats when two triggers listen to one event, is replaced by a number.
- Transactions.Transaction.Rollback: a file system of files only, on a system that ends lines with a line feed; directories, their creation and removal, and write errors are not modelled, nor is the log of operations.
- JobStores.JobStore.WriteLine: of a record only its kind, id and status matter; a store without a path keeps no log and is left out.
- Heap.SiftDown: the heap list grows and shrinks, so it is a sequence that is passed and returned; that the library changes the list in place is not captured.
- EventReplays.EventStore.Query: only the time filter is modelled, as the replays use no other; sequence numbers, schema ids and version statistics are left out, as are the builders for lifecycle, swarm and system state and the model name, which the two replays take from different events.
- EventReplays.ReplayEngine.Apply: equality and text of JSON values other than strings are those of the text they show; what a job is listed with beside id and task is not modelled.
- MergeEngine.MergeFile: the changed regions of a patch are given, as comparing lines is library code; grouping patches by file, events and `resolve_conflict` are left out.
- CommandPalette.SearchedIff: the list of commands is a parameter; lower-casing and white space are those of ASCII.
- ResponseCaches.ResponseCache.Put: a failing write of the cache file is not modelled; keys stand for hashes of model, temperature and prompt.
- Orchestrators.Orchestrator.Run: event bus and tracer are taken not to raise; the trace and the rendered report are not modelled. The state history in an earlier result is the list that the next run clears, which is not modelled.
- Threads, locks and timing races are not modelled: steps run one after the other.
- Consensus, task routing, watchdog, metrics, guards, permissions, vault, memory decay, user interface, network and model clients are not part of this model; most would add single-branch facts.
