# Verification of the task runner's scheduler, leases, caches and coordinator

The system runs tasks on a fleet of workers. A scheduler keeps a graph of tasks and hands out those whose
dependencies have completed; workers lease tasks, keep the leases alive with heartbeats and return them; a
coordinator knows which nodes are up and which artifacts they hold. This project models the parts of it whose
correctness is hardest to see, and proves what they promise over every run. Check it with
`dafny verify dfyconfig.toml`.

## The scheduler

`SchedulerModel` says what each operation does on values: one `Node` for each task gathers what the program keeps
about it in separate maps. `DagScheduler` is the class with those maps, the reverse edges, the ready heap and the
resource pool; its methods follow the program's loops (depth-first search, breadth-first failure cascade, unblocking,
draining and rebuilding the heap, popping with skips) and each is proved to take the step of the model and to keep one
invariant (`SchedulerInvariant.Inv`). Hash maps and hash sets are iterated in an arbitrary order. The heap is a
multiset from which a maximum is taken. Clock readings are arguments, one for each time that the program reads the clock.

`SchedulerRuns`, `SchedulerOutcomes` and `SchedulerProgress` prove the theorems about whole runs. They are stated in
terms of statuses, amounts, priorities by name and the clock readings of the history, not of the model's functions. The invariant rests on one fact about
counters: a task's in-degree is the number of dependencies it listed minus the number of those that completed since it
was enqueued. From it follow prerequisite safety, the exact condition under which a task becomes ready, and progress.

`TaskGraph` holds the cycle search on its own: it is exact for every graph whose dependencies have entries. In the
scheduler, where dependencies have to be enqueued first, it fires exactly for a task that lists itself.

## Leases and workers

`Leases` has the store and the manager, each manager operation being one step. `WorkerProtocol` splits the same
operations at every store call and lets any number of workers, heartbeats, reapers and cancellations interleave. A
lease is never removed by the runtime, so a task is acquired at most once in a run. `RevivedExactly` says what the
split costs, and `RevivalHappens` shows a run: a heartbeat writes back a lease that has completed since it read it.

## The other parts

`ShellQuoting` proves that an argument list survives two levels of double quotes (section 2.2.3 of the POSIX.1-2017
Shell Command Language). `ArtifactCache` is the least-recently-used cache over a directory, `CacheKey` the bytes fed to
the hash, `CircuitBreaker` the breaker under sequential calls, `Framing` the length-prefixed wire format,
`PriorityQueues` the four queues read as one list of arrivals. `Coordinator` has the node registry and the cache index,
`CoordinatorServer` the server with all of its requests, connections and reaper passes, `Connection` the loop that
serves one connection, `CoordinatorRuns` what holds over every run of the server.

`Core` holds what these share.

## Where the code and its comments or promises disagree

The model follows the code.

- The heap order says ties go to the smaller task id; the greatest id is taken (crates/scheduler/src/dag.rs:237-242,
  `DagScheduler.PopMax`, `DagScheduler.SelectFound`).
- A repeated dependency, or one that has already ended when the task is enqueued, is counted but never counted down:
  the task stays Pending for good (`SchedulerRuns.ReadyExactly`, `SchedulerRuns.StuckForever`,
  `SchedulerRuns.StuckHappens`).
- A requeue does not give back the task's share of the pool. What has leaked stays leaked
  (`SchedulerRuns.ResourceSafety`, `SchedulerRuns.LeakBlocksForever`, `SchedulerRuns.LeakHappens`).
- Aging adds levels in eight bits; from 253 levels on, the sum wraps around and can lower a priority
  (`SchedulerProgress.BoostNeverLowers`).
- The runtime says that dropping the heartbeat's handle aborts it (crates/worker/src/worker_runtime.rs:297-300). It
  does not, and since no lease is removed the heartbeat goes on renewing for ever (`WorkerProtocol.HeartbeatGoesOn`,
  `WorkerProtocol.NoHeartbeatStops`), even a lease that has completed (`WorkerProtocol.RevivalHappens`).
- A task that is requeued, for a retry or after its lease expired, is refused to every later worker because its lease
  is still on file (`WorkerProtocol.RequeuedTaskIsRefused`, `WorkerProtocol.AcquiresExactly`).
- The coordinator's reaper requeues the tasks of a node that it evicts, but its queue only requeues tasks that are
  still in it; what the node was working on has left the queue and is lost
  (`CoordinatorServer.ReaperRequeuesQueuedOnly`, `CoordinatorRuns.LostTaskHappens`).
- A connection whose reply cannot be sent ends without its node being deregistered (`Connection.HandleConnection`); the
  node and its cache locations stay until a reaper pass or the end of another connection of the node
  (`CoordinatorRuns.AbandonedNodeStays`).
- A failure that the breaker records at clock reading zero, or before the epoch, counts as no failure at all
  (`CircuitBreaker.OpenAdmitsExactly`, `CircuitBreaker.FailureAtTimeZero`, `CircuitBreaker.FailureAtTimeZeroHappens`).
- Almost all cache keys share their bytes with others. Only without a separator in the first three parts, and with no
  variable or a single one that has no '=' in key or value and no separator in its key, are the bytes those of no other
  input (`CacheKey.ConfusedExactly`). Among inputs whose keys have no '=' and whose values have no ';', which is what
  well-behaved callers pass, it takes a separator: in one of the first three parts, or followed in the variables by
  what reads as variables (`CacheKey.ConfusedAmongClean`).

## Model

| member | source | states |
|---|---|---|
| `TaskGraph.Dfs` | crates/scheduler/src/dag.rs:325-345 | The white/gray/black search from one node: a back edge yields a real cycle; otherwise everything reached is finished in an order with all dependencies first. Terminates, in any order of the edges |
| `TaskGraph.TurnsBlack` | crates/scheduler/src/dag.rs:340-343 | A task whose dependencies are finished may be finished itself: the order of the finished tasks stays topological |
| `TaskGraph.DetectCycle` | crates/scheduler/src/dag.rs:314-355 | Returns a task exactly when the dependency graph has a directed cycle, whatever the iteration order |
| `TaskGraph.GrayClosesCycle` | crates/scheduler/src/dag.rs:325-338 | An edge into the gray stack closes a cycle |
| `TaskGraph.TopologicalIsAcyclic` | crates/scheduler/src/dag.rs:347-355 | A graph that can be listed dependencies first has no cycle |
| `DagScheduler.TentativeCycle` | crates/scheduler/src/dag.rs:429-467 | With the new task tentatively stored, the graph is closed, and it has a cycle exactly when the task lists itself |
| `DagScheduler.Scheduler.Enqueue` | crates/scheduler/src/dag.rs:423-492 | Accepts exactly new tasks whose dependencies are all known; otherwise names the duplicate, the first unknown dependency or the cycle, and leaves everything as it was but for empty successor sets; keeps the invariant |
| `DagScheduler.Scheduler.Admit` | crates/scheduler/src/dag.rs:429-467 | The tentative half: the task and its edges are in if it is accepted, and out again if it is refused |
| `DagScheduler.Scheduler.Insert` | crates/scheduler/src/dag.rs:469-489 | The second half: an accepted task is Pending or, without dependencies, Ready with its heap entry |
| `DagScheduler.Scheduler.AddEdges` | crates/scheduler/src/dag.rs:447-455 | Adds exactly the reverse edges of the task's dependencies |
| `DagScheduler.Scheduler.RemoveEdges` | crates/scheduler/src/dag.rs:457-467 | Takes back exactly the reverse edges that were added |
| `DagScheduler.Scheduler.Missing` | crates/scheduler/src/dag.rs:438-445 | Finds the first unknown dependency, if there is one |
| `DagScheduler.Scheduler.constructor` | crates/scheduler/src/dag.rs:279-312 | A new scheduler represents the empty state and meets the invariant |
| `DagScheduler.Scheduler.SetFairness` | crates/scheduler/src/dag.rs:386-394 | Changes the aging policy and nothing else |
| `DagScheduler.Scheduler.SetStarvation` | crates/scheduler/src/dag.rs:396-406 | Changes the deadline policy and nothing else |
| `DagScheduler.Scheduler.UnblockOne` | crates/scheduler/src/dag.rs:531-551 | One dependency fewer; a Pending task that waits for no other becomes Ready with one heap entry and a fresh clock; the decrement cannot underflow |
| `DagScheduler.Scheduler.UnblockDependents` | crates/scheduler/src/dag.rs:528-552 | Unblocks each dependent once, in any order |
| `DagScheduler.Scheduler.Complete` | crates/scheduler/src/dag.rs:497-555 | Succeeds exactly for a Running task, which then is Completed; the maps, the pool and the heap represent the completed state; keeps the invariant |
| `DagScheduler.Scheduler.MarkDependents` | crates/scheduler/src/dag.rs:602-612 | Marks and queues the Pending and Ready successors of one task, and no others |
| `DagScheduler.Scheduler.Cascade` | crates/scheduler/src/dag.rs:597-613 | The worklist terminates having marked exactly the tasks reachable over successor edges through Pending or Ready tasks |
| `DagScheduler.SpreadIsCascade` | crates/scheduler/src/dag.rs:597-613 | A marked set that is reached and closed under open successors is the set of tasks on cascade paths |
| `DagScheduler.Scheduler.Fail` | crates/scheduler/src/dag.rs:561-616 | Succeeds exactly for a Pending, Ready or Running task, which then is Failed; changes it and the cascade and no other task; frees the pool only if it ran; keeps the invariant |
| `DagScheduler.Scheduler.Discard` | crates/scheduler/src/dag.rs:769-775 | Fails the task, under the same condition |
| `DagScheduler.Scheduler.Requeue` | crates/scheduler/src/dag.rs:733-767 | Records the attempt; only a Running task becomes Ready again, with one heap entry, its share of the pool not given back; keeps the invariant |
| `DagScheduler.Scheduler.Release` | crates/scheduler/src/dag.rs:521-526 | Gives back what the task holds, if there is a pool and it holds something |
| `DagScheduler.Scheduler.Age` | crates/scheduler/src/dag.rs:636-676 | Every heap entry and its metadata are aged once, each at its own clock readings; the rebuilt heap has the same tasks; the metrics grow by the tasks raised by aging and by the deadline |
| `DagScheduler.PopMax` | crates/scheduler/src/dag.rs:230-245 | Takes out an entry of greatest effective priority and, among those, of greatest task id |
| `DagScheduler.Scheduler.Select` | crates/scheduler/src/dag.rs:678-730 | Finds the greatest (effective priority, id) among Ready tasks that fit the pool, and nothing exactly when none fits; entries skipped for lack of resources are back in the heap |
| `DagScheduler.SelectFound` | crates/scheduler/src/dag.rs:681-716 | The first runnable entry popped is the best of all Ready tasks that fit, not only of those popped |
| `DagScheduler.SelectNone` | crates/scheduler/src/dag.rs:725-730 | When the heap runs empty no Ready task fits, and the entries left are those of the Ready tasks |
| `DagScheduler.Scheduler.Start` | crates/scheduler/src/dag.rs:695-716 | The task runs and takes its share of the pool; its effective priority is its own again |
| `DagScheduler.Scheduler.Dequeue` | crates/scheduler/src/dag.rs:627-731 | Hands out the first choice among the Ready tasks with room in CPU, memory and GPU, by due priority and then id, which alone changes its status, or nothing exactly when there is no such task; keeps the invariant and the metrics exact |
| `DagScheduler.HeapEntries` | crates/scheduler/src/dag.rs:482-489 | In every valid state each Ready task has exactly one heap entry, no two entries share a task, and no entry belongs to a Pending, Running or Completed task |
| `SchedulerInvariant.CountLemma` | crates/scheduler/src/dag.rs:447-489 | The in-degree is never negative; it is zero exactly when the dependencies are distinct, had not ended at the enqueue, and have all completed; a dependency that has not completed leaves it positive |
| `SchedulerInvariant.UnblockedMeansDone` | crates/scheduler/src/dag.rs:482-489 | A task with in-degree zero has all its dependencies Completed |
| `SchedulerSteps.EnqueueKeepsInv` | crates/scheduler/src/dag.rs:423-492 | Accepting a task keeps order, counters, failures and pool accounts right |
| `SchedulerSteps.CompletionSeen` | crates/scheduler/src/dag.rs:528-552 | A completion adds itself, once, to what each of its dependents has seen completed, and nothing to what others have |
| `SchedulerSteps.CompleteKeepsCounts` | crates/scheduler/src/dag.rs:528-552 | After a completion every counter is exact again, and every counter that was decremented was positive |
| `SchedulerSteps.CompleteKeepsInv` | crates/scheduler/src/dag.rs:497-555 | A completion keeps the invariant |
| `SchedulerSteps.CascadeMeetsPending` | crates/scheduler/src/dag.rs:603-612 | In reachable states everything a failure marks was Pending, never Ready |
| `SchedulerSteps.FailKeepsInv` | crates/scheduler/src/dag.rs:561-616 | A failure keeps the invariant |
| `SchedulerSteps.DequeueKeepsInv` | crates/scheduler/src/dag.rs:627-731 | A dequeue keeps the invariant |
| `SchedulerSteps.RequeueKeepsInv` | crates/scheduler/src/dag.rs:733-767 | A requeue keeps the invariant, the pool account being off by what it leaks |
| `SchedulerRuns.RunKeepsInv` | crates/scheduler/src/dag.rs:254-277 | The invariant holds in every state of every run |
| `SchedulerRuns.RunIsAcyclic` | crates/scheduler/src/dag.rs:429-467 | The stored graph has an entry for every dependency and no cycle, in every state of every run |
| `SchedulerRuns.RunGrows` | crates/scheduler/src/dag.rs:497-616 | No task is ever lost, none changes its dependencies, none leaves a terminal state |
| `SchedulerRuns.PrerequisitesFirst` | crates/scheduler/src/dag.rs:519-552 | A Ready, Running or Completed task has all its transitive dependencies Completed |
| `SchedulerRuns.DependentsOfFailedNeverRun` | crates/scheduler/src/dag.rs:603-612 | No transitive dependent of a task that ever fails is ever Ready, Running or Completed |
| `SchedulerRuns.InDegreeExact` | crates/scheduler/src/dag.rs:447-489 | In-degree is dependencies listed minus those completed since the enqueue; the decrement of a completion never underflows |
| `SchedulerRuns.ReadyExactly` | crates/scheduler/src/dag.rs:447-489 | With its dependencies all Completed, a waiting task is Ready if and only if it listed them without repetition and none had ended before |
| `SchedulerRuns.StuckForever` | crates/scheduler/src/dag.rs:470-489 | A task that repeats a dependency, or lists one that had ended, never becomes Ready |
| `SchedulerRuns.StuckHappens` | crates/scheduler/src/dag.rs:447-489 | A run in which both kinds of task stay Pending although all their dependencies are Completed |
| `SchedulerRuns.FailureReachesPending` | crates/scheduler/src/dag.rs:603-612 | A task still Pending under a failed dependency was enqueued after that dependency had ended |
| `SchedulerRuns.RootCause` | crates/scheduler/src/dag.rs:603-612 | Every DependencyFailed task has a transitive dependency that Failed itself |
| `SchedulerRuns.HandedOutOnce` | crates/scheduler/src/dag.rs:681-716 | A task is handed out twice only if it was requeued in between |
| `SchedulerRuns.ResourceSafety` | crates/scheduler/src/dag.rs:148-167 | In every state of every run, of CPU, memory and GPU each: what is used is the sum over the Running tasks plus the sum over the requeues of Running tasks so far, and is at most the capacity the scheduler was made with |
| `SchedulerRuns.LeakBlocksForever` | crates/scheduler/src/dag.rs:733-767 | A task of which one amount does not fit beside what requeues have leaked is never handed out again |
| `SchedulerRuns.LeakHappens` | crates/scheduler/src/dag.rs:733-767 | A run of three operations after which a Ready task no longer fits a pool that nothing runs in |
| `SchedulerOutcomes.StatusTable` | crates/scheduler/src/dag.rs:423-775 | In every run each operation changes the statuses exactly as one table says: a completion readies the Pending tasks that wait for nothing else, a failure or discard of a Pending, Ready or Running task makes it Failed and DependencyFailed exactly the Pending tasks behind it through Pending ones, a dequeue and a requeue touch one task; only an accepted enqueue adds one |
| `SchedulerOutcomes.DequeueChoice` | crates/scheduler/src/dag.rs:636-730 | A dequeue hands out a Ready task with room in CPU, memory and GPU such that every other one is lower in due priority, by name, or equal with a smaller id; nothing exactly when each Ready task exceeds some amount |
| `SchedulerOutcomes.DequeueMeta` | crates/scheduler/src/dag.rs:646-667 | A task that is still Ready after a dequeue has its due priority and waits since the same time: nothing changes unless it has waited for the aging threshold, or is at Low and past the enforced deadline |
| `SchedulerOutcomes.BoostByName` | crates/scheduler/src/dag.rs:209-215 | Aging takes a priority up one name at a time, to Critical at most; from 253 levels on it starts again at Low |
| `SchedulerOutcomes.CountedByName` | crates/scheduler/src/dag.rs:650-664 | The metrics count the heap entries whose priority aging raises by name, and those at Low after it that are past the deadline |
| `SchedulerOutcomes.ReadySince` | crates/scheduler/src/dag.rs:473-489 | A Ready task has been Ready since its enqueue, the completion of a dependency or its requeue: it waits since the clock reading of that operation, started at its own priority, and has the priority that the dequeues since then make of it |
| `SchedulerOutcomes.KeepsOwnPriority` | crates/scheduler/src/dag.rs:203-217 | Until a dequeue finds it past the threshold, or at Low and past the deadline, a waiting task keeps its own priority |
| `SchedulerOutcomes.OwnPriorityUnlessReady` | crates/scheduler/src/dag.rs:702-705 | Pending, Running and Completed tasks are at their own priority |
| `SchedulerOutcomes.PoliciesInForce` | crates/scheduler/src/dag.rs:386-406 | The policies in force are those last set |
| `SchedulerOutcomes.TaskIsAsEnqueued` | crates/scheduler/src/dag.rs:739-741 | Every task is the one that was enqueued, with the attempt of its last requeue; which of its dependencies had ended is as it was then |
| `SchedulerOutcomes.HandedOutAsEnqueued` | crates/scheduler/src/dag.rs:736-741 | What is handed out is a task as it was enqueued, with the attempt of its last requeue before |
| `SchedulerProgress.IdleUsesLeak` | crates/scheduler/src/dag.rs:733-767 | While nothing runs, what is used of the pool is exactly what requeues have leaked |
| `SchedulerProgress.IdleHandsOutExactly` | crates/scheduler/src/dag.rs:627-731 | While nothing runs, a dequeue hands out a task if and only if some Ready task fits beside the leak |
| `SchedulerProgress.DequeueProgresses` | crates/scheduler/src/dag.rs:627-731 | With clean dependencies and enough capacity, a dequeue hands out a task whenever nothing runs and something is unfinished |
| `SchedulerProgress.RunProgresses` | crates/scheduler/src/dag.rs:423-731 | The same over whole runs, from conditions on the enqueues only, even after failures |
| `SchedulerProgress.ProcessBatch` | crates/scheduler/src/soak_test.rs:104-111 | The dequeue-then-complete loop finishes one task a round while one is left, n tasks in exactly n rounds, each once, dependencies first |
| `SchedulerProgress.BoostNeverLowers` | crates/scheduler/src/dag.rs:204-217 | Boosting never lowers any priority if and only if the boost is at most 252 levels |
| `SchedulerProgress.AgedLevel` | crates/scheduler/src/dag.rs:204-217 | Past the threshold each dequeue raises the priority, or leaves it at Critical |
| `SchedulerProgress.BoundedWait` | crates/scheduler/src/dag.rs:642-676 | Past the threshold a Ready task is handed out within 3 + g + a dequeues, g being the Ready tasks with a greater id and a how often such a task becomes Ready meanwhile |
| `SchedulerProgress.NoArrivals` | crates/scheduler/src/dag.rs:642-676 | If no such task becomes Ready, a is zero: the bound is 3 + g |
| `SchedulerProgress.WaitingNeverDrops` | crates/scheduler/src/dag.rs:642-676 | Between any two moments of a wait, through any operations, the effective priority of the waiting task does not drop |
| `Leases.InMemoryLeaseStore.Insert` | crates/worker/src/lease_manager.rs:40-46 | Refuses a task that has any lease on file, and then changes nothing |
| `Leases.InMemoryLeaseStore.Update` | crates/worker/src/lease_manager.rs:52-58 | Replaces a lease on file; fails without one |
| `Leases.InMemoryLeaseStore.Remove` | crates/worker/src/lease_manager.rs:60-63 | Removes the lease of one task |
| `Leases.InMemoryLeaseStore.ActiveLeases` | crates/worker/src/lease_manager.rs:65-73 | Lists the Active leases, each once, whatever their expiry |
| `Leases.LeaseManager.Acquire` | crates/worker/src/lease_manager.rs:87-90 | One acquire step |
| `Leases.LeaseManager.Renew` | crates/worker/src/lease_manager.rs:92-102 | Moves the expiry to now plus the ttl, in whatever state the lease is |
| `Leases.LeaseManager.Finish` | crates/worker/src/lease_manager.rs:127-160 | Completes, fails or cancels the lease on file |
| `Leases.LeaseManager.CollectExpired` | crates/worker/src/lease_manager.rs:104-125 | Expires every lease that is Active and overdue and returns each of them exactly once |
| `Leases.NeverActiveAgain` | crates/worker/src/lease_manager.rs:92-160 | With manager operations as steps, a lease that leaves Active never becomes Active again, and keeps its identity |
| `Leases.CollectsExactly` | crates/worker/src/lease_manager.rs:104-125 | A collection returns a lease if and only if it is Active and the time is past its expiry |
| `Leases.CollectedOnce` | crates/worker/src/lease_manager.rs:104-125 | No lease is returned by two collections of a run |
| `Leases.ExpiryFollowsRenewal` | crates/core/src/lease.rs:54-61 | The expiry is set by the last operation that extended the lease, across all others |
| `Leases.NotCollectedWithinTtl` | crates/core/src/lease.rs:54-61 | A lease is never collected within the ttl of its last renewal |
| `Leases.LeaseFollowsHistory` | crates/worker/src/lease_manager.rs:75-160 | In every run the lease of a task is what its first acquire made it and the later renewals, endings and collections of it say, in whatever order other leases are worked on |
| `WorkerProtocol.AcquiredOnce` | crates/worker/src/worker_runtime.rs:218-231 | Under any interleaving of store calls at most one acquire of a task succeeds |
| `WorkerProtocol.OnFileWasAcquired` | crates/worker/src/lease_manager.rs:40-58 | Every lease on file was put there by an earlier successful acquire |
| `WorkerProtocol.AcquiresExactly` | crates/worker/src/worker_runtime.rs:218-231 | A worker gets the task it was handed if and only if no worker ever got it before; otherwise it goes on idle |
| `WorkerProtocol.RequeuedTaskIsRefused` | crates/worker/src/worker_runtime.rs:361-373 | A task acquired once and requeued is refused to every later worker |
| `WorkerProtocol.HoldersAcquired` | crates/worker/src/worker_runtime.rs:188-349 | A worker that works on a task acquired it itself, earlier |
| `WorkerProtocol.OneExecution` | crates/worker/src/worker_runtime.rs:218-231 | Two different workers never work on the same task, at the same or at different moments |
| `WorkerProtocol.StepKeepsInv` | crates/worker/src/lease_manager.rs:92-160 | What a process is about to write back is always the lease on file up to its state and expiry; only heartbeats write Active |
| `WorkerProtocol.HeartbeatReadEarlier` | crates/worker/src/lease_manager.rs:92-102 | What a heartbeat is about to write is the renewal of a lease it read at an earlier moment of the run, and it has not written since |
| `WorkerProtocol.RevivedExactly` | crates/worker/src/worker_runtime.rs:262-272 | A lease becomes Active again at a moment exactly when a heartbeat read it Active earlier, it has left Active in between, and that heartbeat writes now |
| `WorkerProtocol.RevivalHappens` | crates/worker/src/worker_runtime.rs:262-272 | A concrete run in which a completed lease is Active again |
| `WorkerProtocol.LeasingWasHanded` | crates/worker/src/worker_runtime.rs:188-231 | A worker leases only what it was handed, with that attempt |
| `WorkerProtocol.LeaseNamesAcquire` | crates/core/src/lease.rs:37-49 | A lease on file names, for as long as it is there, the worker, the attempt and the time of the acquire that put it there, Active then and for its time to live |
| `WorkerProtocol.HolderKeepsAttempt` | crates/worker/src/worker_runtime.rs:301-349 | A worker executes and ends the attempt it acquired; only a retry requeues with the next one |
| `WorkerProtocol.EndIsOnFile` | crates/worker/src/worker_runtime.rs:301-349 | Every write of a worker puts on file how the execution ended, with the attempts made, every write of a reaper Expired and of a cancellation Cancelled; a retry is requeued with the next attempt |
| `WorkerProtocol.ReaperFoundOverdue` | crates/worker/src/lease_manager.rs:104-125 | What a reaper is about to expire it read Active and past its expiry at an earlier moment |
| `WorkerProtocol.NoHeartbeatStops` | crates/worker/src/worker_runtime.rs:262-272 | In no run does any heartbeat ever stop; each has a lease to renew |
| `WorkerProtocol.HeartbeatGoesOn` | crates/worker/src/worker_runtime.rs:262-299 | The heartbeat that an acquire starts is at every later moment checking, reading or renewing the lease, whatever became of the worker |
| `ShellQuoting.EscapeIsOnePass` | crates/worker/src/ssh_tmux_executor.rs:31-36 | The four chained replacements escape each character by itself: none touches what another inserted |
| `ShellQuoting.QuotesReadBack` | crates/worker/src/ssh_tmux_executor.rs:31-36 | Inside double quotes any escaped string reads back as itself |
| `ShellQuoting.JoinReadsBack` | crates/worker/src/ssh_tmux_executor.rs:39-44 | The joined arguments read back as exactly those words |
| `ShellQuoting.InnerReadsBack` | crates/worker/src/ssh_tmux_executor.rs:47-50 | The inner script runs the arguments in a subshell and then records the exit code |
| `ShellQuoting.OuterReadsBack` | crates/worker/src/ssh_tmux_executor.rs:47-50 | The wrapped command has three words: sh, -c and the inner script unchanged |
| `ShellQuoting.TwoLevelRoundTrip` | crates/worker/src/ssh_tmux_executor.rs:31-50 | Through both levels every non-empty argument list comes back unchanged |
| `ShellQuoting.WrappedIsInjective` | crates/worker/src/ssh_tmux_executor.rs:31-50 | Different argument lists give different commands |
| `ArtifactCache.Cache.constructor` | crates/cache/src/artifact.rs:146-169 | Scanning a directory in any order gives one entry a file and the exact total |
| `ArtifactCache.Cache.EvictLru` | crates/cache/src/artifact.rs:127-144 | Removes a least recently used entry with its file, and keeps the total exact |
| `ArtifactCache.Cache.MakeRoom` | crates/cache/src/artifact.rs:67-70 | Terminates with room or an empty cache; no evicted entry was used after a survivor, and no eviction was unnecessary |
| `ArtifactCache.Cache.Store` | crates/cache/src/artifact.rs:53-84 | A hit refreshes and writes nothing; a miss evicts least recently used entries, none needlessly, and writes the file; the total stays the sum of sizes, within the limit unless only the new item is left |
| `ArtifactCache.Cache.Retrieve` | crates/cache/src/artifact.rs:87-101 | Returns the file if there is one, counts the hit or miss, and refreshes its time; a key that leads elsewhere counts as a hit, and is read or fails |
| `ArtifactCache.RunIsAddressed` | crates/cache/src/artifact.rs:53-101 | Over every sequence of stores and retrievals each file stays named by the hash of its contents |
| `ArtifactCache.FileStays` | crates/cache/src/artifact.rs:53-101 | Once stored, a file is there exactly as long as it has not been evicted without being stored again |
| `ArtifactCache.StoredIsRetrieved` | crates/cache/src/artifact.rs:53-101 | After any stores and retrievals in between, unless other contents with the same hash were there or stored, a retrieval of what was stored gives it back, or misses exactly when it was evicted and not stored again |
| `ArtifactCache.AccessIsLastUse` | crates/cache/src/artifact.rs:53-101 | In every run the access time of an entry is the time of the last store or retrieval of its key |
| `ArtifactCache.LeastRecentlyUsed` | crates/cache/src/artifact.rs:127-144 | Whatever a store evicts was last stored or retrieved no later than anything that it keeps |
| `ArtifactCache.UsedAfterEvicted` | crates/cache/src/artifact.rs:127-144 | While the clock moves on, every use of what a store evicts was followed by a use of everything it keeps |
| `ArtifactCache.LimitIsKept` | crates/cache/src/artifact.rs:67-84 | Once the files are within the limit, or there is a single one, they stay so |
| `ArtifactCache.LimitStep` | crates/cache/src/artifact.rs:67-84 | Every store that writes a file leaves the files within the limit, or a single one |
| `ArtifactCache.TotalSizeWithout` | crates/cache/src/artifact.rs:127-144 | The total does not depend on the order of summation |
| `ArtifactCache.EvictOneMore` | crates/cache/src/artifact.rs:67-70 | Evicting the oldest of the rest keeps the evicted set the least recent, and none of it unneeded |
| `CacheKey.CacheKeyBuilder.WithEnv` | crates/cache/src/cache_key.rs:26-31 | Inserts the pairs in order |
| `CacheKey.CacheKeyBuilder.WithToolchain` | crates/cache/src/cache_key.rs:34-37 | Replaces the toolchain and nothing else |
| `CacheKey.CacheKeyBuilder.Build` | crates/cache/src/cache_key.rs:41-60 | Feeds the hash the parts and the variables in increasing order of their keys |
| `CacheKey.EncodingAsText` | crates/cache/src/cache_key.rs:41-58 | With the variables listed in ascending order of their keys, byte by byte, the bytes are the parts with a vertical bar after each, and each variable with an equals sign and a semicolon |
| `CacheKey.LastPairCounts` | crates/cache/src/cache_key.rs:26-31 | Of several pairs with one key the last counts; other keys keep their values |
| `CacheKey.OrderDoesNotMatter` | crates/cache/src/cache_key.rs:26-31 | Distinct keys added in any order lead to the same bytes |
| `CacheKey.ParseCompletes` | crates/cache/src/cache_key.rs:53-58 | Variables whose keys have no '=' and whose values have no ';' read back from their bytes |
| `CacheKey.ParseIsSound` | crates/cache/src/cache_key.rs:53-58 | What reads as variables is the bytes of such variables |
| `CacheKey.EnvIsDetermined` | crates/cache/src/cache_key.rs:53-58 | The bytes of the variables determine the variables, when keys have no '=' and values no ';' |
| `CacheKey.EncodingIsInjective` | crates/cache/src/cache_key.rs:41-58 | With no vertical bar in the first three parts besides, the bytes determine repository, goal, toolchain and variables |
| `CacheKey.PipesAreAmbiguous` | crates/cache/src/cache_key.rs:44-50 | A text cut at a separator gives the same bytes wherever it is cut, between any two of the first three parts |
| `CacheKey.SecondReading` | crates/cache/src/cache_key.rs:44-58 | With a separator in a part, or variables that hide others after one, there are other parts with the same bytes |
| `CacheKey.OnlyReading` | crates/cache/src/cache_key.rs:44-58 | Otherwise, among inputs with no '=' in keys and no ';' in values, there are no other parts with the same bytes |
| `CacheKey.ConfusedAmongClean` | crates/cache/src/cache_key.rs:41-58 | Both together: among such inputs parts share their bytes with others if and only if a separator is in the first three, or is followed in the variables by bytes that parse |
| `CacheKey.AnotherReading` | crates/cache/src/cache_key.rs:41-58 | A separator in the first three parts, two variables, an '=' in a key or value, or a separator in a key: each gives other parts with the same bytes |
| `CacheKey.SameStart` | crates/cache/src/cache_key.rs:41-58 | Without any of these the variables begin at the same place in every reading of the bytes |
| `CacheKey.ConfusedExactly` | crates/cache/src/cache_key.rs:41-58 | With nothing assumed of either side: some other input has the same bytes if and only if a separator is in one of the first three parts, or there are two or more variables, or a single one has an '=' in it or a separator in its key |
| `CacheKey.PipeInEnv` | crates/cache/src/cache_key.rs:53-58 | A separator is in the bytes of the variables exactly when it is in a key or a value |
| `CacheKey.EqualsIsAmbiguous` | crates/cache/src/cache_key.rs:53-58 | An '=' in any key or any value gives another input with the same bytes |
| `CacheKey.SemicolonIsAmbiguous` | crates/cache/src/cache_key.rs:53-58 | Two or more variables always have the bytes of a single one whose value contains a ';' and all the others |
| `CircuitBreaker.CircuitBreaker.CurrentState` | crates/core/src/circuit_breaker.rs:88-106 | Opens a half-open window exactly when the timeout has passed; never before the epoch |
| `CircuitBreaker.CircuitBreaker.RecordSuccess` | crates/core/src/circuit_breaker.rs:114-145 | The new state after a success |
| `CircuitBreaker.CircuitBreaker.RecordFailure` | crates/core/src/circuit_breaker.rs:148-172 | The new state after a failure |
| `CircuitBreaker.CircuitBreaker.Call` | crates/core/src/circuit_breaker.rs:177-222 | Admits or rejects, and records the outcome |
| `CircuitBreaker.CircuitBreaker.Reset` | crates/core/src/circuit_breaker.rs:225-233 | Closed with clean counters; the time of the last failure stays |
| `CircuitBreaker.CountersTrackHistory` | crates/core/src/circuit_breaker.rs:88-233 | In every run the counters are what the history of outcomes says, and none overflows 32 bits |
| `CircuitBreaker.OpensExactlyAtThreshold` | crates/core/src/circuit_breaker.rs:148-160 | Leaves Closed exactly when the last threshold outcomes since it closed or was reset all failed; admits every call until then |
| `CircuitBreaker.OpenUntilTimeout` | crates/core/src/circuit_breaker.rs:88-106 | Open admits a call, or turns half-open, exactly when the code's elapsed time since the last failure of the history, which is zero for a failure at time zero, has reached the timeout |
| `CircuitBreaker.OpenAdmitsExactly` | crates/core/src/circuit_breaker.rs:245-264 | In terms of the clock: exactly when a failure was recorded after time zero and the call starts after the epoch and at least the timeout later, or none was and there is no timeout |
| `CircuitBreaker.CircuitBreaker.TimeSinceLastFailure` | crates/core/src/circuit_breaker.rs:252-264 | The elapsed time against which the timeout is checked; none before the epoch |
| `CircuitBreaker.CircuitBreaker.RecordLastFailure` | crates/core/src/circuit_breaker.rs:245-250 | Notes the time, unless it is before the epoch |
| `CircuitBreaker.StaysOpen` | crates/core/src/circuit_breaker.rs:177-197 | Before the timeout any number of attempts leaves an open breaker as it is, all rejected |
| `CircuitBreaker.TrialDecides` | crates/core/src/circuit_breaker.rs:118-145 | A half-open window admits at most the maximum of calls, reopens at the first failure and closes after exactly that many successes |
| `CircuitBreaker.ReclosesThroughTrial` | crates/core/src/circuit_breaker.rs:118-145 | Other than by a reset, the breaker closes again only after a full window of successes |
| `CircuitBreaker.ResetCloses` | crates/core/src/circuit_breaker.rs:225-233 | After a reset, from any state, the breaker is Closed with no outcomes and the next call is admitted; the last failure time stays |
| `CircuitBreaker.FailureAtTimeZero` | crates/core/src/circuit_breaker.rs:252-256 | Without a failure recorded after time zero an open breaker stays open whatever the time |
| `CircuitBreaker.FailureAtTimeZeroHappens` | crates/core/src/circuit_breaker.rs:245-256 | For every end at time zero or before the epoch, a run of one call that comes to that |
| `Framing.FramedTransport.SendMessage` | crates/transport/src/framing.rs:19-33 | Writes one frame, or refuses and writes nothing |
| `Framing.FramedTransport.RecvMessage` | crates/transport/src/framing.rs:36-66 | Reads one frame; nothing below four bytes, errors for an oversized or truncated one |
| `Framing.SentExactly` | crates/transport/src/framing.rs:19-33 | A message is sent exactly when it serializes to at most 16 MiB: its length, least significant byte first, then the payload; which error it is otherwise |
| `Framing.ReceivedExactly` | crates/transport/src/framing.rs:36-66 | When a receive yields nothing, a message, or each of the errors, in terms of the announced length and the decoder, and that it takes exactly the frame |
| `Connection.HandleConnection` | crates/coordinator/src/server.rs:63-97 | Handles exactly the requests that the stream yields, in order, each answered in the state it finds and the answers framed in order; then the connection is closed and its node forgotten, or, exactly at the first reply that fails, dropped with its node still registered |
| `CoordinatorRuns.StaysUntilForgotten` | crates/coordinator/src/server.rs:79-94 | A registered node stays registered with all its locations until a pass reaps it or a connection that it registered over closes |
| `CoordinatorRuns.AbandonedNodeStays` | crates/coordinator/src/server.rs:74-77 | After a reply that failed, at every later moment the worker is still a member and its announcements stand, unless a pass has reaped it or another of its connections has closed |
| `CoordinatorRuns.LostTaskHappens` | crates/coordinator/src/server.rs:209-222 | A run of five steps after which an evicted worker's lease is still Active and its task is in no queue |
| `Framing.LengthRoundTrip` | crates/transport/src/framing.rs:26-28 | A 32-bit length reads back from its little-endian bytes |
| `Framing.LengthInRange` | crates/transport/src/framing.rs:49-51 | Four bytes always are the encoding of the length they decode to |
| `Framing.FrameIsReceived` | crates/transport/src/framing.rs:19-66 | Every frame the sender accepts passes the receiver's limit and is received as the message |
| `Framing.CutAnywhere` | crates/transport/src/framing.rs:36-66 | Cut at any byte, a stream yields the messages of its whole frames, then nothing within a length prefix and "truncated frame" within a payload |
| `Framing.StreamRoundTrip` | crates/transport/src/framing.rs:19-66 | A stream of frames yields exactly the messages sent |
| `Framing.OneMoreFrame` | crates/transport/src/framing.rs:26-33 | After each accepted send, what has been written is the frames of the messages sent so far |
| `Framing.StreamIsInjective` | crates/transport/src/framing.rs:19-33 | Different messages are never the same bytes |
| `PriorityQueues.PriorityQueueManager.EnqueueTask` | crates/core/src/priority_queue.rs:77-95 | The four queues stay the arrivals sorted by priority, the depth their number |
| `PriorityQueues.PriorityQueueManager.DequeueTask` | crates/core/src/priority_queue.rs:105-145 | Removes the earliest arrival of the highest priority, or nothing exactly when all arrivals are held back: Low ones in high degradation, all but Critical ones in critical degradation |
| `PriorityQueues.DequeuesByName` | crates/core/src/priority_queue.rs:105-145 | Nothing comes exactly when all arrivals are held back by the mode; what comes is not, and nothing that waits is higher, by name |
| `PriorityQueues.PriorityQueueManager.PendingAtPriority` | crates/core/src/priority_queue.rs:148-164 | Counts the arrivals of one priority |
| `PriorityQueues.PriorityQueueManager.GetStats` | crates/core/src/priority_queue.rs:172-204 | The counts add up to the depth; the highest priority is that of the next task in normal mode |
| `PriorityQueues.PriorityQueueManager.Clear` | crates/core/src/priority_queue.rs:207-231 | Nothing is pending |
| `PriorityQueues.Partition` | crates/core/src/priority_queue.rs:166-175 | The total depth is the sum of the four queue lengths |
| `PriorityQueues.FirstInFirstOut` | crates/core/src/priority_queue.rs:105-145 | In every run and through any modes, tasks of one priority leave in the order they came, none lost or repeated |
| `PriorityQueues.NormalDrainIsStableSort` | crates/core/src/priority_queue.rs:105-145 | Draining in normal mode gives the stable sort by descending priority and leaves nothing |
| `PriorityQueues.StableSortIsUnique` | crates/core/src/priority_queue.rs:105-145 | There is one such sort |
| `PriorityQueues.DrainFilters` | crates/core/src/priority_queue.rs:111-131 | Draining in any mode empties exactly the queues it admits and leaves the others alone |
| `Coordinator.CacheIndex.Announce` | crates/coordinator/src/cache_index.rs:31-33 | Appends one location to one key |
| `Coordinator.CacheIndex.Query` | crates/coordinator/src/cache_index.rs:35-49 | The locations of the key, none if it is unknown |
| `Coordinator.CacheIndex.EvictNode` | crates/coordinator/src/cache_index.rs:51-57 | Removes the worker's locations and the keys left without any; keeps the others in order |
| `Coordinator.NodeRegistry.Register` | crates/coordinator/src/node_registry.rs:48-53 | The node is known, seen now and without failed probes |
| `Coordinator.NodeRegistry.Heartbeat` | crates/coordinator/src/node_registry.rs:55-57 | Notes the time, even for a worker that is not registered |
| `Coordinator.NodeRegistry.StaleNodes` | crates/coordinator/src/node_registry.rs:59-68 | Lists exactly the workers last seen more than the timeout ago, each once, in any order |
| `Coordinator.NodeRegistry.Remove` | crates/coordinator/src/node_registry.rs:70-74 | Forgets everything about a worker |
| `Coordinator.NodeRegistry.RecordProbe` | crates/coordinator/src/node_registry.rs:87-94 | Counts failures up to the 32-bit maximum; a success resets |
| `Coordinator.NodeRegistry.HealthStatus` | crates/coordinator/src/node_registry.rs:96-106 | The health the failure count stands for |
| `Coordinator.NodeRegistry.UnhealthyNodes` | crates/coordinator/src/node_registry.rs:108-116 | Lists exactly the workers with three or more failures, each once, in any order |
| `CoordinatorServer.Server.HandleRequest` | crates/coordinator/src/server.rs:99-198 | Every request with its effect and its answer; an announcement needs a registered connection and a node still known |
| `CoordinatorServer.Server.CloseConnection` | crates/coordinator/src/server.rs:79-94 | Forgets the node that registered over the connection, and its locations |
| `CoordinatorServer.Server.Evict` | crates/coordinator/src/server.rs:211-222 | Requeues what one worker holds, one attempt later, and forgets the worker |
| `CoordinatorServer.Server.ReaperPass` | crates/coordinator/src/server.rs:209-237 | Forgets exactly the stale and the unhealthy nodes, and asks for each of their active leases, read anew for each node, to be requeued exactly once |
| `CoordinatorServer.ReaperRequeuesQueuedOnly` | crates/coordinator/src/server.rs:209-237 | A pass changes the queue if and only if an evicted node holds an active lease on a task still in it; no task that has left the queue comes back |
| `CoordinatorServer.ReaperRaisesAttempts` | crates/coordinator/src/server.rs:209-237 | A pass appends exactly one entry for each task in the queue that an evicted node holds an active lease on, with the attempt after the leased one; the entries before keep their places |
| `CoordinatorServer.Server.EnqueueTask` | crates/coordinator/src/state.rs:35-37 | Appends the task to the queue |
| `CoordinatorServer.TaskQueue.Requeue` | crates/scheduler/src/stub.rs:48-66 | Queues a task a second time if it is still in the queue, and does nothing otherwise |
| `CoordinatorServer.TaskQueue.Dequeue` | crates/scheduler/src/stub.rs:40-46 | Takes the first task |
| `CoordinatorServer.CallsReach` | crates/scheduler/src/stub.rs:48-66 | Requeues leave the queue as it is exactly when none of their tasks is in it, and never change which tasks are in it |
| `CoordinatorRuns.StateTracksHistory` | crates/coordinator/src/server.rs:99-237 | In every run registry and index are what the history of requests, closings, probes and passes says |
| `CoordinatorRuns.LocationsAreOnRegisteredNodes` | crates/coordinator/src/server.rs:79-94 | Every cached location belongs to a node registered now; no key is kept without a location |
| `CoordinatorRuns.QueryTellsAnnouncements` | crates/coordinator/src/cache_index.rs:31-49 | A query returns the announcements of the key since each worker last went, in announce order |
| `CoordinatorRuns.AnnouncementAccepted` | crates/coordinator/src/server.rs:180-195 | An announcement is accepted exactly when a worker registered over the connection, which has not ended since, and is not gone since |
| `CoordinatorRuns.AnnouncedIsFound` | crates/coordinator/src/server.rs:176-195 | After an accepted announcement a query of the key gives the earlier locations and then the worker, the host name it last registered with and the announced path; queries of other keys are unchanged |
| `CoordinatorRuns.ConnectionsFollow` | crates/coordinator/src/server.rs:63-94 | The worker of a connection is the one that last registered over it, unless it has been closed or abandoned since |
| `CoordinatorRuns.NodesAreAsRegistered` | crates/coordinator/src/node_registry.rs:48-53 | What is known of a node is what it last registered with |
| `CoordinatorRuns.LeasesFollowRequests` | crates/coordinator/src/server.rs:136-163 | The lease of a task is that of the first insert since its removal and of the last update after it |
| `CoordinatorRuns.AnswersFollowHistory` | crates/coordinator/src/server.rs:112-163 | What workers are told of leases, and which task they are handed, is what the requests before say |
| `CoordinatorRuns.ListedLeases` | crates/coordinator/src/server.rs:164-167 | The list of active leases has exactly those that are Active by the history, each once |
| `CoordinatorRuns.RefusedOrDone` | crates/coordinator/src/server.rs:99-195 | "Not registered" and "node not found" are answered exactly to announcements over a connection without a worker, or whose worker is gone; requests that cannot fail are answered with success |
| `CoordinatorRuns.RequeuedOnce` | crates/scheduler/src/stub.rs:48-66 | A requeue of a queued task sets the attempt of its first entry and appends a copy; of any other task it changes nothing |
| `CoordinatorRuns.HandedOutInOrder` | crates/scheduler/src/stub.rs:33-66 | First in, first out: what was put into the queue, requeued copies included, is what has been handed out followed by what is still queued |
| `CoordinatorRuns.HealthTellsProbes` | crates/coordinator/src/node_registry.rs:87-106 | Unhealthy exactly when the last three probes since success, registration or removal failed; Degraded exactly when the last one did but not three |
| `CoordinatorRuns.ReapedExactly` | crates/coordinator/src/server.rs:203-237 | A pass reaps exactly the workers, registered or not, last heard of more than the timeout ago or with three failed probes in a row |
| `CoordinatorRuns.ReaperForgetsExactly` | crates/coordinator/src/server.rs:209-237 | A pass forgets a registered node exactly when its last contact is older than the timeout or its last three probes failed; a kept node keeps its locations |

## Left out

- Sockets, async tasks, SSH and tmux calls, processes, signals, the database, HTTP probes, logging: I/O.
- JSON and SHA-256 are arbitrary functions; decoding undoes encoding, and no collision with the retrieved contents occurs
  where a stored value is retrieved.
- CPU amounts are whole millicores instead of 32-bit floats, so that sums are exact; sums of resources, sizes and depths
  do not overflow. The eight-bit addition of aging and the saturating probe counter are modelled.
- A task's command, environment, location and retry policy play no part in scheduling and are not modelled.
- Poisoned locks, and operations on the scheduler that overlap: the program holds one lock for each of them.
- The lease store's check and insert are one step. A process that dies without a trace is one that takes no more steps.
- Other users of the cache directory, and files written only in part.
- `ArtifactCache.Cache.Retrieve`: keys that lead out of the root directory find the same data at any time, and a file of
  the cache under another spelling of its name is not modelled, because paths are plain names.
- `store_task_artifact` returns a combined key under which nothing is stored.
- Concurrent half-open calls of the breaker, which are counted before their outcomes: calls are sequential. Its
  configurations are those with a failure threshold and a call maximum of at least one and at most 100 per cent.
- A reaper pass is one step. A connection is served while no other is; over runs, requests of connections interleave.
- Retry and back-off, time slices, goal locks, budgets, back-pressure thresholds, the event ring and session naming would
  only add easy members.
