# Dkron: the replicated job store, its leader and its agents

Dkron is a cron that survives the loss of nodes. Jobs, executions and daily statistics live in a store
that every server rebuilds from one Raft log. The elected leader mirrors the stored jobs in a cron
scheduler, chooses nodes for each run, follows the run over a stream, and turns completions into
retries, dependent runs and counters. This project models that logic in Dafny and proves what the parts
promise each other, over whole logs and whole runs.

How the files are laid out:

- `Types`, `Keys`, `Text`, `Wrappers`: jobs, executions, times, execution keys, decimal numbers and
  splitting. Times are nanoseconds as integers, the zero time is a constant far in the past, job counters
  are 32 bits wide and wrap.
- `StoreSpec`: the database as a value and the effect of each log command; `JobStore` is the store as an
  object whose transactions, loops and recursive parent updates are proved against it.
- `Links`, `History`, `Replicas`, `Completions`, `Ledger`: theorems about logs. They cover parent links,
  keys and bounded history, replicas under different clocks, repeated and reordered completions, and
  counters against the completions counted.
- `Forest` and `JobTree`: the forest that a restore builds, on values and in place; `Restore` is its
  replay into the leader, and `Backup` says which backups come back as they were.
- `Scheduler`, `Leader`, `LeaderNode`, `Runnable`, `Cascade`: the entry table, the handlers, the go-ahead
  for a job, retries and dependents. `Leadership` is the monitor and its loops as a state machine.
- `Members`, `Reconcile`, `Nodes`, `AgentRun`: which members are servers, the Raft peers, the choice of
  nodes, and the client's retry loop over the stream protocol.
- `ScheduleHash`: the rewriting of `~` in cron specs.

What comes from outside is a parameter: clock readings, the answer of Raft to each command, the outcome
of each network call, the order of a map walk, the selector of nodes. `Types.Env` bundles the functions
that the store calls and libraries define: cron parsing and the next run, the timezone database, the
executor checks, lower-case letters, and the sort by start time (`ValidEnv` says that it sorts, and that
a colon is no lower-case letter; `AcceptsZones` that cron accepts a known timezone before a spec that it
accepts alone).

Some plausible claims are false of the code. For each a lemma gives the exact condition under which it
holds: exact child lists (`Links.SetJobExactIff`), a scheduler in step with requests that do not validate
(`Leader.InvalidSetJobInSyncIff`), repetitions that are never counted
(`Completions.RepetitionCountsAgainIff`), completions that commute (`Completions.PermutedIff`), keys that
tell jobs apart (`Keys.CollideIff`), deletes that touch one job only (`History.DeleteSparesIff`), a
go-ahead that leaves no stored running execution (`Runnable.NothingRunsIff`; started retries are not even
stored as running, `Cascade.RetryNotFound`), cascades that end (`Cascade.EndsIffAcyclic`, with a cycle
that the store accepts in `Cascade.StoreAcceptsCycle`), departed servers that are removed
(`Reconcile.StaysIff`), a node that corrects its own address (`Reconcile.SelfCorrectedIff`), pauses that
double (`AgentRun.PauseDoublesIff`), retries that carry the caller's execution
(`AgentRun.BrokenStreamMarksRetry`), and backups that restore what they saved (`Backup.RestoresExactIff`).

Where comments and code differ the model follows the code. The comment above `removeRaftPeer`
(dkron/dkron/leader.go:344-345) speaks of reaped servers, but a reaped server is not removed
(`Reconcile.StaysIff`). The comment in the retry loop (dkron/dkron/grpc_client.go:442) says that overflow is
prevented, but the loop doubles before it compares: an initial interval of 2^62 or more overflows at once,
and a smaller one does when doubling it reaches a value of 2^62 or more that is still within the maximum.
Otherwise nothing overflows (`AgentRun.PauseWraps`, `AgentRun.PauseDoublesIff`).

## Model

| member | source | states |
|---|---|---|
| `JobStore.Store.SetJob` | dkron/dkron/store.go:123-207 | Stores the job merged with the stored one, moves it between the child lists of its old and new parent, refuses an invalid job or an unknown parent and then changes nothing; the mutual recursion with the parent updates goes one level deep |
| `JobStore.Store.SetJobTx` | dkron/dkron/store.go:141-191 | The read-merge-write transaction: a schedule that changed and does not parse rolls everything back, one that changed and parses brings the next run that the start to come or cron gives, and with the same schedule the later next run stays |
| `JobStore.Store.KeepProgress` | dkron/dkron/store.go:150-171 | Counters and last times are the larger ones of those stored and given; a recorded status stays, a stored child list stays where it is to be copied, and every other field is the given one |
| `JobStore.Store.RemoveFromParent` | dkron/dkron/store.go:211-239 | Every occurrence of the child leaves its parent's list; on a sound store the nested SetJob cannot fail half way |
| `JobStore.Store.AddToParent` | dkron/dkron/store.go:242-262 | The child is appended to its parent's list; on a sound store the nested SetJob cannot fail half way |
| `JobStore.Store.GetParent` | dkron/dkron/job.go:304-323 | The stored parent, or exactly which of the three errors |
| `JobStore.Store.DeleteJob` | dkron/dkron/store.go:468-506 | Refuses a missing job and a job with children, otherwise removes the job, its list entry and every execution under its name prefix; links stay sound |
| `JobStore.Store.DeleteExecutionsTx` | dkron/dkron/store.go:805-824 | Deletes every key that starts with the name, whether or not a colon follows |
| `JobStore.Store.ListExecutions` | dkron/dkron/store.go:574-595 | The listing by the prefix with its closing colon, without the directory's own key |
| `JobStore.Store.GetRunningExecutions` | dkron/dkron/store.go:621-642 | Exactly the listed executions that started and did not finish |
| `JobStore.Store.GetJobs` | dkron/dkron/store.go:377-422 | Every stored job, each once |
| `JobStore.Store.SetExecutionTx` | dkron/dkron/store.go:676-706 | Last writer wins by finish time, and the caller learns whether it wrote |
| `JobStore.Store.SetExecution` | dkron/dkron/store.go:709-765 | Write, then keep of the job's listing the MAX_EXECUTIONS that started last |
| `JobStore.Store.DeleteOverflow` | dkron/dkron/store.go:740-762 | Deletes exactly the keys before the last MAX_EXECUTIONS in start order |
| `JobStore.Store.ComputeStatus` | dkron/dkron/store.go:870-913 | Success if and only if none of the group's listed executions failed, failed if and only if some did and none succeeded, partially failed if and only if both occur |
| `JobStore.Store.IncrementStat` | dkron/dkron/store.go:933-975 | One counter of one UTC day rises by one, a missing day starts at zero |
| `JobStore.Store.SetExecutionDone` | dkron/dkron/store.go:266-360 | Ignores stale completions, rewrites repeated ones without counting, counts all others once in job, status and day |
| `JobStore.Store.DeleteExecutions` | dkron/dkron/store.go:771-802 | Clears executions, both counters and both last times of a stored job; for a missing job the deletions are rolled back |
| `JobStore.Store.Apply` | dkron/dkron/fsm.go:55-151 | Each log entry has the effect and the reply of its command, and keeps the links sound |
| `Links.SetJobLinked` | dkron/dkron/store.go:123-207 | SetJob keeps: each job with a parent names a stored job that lists it |
| `Links.DeleteJobLinked` | dkron/dkron/store.go:468-506 | DeleteJob keeps the same |
| `Links.NestedSetJob` | dkron/dkron/store.go:211-262 | The nested SetJob of a parent update succeeds and stores the changed list and nothing else |
| `Links.NextRunIs` | dkron/dkron/job.go:388-402 | The next run that an accepted SetJob stores: for a new or changed schedule the start still to come, else the time that cron gives after the clock reading, else the zero time; for the stored schedule the later one of those stored and given |
| `Links.MergedKeepsProgress` | dkron/dkron/store.go:150-171 | Apart from the next run, what SetJob writes is the given job with the larger counters and later last times, the recorded status and the stored list |
| `Links.RunLinked` | dkron/dkron/fsm.go:55-151 | In every state that any log reaches each job with a parent names a stored job that lists it, and all stored jobs are valid under their own names |
| `Links.SetJobExactIff` | dkron/dkron/store.go:165-167 | SetJob keeps every list equal to the set of children, each once, if and only if it does not take over a list sent by the client |
| `Links.DeleteJobExact` | dkron/dkron/store.go:468-506 | DeleteJob keeps the lists exact |
| `Links.RunExact` | dkron/dkron/store.go:123-262 | Over every log without client-sent lists each list is exactly the set of children, each once |
| `Text.AtoiIff` | dkron/dkron/utils.go:73-97 | A tag is a number if and only if it is digits with an optional sign whose value fits 64 bits |
| `Types.ValidIff` | dkron/dkron/job.go:479-534 | A job validates if and only if its name is a non-empty slug other than its parent's, its schedule parses unless it is an empty one of a child, and its policy, timezone and executor settings are acceptable |
| `Types.DayIff` | dkron/dkron/store.go:933-945 | A time counts for the d-th UTC day if and only if it lies between its two midnights |
| `Keys.ShortKeyInjective` | dkron/dkron/execution.go:89-91 | The key determines the node and the start time up to the width of UnixNano, and nothing else |
| `Keys.FullKeyInjective` | dkron/dkron/store.go:676-681 | For colon-free job names the stored key determines job, node and start time |
| `Keys.CollideIff` | dkron/dkron/store.go:676-681 | Executions of two jobs can share a stored key if and only if the names are equal or one goes on behind the other with a colon, a wrapped start time, a dash and any text |
| `Keys.ListedIffOfJob` | dkron/dkron/store.go:574-595 | For colon-free names the prefix finds a key exactly when it is of this job |
| `Keys.SweptIffExtends` | dkron/dkron/store.go:805-824 | The delete prefix takes exactly the keys of jobs whose names extend the given one, other jobs included |
| `Keys.SweepSparesIff` | dkron/dkron/store.go:805-824 | The sweep leaves every other job's executions alone if and only if no stored execution is of a job whose name properly extends the given one |
| `History.DeleteSparesIff` | dkron/dkron/store.go:468-506 | The same condition, exactly, for DeleteJob and DeleteExecutions of a stored job |
| `History.RunFinishMonotone` | dkron/dkron/store.go:682-699 | While a key stays stored its finish time never decreases, so no late start message makes a finished execution run again |
| `History.RunKeysMatch` | dkron/dkron/store.go:676-706 | Stored keys always match their values |
| `History.RunListsByJob` | dkron/dkron/store.go:574-595 | In every state a log reaches, listing a job by prefix yields exactly its executions |
| `History.PruneKeepsYoungest` | dkron/dkron/store.go:738-762 | Pruning keeps at most the limit, nothing goes at or below it, other keys stay, and nothing evicted started later than a survivor |
| `History.SetExecutionRetention` | dkron/dkron/store.go:709-765 | The same for a whole SetExecution; jobs, statistics and (for colon-free names) every other job's executions are unchanged |
| `History.CompletionsDoNotPrune` | dkron/dkron/store.go:266-360 | A completion under a new key grows the listing by one, past the limit too |
| `History.RunNextMonotone` | dkron/dkron/store.go:173-183 | While a job stays stored with one schedule its next run never moves back, whatever next runs requests carry and whatever the clocks read |
| `Replicas.ReplicasAgree` | dkron/dkron/store.go:173-183 | Replicas that apply the same log from like states under different clocks agree on all executions and statistics and on every job field but Next |
| `Replicas.RepliesAgree` | dkron/dkron/fsm.go:55-151 | They also agree on the reply to each command, up to Next |
| `Completions.DoneTwice` | dkron/dkron/store.go:284-311 | A completion applied twice in a row has the effect of one application |
| `Completions.RepetitionCountsAgainIff` | dkron/dkron/store.go:284-311 | A repetition, after any completions of whatever jobs and keys, counts again if and only if the completion was not stale, what is now stored under its key has its finish time, and that has the other outcome or the last one of the job and outcome that counted has another finish time |
| `Completions.RepetitionAfterBatchIff` | dkron/dkron/store.go:297-311 | After a batch this can be told from the batch and the database before it |
| `Completions.BatchClosedForm` | dkron/dkron/store.go:266-360 | Completions of one job with distinct keys: which executions, counters and daily statistics result, without reference to the order |
| `Completions.BatchStatus` | dkron/dkron/store.go:870-913 | After a batch of one group the job shows the status of the whole group |
| `Completions.StatusTells` | dkron/dkron/store.go:870-913 | A counted completion stores success if and only if no listed execution of its group failed, failure if and only if some failed and none succeeded, and partial failure if and only if both occur |
| `Completions.BatchStatusTells` | dkron/dkron/store.go:870-913 | So does any batch of one group of which some member counts |
| `Completions.OrderDoesNotMatter` | dkron/dkron/store.go:266-360 | Any permutation of a batch gives the same executions, counters, status and statistics |
| `Completions.PermutedIff` | dkron/dkron/store.go:323-334 | A permutation of a batch gives entirely the same database if and only if the same finish time comes last among the successes, and among the failures |
| `Completions.PairCommutesIff` | dkron/dkron/store.go:323-334 | For two completions: if and only if their outcomes differ or they finished together |
| `Completions.LastTimes` | dkron/dkron/store.go:323-334 | After any batch the last times are those of the member of each outcome that came last, or as before without one |
| `Ledger.StepFollows` | dkron/dkron/store.go:266-360 | How each command moves counters and statistics, for every command and reply |
| `Ledger.RunKeepsBooks` | dkron/dkron/store.go:771-802 | For every log: each counter is the completions counted since creation or reset plus what clients carried in (int32), each day's statistic is the completions counted for it, and all days together are the live counts plus those dropped by deletes and resets |
| `Ledger.NothingCarried` | dkron/dkron/store.go:159-164 | SetJob commands with counters no larger than the stored ones carry nothing in |
| `Ledger.CountersAreCompletions` | dkron/dkron/store.go:933-975 | On such logs each counter is exactly its counted completions |
| `JobTree.FindParentJobInChildJobs` | dkron/dkron/job.go:582-598 | Finds the first node with the parent's name, depth first, and appends the child to exactly its list |
| `JobTree.FindParentJob` | dkron/dkron/job.go:562-579 | The search over the list passes over every job with the child's own name |
| `JobTree.FindParentJobAndValidateJob` | dkron/dkron/job.go:553-580 | One round in place has the effect of one round on values; the object graph stays the forest |
| `JobTree.GenerateJobTree` | dkron/dkron/job.go:536-550 | The objects end up linked as the forest on values or the list is refused just as there; the index stays inside the shrinking slice |
| `JobTree.ProcessAll` | dkron/dkron/job.go:538-548 | The loop ends with exactly the forest, or the refusal, that the rounds on values lead to |
| `Forest.SucceedsIff` | dkron/dkron/job.go:536-598 | For distinct names a forest results if and only if every job validates and every chain of parents reaches a root: unknown parents and cycles are refused |
| `Forest.ForestShape` | dkron/dkron/job.go:536-598 | The forest holds each job once and nothing else, every edge is a parent link, and the roots are exactly the parentless jobs |
| `Restore.RecursiveSetJob` | dkron/dkron/agent.go:985-1001 | On the linked objects: the calls made, their order, the report and the leader afterwards, for every outcome of every call; a failed call skips the jobs below |
| `Restore.Restore` | dkron/dkron/api.go:372-406 | The objects of a file are linked in place and replayed; a list that makes no forest changes nothing, otherwise the forest on values is replayed |
| `Restore.ReplayParentsFirst` | dkron/dkron/agent.go:985-1001 | Each call is for a job whose parent was set by an earlier successful call, or a root |
| `Restore.ReplayCounts` | dkron/dkron/agent.go:985-1001 | If no call fails each node of the forest is set exactly once |
| `Restore.CalledIff` | dkron/dkron/agent.go:985-1001 | Whatever calls fail, a job is called exactly once if it has no parent or its parent's call went well, and otherwise never: exactly those whose ancestors' calls all went well |
| `Restore.GoesWellIff` | dkron/dkron/agent.go:985-1001 | A call for a valid job goes well if and only if Raft takes the command, the client gets the answer and the parent is stored |
| `Restore.RestoreTheorem` | dkron/dkron/agent.go:985-1001 | Any backup that builds a forest replays parents first with no call refused for a missing parent, whatever calls get lost; links and scheduler are in order afterwards, and without failures each job is set exactly once |
| `Backup.RestoresExactIff` | dkron/dkron/store.go:165-167 | Replayed without a failure into any leader with exact lists, whatever jobs it stores, a backup leaves exact lists if and only if no call takes over a list; and that is if and only if each job that brings a list is stored with some child that is not set before it |
| `Backup.NewRestoresExactIff` | dkron/dkron/store.go:165-167 | Where none of its jobs is stored: if and only if none of them brings a list |
| `Backup.RestoreDoublesChildren` | dkron/dkron/store.go:165-167 | An instance: restoring a parent that carries its list, and its child, into an empty store lists the child twice |
| `Scheduling.Scheduler.GetEntryJob` | dkron/dkron/scheduler.go:127-142 | Finds an entry exactly when the index has the name |
| `Scheduling.Scheduler.RemoveJob` | dkron/dkron/scheduler.go:182-192 | Takes away exactly the entry of that name |
| `Scheduling.Scheduler.ClearCron` | dkron/dkron/scheduler.go:106-115 | Empties the table while walking a snapshot of it |
| `Scheduling.Scheduler.AddJob` | dkron/dkron/scheduler.go:145-179 | The old entry of the name always goes; a disabled job or one with a parent gets none and this is no error; any other gets a new one if and only if its spec parses |
| `Scheduling.Scheduler.SpecWithZone` | dkron/dkron/scheduler.go:162-168 | The job's timezone is put in front of the hashed schedule exactly when it has one and the schedule is no descriptor and has none; the fields stay those of the hashed schedule |
| `Scheduling.Scheduler.Start` | dkron/dkron/scheduler.go:51-72 | A started scheduler is left alone; otherwise the table holds the jobs up to the first failure, and it is started only without one |
| `Scheduling.Scheduler.Stop` | dkron/dkron/scheduler.go:76-92 | Stops and keeps the entries |
| `LeaderNode.Node.SetJob` | dkron/dkron/grpc.go:85-103 | Store and scheduler after the handler, and when it reports success: only two store errors stop it |
| `LeaderNode.Node.DeleteJob` | dkron/dkron/grpc.go:107-133 | The scheduler entry goes exactly when the store deleted the job |
| `LeaderNode.Node.RefreshNext` | dkron/dkron/run.go:18-34 | Run stores the next time of a parentless job that has a cron entry, unless a later one is stored, and fails without an entry |
| `LeaderNode.Node.ExecutionDone` | dkron/dkron/grpc.go:181-302 | Records the completion, then decides on the stored job: a failure with attempts left is retried; otherwise the dependents of a successful job run, if all are stored, and an ephemeral one is to be deleted; it is gone from store and scheduler if and only if it lists no dependents and the delete is committed |
| `LeaderNode.Node.FollowUp` | dkron/dkron/grpc.go:232-294 | A failure is retried exactly while attempts are left, as the same execution with the next number; otherwise exactly the listed dependents run after a success, up to the first one missing, and none else; the job goes if and only if it succeeded, is ephemeral and none was missing |
| `LeaderNode.Node.FindDependents` | dkron/dkron/grpc.go:276-285 | Dependents are run up to the first one that is not stored |
| `LeaderNode.Node.EstablishLeadership` | dkron/dkron/leader.go:224-244 | Orphans, all of them stored and running, are marked first, none is left when every command applies, then the jobs read before go to the scheduler; it reports success exactly when it started the scheduler |
| `LeaderNode.Node.ReconcileRunningExecutionOrphans` | dkron/dkron/leader.go:246-265 | Each mark ends, as failed, a stored running execution that no node runs and that is older than the threshold; when every command applies and names have no colon, none of the jobs is left with such an execution |
| `LeaderNode.Node.RevokeLeadership` | dkron/dkron/leader.go:269-276 | Stops the scheduler and nothing else |
| `Leader.EstablishedInSync` | dkron/dkron/scheduler.go:51-72 | On stored jobs Start never fails and fills the table with exactly those that are not disabled and have no parent |
| `Leader.EstablishStarts` | dkron/dkron/leader.go:224-244 | Establishing marks the orphans and leaves the scheduler started, with exactly the entries of the stored jobs if it was not started before and with its entries as they were otherwise |
| `Leader.SetJobInSync` | dkron/dkron/grpc.go:85-103 | SetJob of a valid job keeps the scheduler an index of the store, refused and uncommitted requests included |
| `Leader.StepInSync` | dkron/dkron/grpc.go:85-133 | So does every leader operation |
| `Leader.RunStaysInSync` | dkron/dkron/scheduler.go:51-192 | Over every run a started scheduler has an entry of a name if and only if a job of that name is stored, not disabled and without a parent, and the entry has that job's spec |
| `Leader.InvalidJobScheduled` | dkron/dkron/agent.go:869-877 | Without validation the claim fails: a job that the store refuses for its concurrency policy is scheduled |
| `Leader.InvalidSetJobInSyncIff` | dkron/dkron/agent.go:869-877 | For a refused job the scheduler stays in step if and only if the refusal is the same-parent one or the entry it leaves is the one it found |
| `Runnable.CleanupStaleRunningExecutions` | dkron/dkron/agent.go:915-957 | Marks stale executions, each at most once, through completions; what is left over is young, or its command failed |
| `Runnable.IsRunnable` | dkron/dkron/job.go:404-476 | Exactly when a job may run, and that only a forbid-concurrency job without active executions gets its stale ones marked |
| `Runnable.CleanupEffect` | dkron/dkron/agent.go:915-957 | Clean-up rewrites exactly the executions it marked, and the error count rises by their number |
| `Runnable.CleanupMarksExactlyTheStale` | dkron/dkron/agent.go:915-957 | When every command applies, exactly the inactive executions older than the threshold are marked |
| `Runnable.NothingRunsIff` | dkron/dkron/job.go:404-476 | A go-ahead for a stored forbid-concurrency job leaves it without stored running executions if and only if none of them shares its key with an active one of another job |
| `Runnable.AnotherJobHides` | dkron/dkron/job.go:404-476 | Such a collision: an active execution of another job with the same start time and node gives the job its go-ahead while its own execution still runs |
| `Runnable.OneMoreSettled` | dkron/dkron/leader.go:246-265 | A clean-up of one more job leaves it without stale executions and spoils nothing for the jobs before it |
| `Cascade.RetryChain` | dkron/dkron/grpc.go:232-259 | A chain has at most Retries + 1 attempts, numbered consecutively on one node, and stops at the first success |
| `Cascade.DecisionLaunches` | dkron/dkron/grpc.go:232-286 | Whatever the handler decides and Job.Run lets go on, on however many nodes and however often dispatched, is a launch in the sense of the cascade |
| `Cascade.FailureStopsDependents` | dkron/dkron/grpc.go:275-286 | After a counted completion a failure anywhere in its group keeps all dependents from running |
| `Cascade.CompletionKeepsSettings` | dkron/dkron/store.go:266-360 | A completion changes nothing that a cascade depends on: retries, lists, and when a job may start |
| `Cascade.CascadeTerminates` | dkron/dkron/grpc.go:232-286 | When at each time the dependencies on jobs that can start then are ranked, every interleaving of completions, repeated dispatches, retries and dependent runs ends, within a bound computed from the start and expiry times ahead, ranks and remaining attempts |
| `Cascade.EndsIffAcyclic` | dkron/dkron/job.go:272-296 | Cascades from every start are bounded if and only if at no time some jobs that can all start then form a cycle of dependents |
| `Cascade.RankOrCycle` | dkron/dkron/grpc.go:275-286 | At each time the jobs can be ranked or some that can start form a cycle, found by ranking job after job whose dependents all are |
| `Cascade.CycleNeverEnds` | dkron/dkron/grpc.go:275-286 | On a cycle of dependents that can start a cascade can go on for any number of steps |
| `Cascade.StoreAcceptsCycle` | dkron/dkron/store.go:123-207 | Three accepted requests from the empty store leave two jobs that list each other; their cascades are bounded if and only if one of them is disabled or reaches no node, or the start of one is past the expiry of one |
| `Cascade.RetryNotFound` | dkron/dkron/grpc_agent.go:70-76 | The start record of a retry keeps the finish of the failed attempt: it is no running execution, and the listing of running ones never has it |
| `Leadership.StepKeepsInductive` | dkron/dkron/leader.go:26-65 | Each step of the monitor, of a loop, of Raft or of a shutdown keeps the invariant |
| `Leadership.RunIsSafe` | dkron/dkron/leader.go:96-181 | In every interleaving at most one leader loop is alive, the scheduler is started only while an established loop is alive, and no Establish finds the scheduler started |
| `Leadership.OutcomeDecides` | dkron/dkron/leader.go:96-181 | Where each outcome of a barrier, an Establish, a revocation and a transfer of leadership takes the loop |
| `Leadership.ThenWaits` | dkron/dkron/leader.go:131-181 | Where a reconciliation, the look at the channel, the timer and a stop take it |
| `Leadership.ReturnedForGood` | dkron/dkron/leader.go:26-65 | Once the monitor has returned no loop begins any more |
| `Leadership.StoppedLoopProgresses` | dkron/dkron/leader.go:155-181 | A loop whose channel is closed, or in a shutdown, comes nearer to its end with each step but the timer's |
| `Leadership.StoppedLoopCanMove` | dkron/dkron/leader.go:155-181 | Such a loop always has a step to take, so the monitor never waits for a stuck loop |
| `Leadership.EstablishStarts` | dkron/dkron/leader.go:224-244 | A good Establish starts the scheduler under its loop, and Agent.Stop stops it |
| `Leadership.StartedChanges` | dkron/dkron/scheduler.go:51-92 | Nothing but a good Establish makes a loop lead, and while it leads only Agent.Stop stops the scheduler |
| `Leadership.LeadsUnstarted` | dkron/dkron/leader.go:224-244 | In every run a loop that leads while the scheduler is not started had it stopped by Agent.Stop since its Establish |
| `Leadership.StartedIffLed` | dkron/dkron/leader.go:224-276 | In a run without Agent.Stop the scheduler is started exactly while some loop leads |
| `Leadership.ElectionStarts` | dkron/dkron/leader.go:26-65 | From every state with a free monitor and no channel an election, a good barrier and a good Establish lead to a started scheduler under a live loop |
| `Leadership.DeposedEnds` | dkron/dkron/leader.go:26-65 | After a deposition at most eight steps of the loop and one of the monitor lead to no loop, no channel, a stopped scheduler and a monitor that can be elected anew |
| `Leadership.ShutdownEnds` | dkron/dkron/leader.go:26-65 | After a shutdown at most eight steps of the loop and one of the monitor lead to the end of both and a stopped scheduler |
| `Leadership.LoopsStay` | dkron/dkron/leader.go:96-181 | In every interleaving a loop goes only by returning after its channel was closed or a shutdown began, or by handing leadership over |
| `Reconcile.Peers.AddRaftPeer` | dkron/dkron/leader.go:279-342 | A no-op for a second bootstrap node and for itself in a small cluster; otherwise the member takes the place of whatever has its id or address; ids and addresses stay one-to-one even when a call fails |
| `Reconcile.Peers.ClearAddress` | dkron/dkron/leader.go:313-329 | Removes exactly the server that has the address under another id, and returns early on an exact match without any change |
| `Reconcile.Peers.RemoveRaftPeer` | dkron/dkron/leader.go:346-380 | Removes exactly the departed server, never one that is itself by case folding |
| `Reconcile.Peers.ReconcileMember` | dkron/dkron/leader.go:198-218 | Only servers of the region are handled, only alive and left ones; a member with nothing to change causes no Raft call |
| `Reconcile.Peers.Reconcile` | dkron/dkron/leader.go:185-195 | One pass has the stated effect or reports an error; even then it loses only displaced or departed servers; after a pass without errors the next one asks Raft for nothing |
| `Reconcile.PassIs` | dkron/dkron/leader.go:185-195 | A server is configured after a pass if and only if a member wants it, or it was there and nobody displaced it and it did not depart |
| `Reconcile.PassSettles` | dkron/dkron/leader.go:185-218 | Each eligible alive server of the region is at its current address, each departed one is gone, the configuration is one-to-one, and a second pass changes nothing |
| `Reconcile.PassSettlesMembers` | dkron/dkron/leader.go:185-218 | The same in terms of members: alive servers of the region are configured at their addresses unless they have a rival for bootstrapping, departed ones are not unless they fold to this node, and a server comes or goes only on account of such a member |
| `Members.ServerIff` | dkron/dkron/utils.go:59-104 | Which members are servers, with what region and address, and which of them are bootstrap nodes, by their tags |
| `Reconcile.PassOrder` | dkron/dkron/leader.go:185-195 | The order of the member list does not matter |
| `Reconcile.StaysIff` | dkron/dkron/leader.go:204-212 | The server of a member that is not eligible stays if and only if it did not depart and nobody took its address: a failed or reaped one stays, and a departed one that equals this node by case folding |
| `Reconcile.SelfCorrectedIff` | dkron/dkron/leader.go:302-307 | After a pass this node is configured where it is if and only if it was before, or the configuration had at least three servers at its turn: a smaller one keeps a stale address |
| `Reconcile.AfterMemberOneToOne` | dkron/dkron/leader.go:279-380 | One member's change keeps ids and addresses one-to-one |
| `AgentRun.Client.AgentRunAttempt` | dkron/dkron/grpc_client.go:532-610 | The calls of one attempt in their order, its error, what it writes to the caller's execution, and that no key it registered stays active while all others do |
| `AgentRun.Client.Backoff` | dkron/dkron/grpc_client.go:441-457 | The loop computes the pause with the width of a duration |
| `AgentRun.Client.AgentRun` | dkron/dkron/grpc_client.go:432-503 | The whole run's calls, error, execution and active keys, for every sequence of outcomes |
| `AgentRun.PauseDoublesIff` | dkron/dkron/grpc_client.go:441-457 | Every pause before retry k is min(initial * 2^(k-1), max) if and only if no doubling of 2^62 or more is reached: no such multiple of the initial interval, unless it is past the maximum and not the initial interval itself |
| `AgentRun.PauseDoubles` | dkron/dkron/grpc_client.go:441-457 | In particular while both bounds are below 2^62 |
| `AgentRun.PauseWraps` | dkron/dkron/grpc_client.go:441-457 | Where such a doubling is reached it wraps, and the pause after it is negative |
| `AgentRun.RunIsBounded` | dkron/dkron/grpc_client.go:439-503 | At most maxRetries + 1 dispatches and at most maxRetries pauses, the i-th the pause before retry i, and doubled up to the maximum where no doubling wraps |
| `AgentRun.RetriesIff` | dkron/dkron/grpc_client.go:439-530 | A run tries again exactly while an attempt fails with one of the five transient codes, or without a code one of the five texts, and retries are left; it returns what its last attempt returns |
| `AgentRun.FailsIff` | dkron/dkron/grpc_client.go:532-610 | Which failure an attempt returns, if any: of the connection, of the stream, of SetExecution, or of ExecutionDone unless the server does not lead |
| `AgentRun.AttemptCalls` | dkron/dkron/grpc_client.go:532-610 | Which calls an attempt makes with which executions: a dispatch once connected, the first message recorded, and at the end the last message or its failure reported unless recording failed; and which keys it registers |
| `AgentRun.RunKeepsProtocol` | dkron/dkron/grpc_client.go:532-610 | SetExecution comes at most once per attempt, right after its dispatch and before its done; nothing follows a successful ExecutionDone; no error is returned if and only if the last call is one, or the number of retries is negative |
| `AgentRun.BrokenStreamMarksRetry` | dkron/dkron/grpc_client.go:570-581 | Each dispatch of a run carries the caller's execution as given, finished or not, if and only if no earlier attempt broke before its first message; otherwise it carries one that failed when one of them broke |
| `Nodes.CleanTags` | dkron/dkron/tags.go:13-40 | The bare tags and the least cardinality that any tag asks for, in whatever order the map is walked |
| `Nodes.LeastUnique` | dkron/dkron/tags.go:13-40 | The least cardinality is determined by the tags alone |
| `Nodes.BareAndLimit` | dkron/dkron/tags.go:19-36 | A tag written as value:n asks for n and matches the bare value |
| `Nodes.FilterArray` | dkron/dkron/agent.go:831-839 | The shortened slice holds exactly the passing elements, each as often as before, in the order that filling the gaps from the end gives |
| `Nodes.SelectNodes` | dkron/dkron/agent.go:811-828 | Exactly min(max(cardinality, 0), n) nodes, those the selector picked, none twice; the swaps only permute |
| `Nodes.PickNode` | dkron/dkron/agent.go:818-825 | One round moves the picked node behind those still to choose from |
| `Nodes.PickedWithin` | dkron/dkron/agent.go:811-828 | The picks are as many as the rounds and a sub-multiset of the nodes |
| `Nodes.GetTargetNodes` | dkron/dkron/agent.go:787-803 | Exactly min(max(cardinality, 0), qualifying) nodes, each alive, in the region and with the tags: all such members, or those that the selector picks of them as the filter leaves them |
| `Nodes.ChooseNodes` | dkron/dkron/run.go:36-63 | A first attempt goes to the selected nodes; a retry goes to the node of the attempt before if it is alive, whatever its tags are now, and fails if it is gone |
| `ScheduleHash.ScheduleHash` | dkron/dkron/job.go:344-385 | The rewriting loop computes the part-by-part form, in which a timezone part counts for no field |
| `ScheduleHash.SumOfCodes` | dkron/dkron/job.go:334-340 | The loop computes the hash of the name |
| `ScheduleHash.HashAdds` | dkron/dkron/job.go:334-340 | The hash adds up over the name, and that of one character is its code |
| `ScheduleHash.FieldHash` | dkron/dkron/job.go:362-376 | The value for a field lies in the range of that field |
| `ScheduleHash.FieldGoesRound` | dkron/dkron/job.go:362-376 | As the hash counts up the value goes round the range of its field from its least value on |
| `ScheduleHash.FieldIndexCounts` | dkron/dkron/job.go:352-376 | The field of a part is the number of parts before it that are no timezones |
| `ScheduleHash.PartsKept` | dkron/dkron/job.go:344-385 | The number of parts never changes, and a spec with a descriptor part is left alone |
| `ScheduleHash.FieldsHashed` | dkron/dkron/job.go:344-385 | Every ~ outside timezone parts becomes the value of that field for the name's hash, all other text stays |
| `ScheduleHash.TimezoneInFront` | dkron/dkron/job.go:358-361 | The values are the same whether or not a timezone comes first |
| `ScheduleHash.Idempotent` | dkron/dkron/job.go:344-385 | Hashing a hashed spec changes nothing |

## Left out

- Raft consensus, Serf gossip, BuntDB, robfig/cron and gRPC: they appear as an ordered log with atomic
  rollback, a member list, maps, an entry table and outcomes of calls.
- Raft configurations have voters only, and reading the configuration never fails.
- JSON and protobuf encoding, snapshots, indexes, tracing, metrics, logging, the HTTP API and the web UI:
  no logic of their own.
- Executor, processor and notification plugins: an execution outcome is an input. A failing
  notification, which ends the completion handler early, is not modelled.
- The list filters and sort orders of GetJobs and GetExecutions, GetExecutionGroup and the grouped listing:
  display only.
- Requests to the leader take effect one at a time. The sweep of stale executions knows all three answers
  of Raft (applied, applied with an error, not applied); the other handlers know two.
- Each run that a completion sets off is an operation of its own; the sleep before a retry and its
  floating-point length are left out.
- In a cascade the settings of the jobs stay as they are, and the check of a job that forbids concurrency is
  an outcome: it passes when no server reports an execution of the job, as after a lost reply.
- The active streams of other runs: a run's effect on the set of active keys is stated as if no other run
  changed the set meanwhile.
- Attempt and retry counts, statistics and log positions have no upper bound; the wrap of a retry counter
  at the largest int is not modelled.
- Cron entry ids, and which of two identical listings a map walk gives first.
- Scheduler.Restart, the pause of new jobs, job toggling, forwarding to the leader, bootstrap and discovery:
  they would add easy members.
- The fields of a job that nothing branches on (display name, owner, metadata, processors and the like)
  are one field.
