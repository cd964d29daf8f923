# A verified model of Mill

Mill is a small container orchestrator: a replicated state machine holds the configuration, the
nodes and the allocations of a cluster, a primary places allocations and keeps services running,
and a secondary on each node runs the containers. This project models its core in Dafny and proves
what it keeps on every run. `dafny verify dfyconfig.toml` checks the whole project.

| module | models |
|---|---|
| `Types`, `Fsm`, `FsmLaws` | the state, the commands and `apply_command`, and what a run of commands leaves |
| `LogStore`, `SnapshotDisk`, `SnapshotWriters`, `StateStore` | the log, the snapshot files under crashes and with several writers, the state machine store |
| `Replication`, `Rebuilding`, `ReplicaRuns` | runs of a cluster of replicas, rebuilding from slot and log, runs that go wrong |
| `Scheduler`, `Capacity`, `Overcommit`, `Placements` | placement, resource accounting, runs of placements, how a node is overcommitted after all, and where starts are placed |
| `Cluster`, `Deploy`, `Volumes`, `VolumeSafety`, `Rolling` | operations of the primary among others' commands: starting an allocation, preparing its volumes and where it then runs, rolling updates |
| `Validation`, `RunDeploy`, `DeploySafety`, `DeployScope`, `DeployRuns` | the checks before a deploy, whole deploys, what they promise and what they are about, and a run of one |
| `Drain`, `Detachments`, `DrainVolumes`, `DrainSafety`, `DrainRuns`, `Promotions` | draining and removing a node, detaching its volumes, runs of it, and whether what is promoted runs |
| `Watchdog`, `Heartbeats`, `Restarts` | the watchdog's tick, runs of ticks and heartbeats, restart backoff |
| `Report`, `Ports`, `Runner`, `Secondary`, `Containers`, `Recovery` | a node's reports, its port pool, the interleaved container life cycle, a container from start to end, and crash recovery |
| `Calendar`, `Text`, `EnvParse`, `Utf8`, `Sse`, `SseMessages`, `Frames`, `Routes`, `Join` | date arithmetic, environment interpolation, lossy decoding, event streams, framing, routing, joining |

How the model is built:

- What the source changes in place is a class; its methods are proved against functions on values,
  and the lemmas are about those functions and about runs of steps. A run is a sequence of states
  and steps; lemmas about runs hold for every interleaving of the steps.
- One lock region, read or proposal is one step. Between two steps of an operation of the primary, others
  may commit any commands; the record of such an operation (`Cluster.Ctx`) holds every event in order,
  and every read in it saw the state as it was (`Cluster.IsRun`). What an operation promises is said
  about these events, and from them about the states.
- Iteration over a hash map picks the next key arbitrarily, so every result proved holds for every order.
- The outcome of a call into the runtime, the network, consensus, a codec or the clock is a
  parameter. Codecs are functions with `decode(encode(x)) == x`. Fresh ids are parameters too.
- CPU shares are reals, so rounding is not modelled. Memory is a number below 2^64 whose sum wraps
  and whose difference saturates, as in the source. Times are natural numbers.

Some properties one would expect do not hold of the code as it is. The project keeps the code's
behaviour, shows where it fails and proves the exact condition under which the property does hold:

- A crash between the two renames of a snapshot leaves newer data with older metadata, contrary to the
  comment in crates/raft/src/snapshot/disk.rs:8-10, and two writers at once can leave older data with newer
  metadata without any crash. A restart is sound exactly if the states at the two positions are equal
  (`SnapshotDisk.OneCrash`, `SnapshotWriters.WritersCross`, `ReplicaRuns.FilesCanDisagree`,
  `Replication.TornPairDiverges`, `Replication.RestartIsReplayIff`).
- Two writers share the temporary files, so that one can publish what the other has not yet synced. A renamed
  file survives a crash exactly if its temporary file was synced between its last write and the last rename
  (`SnapshotWriters.UnsyncedIsRenamed`, `SnapshotWriters.RenamedSurvivesIff`).
- A slow snapshot builder can put an older snapshot over a newer one, so that a log cut meanwhile no longer
  reaches back to the slot (`ReplicaRuns.SlotCanRegress`, `Rebuilding.RunReachesBackIff`).
- Releasing a port is not keyed by its owner, nor an exit by its start: a late exit waiter, or a stop
  during an exit, can free the port of another live allocation, or of the same id started again
  (`Runner.LateWaiterTakesPort`, `Runner.LateStopTakesPort`, `Runner.ReusedIdLosesPort`, the
  `...KeepsOwnedIff` lemmas and `Runner.OtherWaiterKeepsUpIff`).
- A node can be overcommitted by two placements that read the same state, and by a heartbeat or a report
  that revives what had ended (`Overcommit.SameReadOvercommits`, `Overcommit.HeartbeatOvercommits`, with
  `Overcommit.SameReadKeepsSoundIff`, `Overcommit.HeartbeatKeepsSoundIff`,
  `Capacity.ScheduledKeepsSoundIff`, `Capacity.RevivalKeepsSoundIff`).
- A drain that is committed between a tick's read and its proposal is lost
  (`Heartbeats.DrainCanBeLost`, `Heartbeats.DrainingLastsIff`, `Heartbeats.DrainingEndsByOlderRead`).
- A drain ignores that a promotion was rejected; the replacement becomes healthy exactly if it is still recorded
  (`DrainRuns.LostIsPromoted`, `DrainSafety.ReplacementIsHealthyIff`).
- The wait for a replacement takes a stopped one for a running one, and the old allocation is told to stop. What is
  promoted ran ever since exactly if it was seen active and nothing committed until its promotion ended it
  (`DrainRuns.StoppedIsPromoted`, `Promotions.PromotedRanIff`, `Promotions.ReplacementTakesOverIff`).
- A deploy that cannot reach a node while stopping a removed service returns early and leaves the new
  configuration (`DeploySafety.FailedDeployStays`, `DeploySafety.StopErrorIff`, `DeploySafety.FailedDeployRestoresIff`).
- A deploy that cannot send a stop after an update goes back to the former configuration while the new replicas run
  (`DeployRuns.UnsentStopLeavesReplica`, `DeploySafety.UnsentStopRollsBack`, `DeploySafety.StopFailedIff`).
- A configuration can pass the check of capacity although nothing has room for it, since the largest CPU and the largest
  memory may be on different nodes (`Validation.PassesWithoutRoom`, `Validation.CapacityPassesIff`).
- A start that finds no port sends no report of its failure (`Secondary.StartIsSettledIff`).
- Event streams are decoded chunk by chunk, so a character that is cut is lost (`Sse.CutChangesEvents`,
  `Sse.TextArrivesIff`, `Sse.CutMayNotMatter`).
- A frame's size is checked after it was cut to 32 bits (`Frames.HugePayloadIsAccepted`, `Frames.AcceptedLengthIsRightIff`).
- Two joins that overlap get the same identity (`Join.OverlappingJoinsCollide`, `Join.LateJoinIsSafeIff`).

## Model

| member | source | states |
|---|---|---|
| `Fsm.Apply` | crates/raft/src/fsm/apply.rs:10-202 | A rejected command leaves the state exactly as it was, whichever of the fifteen commands it is; what accepted ones do is said by the laws of `FsmLaws`, without this function. |
| `Fsm.Fsm.ApplyCommand` | crates/raft/src/fsm/apply.rs:10-202 | The in-place update of the five maps has the state and the response of `Apply`. |
| `Fsm.Fsm.TakeStatuses` | crates/raft/src/fsm/apply.rs:62-70 | The heartbeat loop merges the reported statuses whatever order it visits them in; Running does not undo Healthy. |
| `Fsm.RunKeepsKeys` | crates/raft/src/fsm/apply.rs:10-202 | After every run of commands each map key is the id stored under it. |
| `Fsm.RunKeepsRegistered` | crates/raft/src/fsm/apply.rs:17-43 | If every re-registration keeps the node name of its id, every allocation of the final state names a registered node. |
| `Fsm.RegisterKeepsRegisteredIff` | crates/raft/src/fsm/apply.rs:17-43 | Exactly when one registration leaves every allocation's node registered. |
| `Fsm.NodesFrame` | crates/raft/src/fsm/apply.rs:45-82 | Only a registration adds a node or changes more of it than its status. |
| `Fsm.AllocsFrame` | crates/raft/src/fsm/apply.rs:84-123 | Only scheduling adds an allocation or changes its id, node, name, kind or resources. |
| `Fsm.FindByMill` | crates/raft/src/fsm/state.rs:120-122 | The lookup by node name finds a listed node of that name, and fails exactly if there is none. |
| `Fsm.FindByMillAnyOrder` | crates/raft/src/fsm/state.rs:120-122 | With unique names the lookup does not depend on the order of the map. |
| `Fsm.ReplayConcat` | crates/raft/src/fsm/apply.rs:8-10 | Replaying two batches one after the other is replaying their concatenation. |
| `FsmLaws.AcceptedIff` | crates/raft/src/fsm/apply.rs:10-202 | Each of the fifteen commands is accepted exactly if what it names exists and, for a removal, nothing runs on the node; a rejection gives a true reason. |
| `FsmLaws.VolumesFrame` | crates/raft/src/fsm/apply.rs:138-168 | A command that does not name a volume leaves it alone, and so does a rejected one. |
| `FsmLaws.VolumeIsLast` | crates/raft/src/fsm/apply.rs:138-168 | On every run of commands a volume is as the last accepted command that names it says: created and unattached, attached to the node named then and with the cloud id it was created with, detached, or gone. |
| `FsmLaws.SecretIsLast` | crates/raft/src/fsm/apply.rs:125-136 | On every run a secret is what was set last, or absent if it was deleted last. |
| `FsmLaws.ConfigIsLast` | crates/raft/src/fsm/apply.rs:12-15 | On every run the configuration is the one deployed last. |
| `FsmLaws.NodeIsLast` | crates/raft/src/fsm/apply.rs:17-43 | On every run a node is registered with every field of its last registration, its status aside, or is gone if it was removed since. |
| `FsmLaws.NodeStatusIsLast` | crates/raft/src/fsm/apply.rs:45-178 | On every run the status of a node that stays registered is the one it was given last. |
| `FsmLaws.AllocIsLast` | crates/raft/src/fsm/apply.rs:84-99 | On every run an allocation has the id, node, name, kind and resources it was recorded with last. |
| `FsmLaws.StageIsLast` | crates/raft/src/fsm/apply.rs:45-123 | On every run the status, address and start time of an allocation are those it was given last; a late report of a start changes nothing, nor does a heartbeat undo a promotion. |
| `LogStore.LogStore.Append` | crates/raft/src/log_store.rs:116-132 | The log after inserting the entries one after the other. |
| `LogStore.LogStore.Truncate` | crates/raft/src/log_store.rs:134-141 | Exactly the entries at or after the position are dropped. |
| `LogStore.LogStore.Purge` | crates/raft/src/log_store.rs:143-151 | Exactly the entries up to the position are dropped, and the position is remembered. |
| `LogStore.LogStore.GetLogState` | crates/raft/src/log_store.rs:73-77 | The greatest entry's position, or the purged position if the log is empty. |
| `LogStore.LogStore.TryGetLogEntries` | crates/raft/src/log_store.rs:60-67 | The entries of the range in index order, leaving out missing ones. |
| `LogStore.RangeIsContiguous` | crates/raft/src/log_store.rs:60-67 | Where no entry is missing, a read returns exactly the slice of the committed log. |
| `LogStore.AppendedHasLast` | crates/raft/src/log_store.rs:116-132 | After appending, an index holds the last of the entries appended under it. |
| `LogStore.AppendedKeeps` | crates/raft/src/log_store.rs:116-132 | Every other index is as it was. |
| `StateStore.StateMachineStore.ApplyBatch` | crates/raft/src/fsm/mod.rs:125-160 | The state is the replay of the batch's commands, the last applied position is that of its last entry, and the membership is that of its last membership entry with its position, each as before if there is none; each response is that of its entry in the state before it; one version bump per batch. |
| `StateStore.AppliedIsOutcome` | crates/raft/src/fsm/mod.rs:125-160 | The same of every image and every list of entries. |
| `StateStore.StateMachineStore.GetSnapshotBuilder` | crates/raft/src/fsm/mod.rs:162-171 | The builder gets a copy of the state and shares the snapshot slot. |
| `StateStore.SnapshotBuilder.BuildSnapshot` | crates/raft/src/fsm/mod.rs:245-275 | The snapshot of the copied state, whatever the store has applied since, is written to disk and then put into the slot; a write may be cut off anywhere without notice; a failed encoding changes nothing. |
| `StateStore.StateMachineStore.InstallSnapshot` | crates/raft/src/fsm/mod.rs:179-216 | Exactly a decodable snapshot replaces the state and the slot and is then written to disk, where the write may be cut off anywhere; any other changes nothing. |
| `StateStore.OpenStore` | crates/raft/src/lib.rs:58-86 | A store opened on a directory holds the image of the snapshot found there, or is empty if a file is missing; it fails exactly if the files cannot be decoded. |
| `StateStore.ReopenRoundTrip` | crates/raft/src/lib.rs:67-86 | A snapshot whose write is neither cut off nor overtaken is what a store opened later starts from, and it is the image it was taken of. |
| `StateStore.StateMachineStore.FromSnapshot` | crates/raft/src/fsm/mod.rs:71-91 | A store reopened from a snapshot holds the image that snapshot denotes. |
| `StateStore.ApplyEntriesConcat` | crates/raft/src/fsm/mod.rs:125-160 | Batching does not matter: two batches have the effect of their concatenation. |
| `Replication.RunIsConsistent` | crates/raft/src/fsm/mod.rs:125-275 | On every run of commit, join, replicate, truncate, apply, capture, build, install, publish, persist, purge and restart steps of any number of replicas, as long as every restart found two files that agree, each state is the replay of the committed log up to its last applied entry, and every snapshot in a slot or in flight is a matching pair of position and state; the first restart that finds files that do not agree is exactly where this ends. |
| `Replication.StepStaysConsistentIff` | crates/raft/src/fsm/mod.rs:125-275 | No step but a restart can end it: memory stays consistent without conditions, with any number of builders and writers in flight. |
| `Replication.RestartIsReplayIff` | crates/raft/src/lib.rs:67-86 | What a restart reads is a replay exactly if the states at the positions of the data file and of the metadata file are equal. |
| `Replication.SamePositionAgrees` | crates/raft/src/lib.rs:67-86 | Files written from the same position always agree. |
| `Replication.ReplicasAgree` | crates/raft/src/fsm/mod.rs:125-160 | Two replicas of such a run that have applied equally many entries hold the same state. |
| `Replication.ReplicaAccounts` | crates/raft/src/fsm/mod.rs:125-275 | On every such run each replica holds the replay of the committed commands, the last committed entry and the last committed membership up to its position, and so does every snapshot in a slot. |
| `Replication.ReopenedAccounts` | crates/raft/src/lib.rs:67-86 | A store opened on a published snapshot, once its write is complete, starts from the same. |
| `Replication.SnapshotMatches` | crates/raft/src/fsm/mod.rs:245-275 | A snapshot taken of a replay decodes to that replay. |
| `Replication.WriteIsPersist` | crates/raft/src/snapshot/disk.rs:66-74 | A completed write of one file on disk is the step that replaces it in the run. |
| `Replication.CrashKeepsFiles` | crates/raft/src/snapshot/disk.rs:66-74 | A crash changes neither of the two files. |
| `Replication.OpenedIsRestarted` | crates/raft/src/lib.rs:67-86 | Opening a store on the two files reads the pair that the restart step loads. |
| `Replication.TornPairDiverges` | crates/raft/src/snapshot/disk.rs:7-10 | Newer data with older metadata is not harmless: after replaying the suffix a concrete state has lost a node that the uninterrupted state has. |
| `Rebuilding.RunIsExact` | crates/raft/src/log_store.rs:116-151 | On every run, also after restarts from files that do not agree, each log holds exactly the committed entries from where it was cut to the applied position, and no snapshot in memory is ahead of the state. |
| `Rebuilding.ReachesBackIff` | crates/raft/src/log_store.rs:143-151 | A log reaches back to the slot exactly if it was not cut beyond the slot's position. |
| `Rebuilding.RunReachesBackIff` | crates/raft/src/fsm/mod.rs:245-275 | On every run, a log reaches back to its slot exactly unless the last snapshot put into the slot was published when the log had already been cut beyond it. |
| `Rebuilding.RebuildsState` | crates/raft/src/fsm/mod.rs:71-91 | From a slot and a log that reaches back to it, exactly the current state is rebuilt. |
| `Rebuilding.SlotRebuilds` | crates/raft/src/log_store.rs:143-151 | On every run of which the restarts found files that agree, slot and log rebuild the state unless the slot was published behind the log. |
| `ReplicaRuns.SlotCanRegress` | crates/raft/src/fsm/mod.rs:245-275 | A run of two replicas in which a follower writes and then publishes its own, slower snapshot after installing the leader's, and slot and log no longer rebuild its state. |
| `ReplicaRuns.FilesCanDisagree` | crates/raft/src/fsm/mod.rs:207-214 | A run in which the follower writes both snapshots at once and none of the writes is cut off; its data ends up older than its metadata, and a restart loads a state that is no replay. |
| `SnapshotDisk.SnapshotDir.AtomicWrite` | crates/raft/src/snapshot/disk.rs:66-74 | Write, sync and rename, cut off after any number of operations. |
| `SnapshotDisk.SnapshotDir.WriteSnapshot` | crates/raft/src/snapshot/disk.rs:11-23 | The data file's operations and then, if it can be encoded, the metadata file's, cut off anywhere; success exactly if all were done. |
| `SnapshotDisk.FilesAreComplete` | crates/raft/src/snapshot/disk.rs:11-74 | After any number of writes one after another, each cut off anywhere, each file is absent or one complete written value, and the data is never older than the metadata. |
| `SnapshotDisk.OneCrash` | crates/raft/src/snapshot/disk.rs:11-74 | If only the last write is cut off, the data is from the metadata's write or the next one, and from the same one exactly if the cut is not between the two renames. |
| `SnapshotDisk.WrittenIsRead` | crates/raft/src/snapshot/disk.rs:11-44 | A write that is not cut off is read back, whatever was there before. |
| `SnapshotWriters.DurableIff` | crates/raft/src/snapshot/disk.rs:66-74 | For every sequence of writes, syncs and renames: a file that nothing is renamed to is durable exactly if a sync of it follows its last write, or it was durable and was not written. |
| `SnapshotWriters.RenamedSurvivesIff` | crates/raft/src/snapshot/disk.rs:11-74 | On every run of any number of writers, each cut off anywhere, a renamed file survives a crash exactly if its temporary file was synced, by whichever writer, between its last write and the last rename. |
| `SnapshotWriters.RenamedIsWritten` | crates/raft/src/snapshot/disk.rs:66-74 | On every such run a renamed file holds what was written last to its temporary file before the rename. |
| `SnapshotWriters.UnrenamedStays` | crates/raft/src/snapshot/disk.rs:66-74 | On every such run a file that was not renamed is the one that was there. |
| `SnapshotWriters.WritersCross` | crates/raft/src/snapshot/disk.rs:11-23 | A run of two writers, neither cut off, that leaves the older data with the newer metadata. |
| `SnapshotWriters.UnsyncedIsRenamed` | crates/raft/src/snapshot/disk.rs:66-74 | A run in which one writer renames what the other has written to the same temporary file and not yet synced, so that a crash may change it. |
| `SnapshotWriters.RenamedAwayFails` | crates/raft/src/snapshot/disk.rs:16-72 | After that the other writer finds its temporary file gone: its next operation fails, and it gives up before its metadata. |
| `Scheduler.ScheduleChoosesBest` | crates/node/src/primary/scheduler.rs:24-90 | With an attached volume exactly its node, if ready with capacity; otherwise, among those that fit, a node with no more room than any other, where a CPU weighs as much as a GiB, one without a replica of the service if there is one; nothing exactly if no ready node fits. |
| `Scheduler.Candidates` | crates/node/src/primary/scheduler.rs:48-56 | Exactly the listed nodes that are ready and have capacity. |
| `Scheduler.Spread` | crates/node/src/primary/scheduler.rs:62-79 | Exactly the candidates that host no replica of the service. |
| `Scheduler.MinByScore` | crates/node/src/primary/scheduler.rs:81-89 | A candidate of least score. |
| `Scheduler.MinIsFullest` | crates/node/src/primary/scheduler.rs:81-104 | The choice has no more room than any other candidate, one GiB weighing as much as one CPU, and none of them is fuller in both. |
| `Scheduler.ScoreIsRoom` | crates/node/src/primary/scheduler.rs:99-104 | Comparing scores is comparing room in this sense. |
| `Capacity.UsedOn` | crates/raft/src/fsm/state.rs:89-102 | The accumulating loop, in any order of the allocations, gives the sum of what the running ones use, memory as a wrapping 64-bit number. |
| `Capacity.NodeAvailableResources` | crates/raft/src/fsm/state.rs:86-112 | Totals minus that sum, saturating for memory; nothing for an unknown node. |
| `Capacity.AvailableIsExact` | crates/raft/src/fsm/state.rs:86-112 | In a sound state the result is exact: nothing wraps or saturates. |
| `Capacity.PartialSumsFit` | crates/raft/src/fsm/state.rs:92-102 | No partial sum of the loop overflows 64 bits. |
| `Capacity.UseWrapsAround` | crates/raft/src/fsm/state.rs:92-102 | The use grows by the memory of each allocation up to 2^64, where it begins again at zero. |
| `Capacity.FullHasNone` | crates/raft/src/fsm/state.rs:103-112 | As long as it does not wrap, a node has no memory to spare exactly if it is full or more than full. |
| `Capacity.ChosenHasRoom` | crates/node/src/primary/scheduler.rs:24-97 | What the scheduler picks is a ready node whose total covers its load and the request. |
| `Capacity.RunNeverOvercommits` | crates/node/src/primary/scheduler.rs:24-97 | No overcommit: on every run of adjacent placements and other commands with the stated side conditions, no node's running allocations exceed its totals, also when an id is scheduled again. |
| `Capacity.ScheduledKeepsSoundIff` | crates/raft/src/fsm/apply.rs:84-99 | Exactly when recording an allocation, from however old a read, overcommits nothing. |
| `Capacity.RevivalKeepsSoundIff` | crates/raft/src/fsm/apply.rs:101-108 | Exactly when giving an ended allocation a live status overcommits nothing. |
| `Overcommit.HeartbeatKeepsSoundIff` | crates/raft/src/fsm/apply.rs:45-73 | Exactly when a heartbeat overcommits nothing: on every node what it keeps and what it revives fit together. |
| `Overcommit.SameReadKeepsSoundIff` | crates/node/src/primary/deploy/mod.rs:291-341 | Exactly when two placements that each found room in the same state overcommit nothing: if there was room for both. |
| `Overcommit.SameReadOvercommits` | crates/node/src/primary/deploy/mod.rs:291-341 | A run of two starts, as each of them records it: both choose the node in the same state, both placements are committed, and the node is overcommitted. |
| `Overcommit.HeartbeatOvercommits` | crates/raft/src/fsm/apply.rs:45-73 | A state in which the heartbeat of a container that had been given up overcommits its node. |
| `Calendar.YmdIsNthDay` | crates/node/src/util.rs:35-48 | For every day count the arithmetic gives the date reached by counting days off the Gregorian calendar. |
| `Calendar.NextDay` | crates/node/src/util.rs:35-48 | The next day count gives the calendar successor. |
| `Calendar.YmdHasDayNumber` | crates/node/src/util.rs:35-48 | Every day count gives a valid date whose own day count is the same. |
| `Calendar.YmdInvertsDayNumber` | crates/node/src/util.rs:35-48 | Every date from 1970 on is given by its day count. |
| `Calendar.FormattedInOrder` | crates/node/src/util.rs:18-33 | Later times are later in lexicographic order, as long as years have four digits. |
| `Calendar.FormattedReadsBack` | crates/node/src/util.rs:18-33 | The text of every instant is a timestamp of RFC 3339, its separators and digits in their places, and the date and time it shows, counted back by years, months and days, are that very instant; times before the epoch are shown as the epoch. |
| `EnvParse.ParseEnvValue` | crates/config/src/validate/parse.rs:59-110 | The loop computes the classification of the string's decomposition into literals and expressions, with its errors in order. |
| `EnvParse.SplitCovers` | crates/config/src/validate/parse.rs:59-110 | The decomposition loses nothing: its source text is the string. |
| `EnvParse.SplitInverts` | crates/config/src/validate/parse.rs:59-110 | A string has at most one well-formed decomposition, and the parser finds it. |
| `EnvParse.ParsesToReference` | crates/config/src/validate/parse.rs:113-149 | An expression parses to a reference without error exactly if it denotes that reference by the grammar. |
| `EnvParse.ParsesWithoutErrorsIff` | crates/config/src/validate/parse.rs:59-149 | Exactly the strings with a well-formed decomposition whose expressions all denote something parse without errors. |
| `EnvParse.ParseErrorsAre` | crates/config/src/validate/parse.rs:59-149 | The errors of any string: exactly one for each expression that denotes nothing, of the kind that says what is wrong with it, in their order, and last one for an opening that is not closed, whose text is kept. |
| `EnvParse.RaisesIff` | crates/config/src/validate/parse.rs:113-149 | Which error an expression raises: an empty secret name, an empty service name, or neither shape. |
| `EnvParse.ParsingPreservesMeaning` | crates/config/src/validate/parse.rs:59-149 | For every string that parses without errors and every environment, resolving the parsed value is substituting in the text. |
| `EnvParse.PrintParsesBack` | crates/config/src/validate/parse.rs:59-149 | Printing a canonical value and parsing it gives the value back, also with literals that end in `$`. |
| `EnvParse.ParsesToCanonical` | crates/config/src/validate/parse.rs:59-149 | Every value parsed without errors is canonical. |
| `EnvParse.ResolveEnvValue` | crates/node/src/primary/deploy/mod.rs:517-554 | The resolved text, or, exactly if some part does not resolve, the first such part. |
| `Text.Trim` | crates/config/src/validate/parse.rs:120-122 | The result has no white space at its ends, and a string without any there is left alone. |
| `Text.TrimRemovesWhitespace` | crates/config/src/validate/parse.rs:120-122 | Nothing but white space is trimmed. |
| `Text.WhitespaceIs` | crates/config/src/validate/parse.rs:120-122 | White space are exactly the 25 code points with the Unicode property White_Space. |
| `Sse.SseStream.ProcessBufferedLines` | crates/cli/src/client/sse.rs:59-85 | The event returned is the first of those still to come; without one, no complete line is left in the buffer and none was lost. |
| `Sse.SseStream.NextEvent` | crates/cli/src/client/sse.rs:26-55 | The next event of the stream; none exactly if none is to come and the connection holds; an error exactly if none is to come and it breaks. |
| `Sse.SseStream.ReadAll` | crates/cli/src/client/sse.rs:26-55 | Repeated reads give all events in order, and an error at the end exactly if the connection breaks. |
| `Sse.ReadEvents` | crates/cli/src/client/sse.rs:20-85 | The events are those of the fold over the complete lines of the text that the chunks, each decoded on its own, make up, with the final flush unless the connection breaks. |
| `Sse.TextArrivesIff` | crates/cli/src/client/sse.rs:36-40 | Chunk invariance: a text sent in chunks is received as it was sent exactly if no chunk ends inside a character, and then its events are those of the text; of the events only this direction holds. |
| `Sse.CutMayNotMatter` | crates/cli/src/client/sse.rs:36-40 | The other direction fails: a cut inside an ignored line changes the text and not its events. |
| `Sse.CutChangesEvents` | crates/cli/src/client/sse.rs:36-40 | A body whose only two-byte character is cut: the event holds two replacement characters instead of it. |
| `Utf8.ChunksDecodeIff` | crates/cli/src/client/sse.rs:36-40 | Well-formed input decodes chunk by chunk to what it decodes to as a whole exactly if it is cut between characters. |
| `Utf8.NeverShorter` | crates/cli/src/client/sse.rs:36-40 | For arbitrary bytes, decoding in two parts never gives a shorter text. |
| `Utf8.EncodedIsDecoded` | crates/cli/src/client/sse.rs:36-40 | The encoding of every string is well-formed and decodes to it. |
| `Utf8.WholeIsEncoded` | crates/cli/src/client/sse.rs:38-39 | And nothing else is accepted: a well-formed sequence is the encoding of the character it is decoded to. |
| `Utf8.BrokenIsMaximal` | crates/cli/src/client/sse.rs:38-39 | One replacement character stands for a maximal broken part: a byte that begins no character, or a beginning that could have been completed, but not with the byte that follows. |
| `Sse.LinesCoverText` | crates/cli/src/client/sse.rs:59-85 | The complete lines and the last partial one make up the text. |
| `SseMessages.StreamIsReceived` | crates/cli/src/client/sse.rs:59-85 | Round trip of whole streams: whatever messages are sent, each an optional name and some lines of data, exactly these events are received, with newlines between the lines of data. |
| `SseMessages.MessageIsReceived` | crates/cli/src/client/sse.rs:59-85 | The lines of one message give its event, whatever follows. |
| `SseMessages.LastIsReceivedIff` | crates/cli/src/client/sse.rs:41-51 | A message without its blank line is received exactly if the stream comes to its end. |
| `SseMessages.NoiseIsIgnored` | crates/cli/src/client/sse.rs:59-85 | Comments and unknown fields change nothing, wherever they are. |
| `SseMessages.ReturnsAreIgnored` | crates/cli/src/client/sse.rs:62-64 | Nor does a carriage return at the end of a line. |
| `SseMessages.BlanksAreIgnored` | crates/cli/src/client/sse.rs:66-77 | Nor does a second blank line. |
| `Frames.Connection.WriteFrame` | crates/node/src/rpc/codec.rs:11-28 | The stream grows by exactly the frame of the value, or not at all. |
| `Frames.Connection.ReadFrame` | crates/node/src/rpc/codec.rs:31-52 | One frame, the end of the stream, or an error, and what is left of the bytes. |
| `Frames.StreamRoundTrip` | crates/node/src/rpc/codec.rs:11-52 | Reading the concatenated frames of any list of sendable messages gives that list and then the end of the stream. |
| `Frames.TruncatedStream` | crates/node/src/rpc/codec.rs:11-52 | Any truncation gives exactly the messages whose frames are complete, then the end of the stream if fewer than four bytes are left over and an error otherwise. |
| `Frames.SentIsWireIff` | crates/node/src/rpc/codec.rs:11-28 | A payload is sent exactly if it has at most 16 MiB: four bytes of its length, the most significant first, and then itself. |
| `Frames.ReadsIff` | crates/node/src/rpc/codec.rs:31-52 | A message is read exactly if the stream begins with such a frame whose payload decodes to it; the rest is left. |
| `Frames.AcceptedLengthIsRightIff` | crates/node/src/rpc/codec.rs:11-28 | An accepted payload has the right length prefix exactly if it is shorter than four gibibytes; the size check is made after the cut to 32 bits. |
| `Frames.HugePayloadIsAccepted` | crates/node/src/rpc/codec.rs:11-28 | A payload of exactly four gibibytes is accepted and sent with the length zero. |
| `Ports.PortAllocator.AllocatePort` | crates/net/src/ports.rs:50-57 | The least available port becomes the allocation's; none exactly if none is available. |
| `Ports.PortAllocator.AllocateSpecificPort` | crates/net/src/ports.rs:60-70 | The port becomes the allocation's exactly if it is in range and has no owner. |
| `Ports.PortAllocator.RestorePorts` | crates/net/src/ports.rs:87-101 | The restored pool, whatever order the snapshot is visited in. |
| `Ports.OperationsKeepValid` | crates/net/src/ports.rs:50-101 | Every operation keeps available and owned ports disjoint and in range. |
| `Ports.PortsAreConserved` | crates/net/src/ports.rs:50-79 | Taking the least port and releasing one neither lose nor gain a port, and a release undoes an allocation. |
| `Ports.SpecificConservesIff` | crates/net/src/ports.rs:60-79 | Reserving a specific port gains the pool a port exactly if it succeeds for one that was not available. |
| `Ports.RestoreRoundTrip` | crates/net/src/ports.rs:82-101 | A snapshot restored into a fresh pool of the range gives the pool back. |
| `Ports.RestoredIff` | crates/net/src/ports.rs:30-101 | A snapshot restored into a new pool: of the ports in range that the host does not use, exactly those in the snapshot belong to their former owners, and all others are available. |
| `Runner.RunKeepsPool` | crates/net/src/ports.rs:50-101 | On every interleaving of run, stop, exit-waiter and recovery steps the pool stays valid, without further conditions. |
| `Runner.RunKeepsOwned` | crates/node/src/secondary/runner.rs:24-206 | Port ownership: on every interleaving with fresh ids where each release finds the port its own or unused and recovered ports are free, each live allocation with a port is its recorded owner, so no two share one. |
| `Runner.WaiterReleaseKeepsOwnedIff` | crates/node/src/secondary/runner.rs:180-206 | Exactly when an exit waiter's release takes no port from its owner. |
| `Runner.StopReleaseKeepsOwnedIff` | crates/node/src/secondary/runner.rs:134-157 | Exactly when a stop's release takes no port from its owner. |
| `Runner.RecoveryKeepsOwnedIff` | crates/node/src/secondary/reconcile.rs:71-112 | Exactly when a recovered allocation owns its port. |
| `Runner.LateWaiterTakesPort` | crates/node/src/secondary/runner.rs:180-206 | A reachable state in which a late exit waiter has freed the port of a live allocation. |
| `Runner.LateStopTakesPort` | crates/node/src/secondary/runner.rs:134-157 | A reachable state in which a stop during the waiter's release has done the same. |
| `Runner.OtherWaiterKeepsUpIff` | crates/node/src/secondary/runner.rs:180-206 | Exactly when the waiter of another start leaves a container its record and its port: the ids, and the ports, differ. |
| `Runner.ReusedIdLosesPort` | crates/node/src/secondary/runner.rs:180-206 | A run in which an id is started again and the late waiter of its first start ends the record and frees the port of its second, although the port is recorded as its own. |
| `Runner.RunIsLaunched` | crates/node/src/secondary/runner.rs:24-131 | Starting without interruption is the sequence of the start's steps. |
| `Containers.StartedIff` | crates/node/src/secondary/runner.rs:24-131 | A start succeeds exactly if the image is there, the runtime agrees and a port is free if one is needed; then the container is recorded as running, watched, and owns a formerly free port exactly if it exposes one; otherwise nothing is left of it. |
| `Containers.StopUndoesStart` | crates/node/src/secondary/runner.rs:24-157 | A container that is stopped leaves the record and the pool as they were before its start. |
| `Containers.ExitUndoesStart` | crates/node/src/secondary/runner.rs:24-206 | So does one that exits, and its waiter goes as well. |
| `Containers.ExitIsMarked` | crates/node/src/secondary/runner.rs:180-206 | In between it is marked stopped if its exit code is zero, and failed otherwise. |
| `Containers.RecoveredIsRecorded` | crates/node/src/secondary/reconcile.rs:45-136 | A restarted node that has gone through any list of expected allocations has recorded exactly those whose containers survived, each with its port taken and watched. |
| `Secondary.Secondary.RunContainer` | crates/node/src/secondary/runner.rs:24-131 | Pool, record, containers and reports after a start, for every outcome of the image and the runtime. |
| `Secondary.StartIsSettledIff` | crates/node/src/secondary/runner.rs:65-72 | Once the reports of a start are processed, the allocation is still starting exactly if the image was there and no port was left, runs exactly if image, port and runtime were all there, and has failed otherwise. |
| `Secondary.StartedIsReachable` | crates/node/src/primary/report.rs:213-229 | Once the reports of a successful start are processed, the allocation has the address of its node on the mesh, or else its node's own, with the port that the start has taken, and none without a port. |
| `Secondary.Secondary.StopContainer` | crates/node/src/secondary/runner.rs:134-157 | Record and port go whether or not the runtime could stop the container; the report carries its code or -1. |
| `Secondary.Secondary.ExitWaiter` | crates/node/src/secondary/runner.rs:180-206 | Status, release, removal and report of an exit; a failed wait counts as one with code -1, and a container of the id may then still run. |
| `Secondary.Secondary.Reconcile` | crates/node/src/secondary/reconcile.rs:20-137 | The containers left, the recovered record and pool, and the reports in order; a failed listing changes nothing. |
| `Secondary.Secondary.StopOrphans` | crates/node/src/secondary/reconcile.rs:33-43 | Exactly the unexpected containers that can be stopped are gone, in any order. |
| `Secondary.Secondary.RecoverContainer` | crates/node/src/secondary/reconcile.rs:45-136 | One expected allocation: recovered with its port and reported, or reported stopped if it is missing. |
| `Recovery.RecoveryAgreement` | crates/node/src/secondary/reconcile.rs:20-137 | Once the reports have been processed and applied, missing allocations are Stopped(-1), Healthy ones stay Healthy, nothing else of the state has changed; and the node's active allocations are exactly its containers if and only if every orphan could be stopped. |
| `Recovery.ReportProcessed` | crates/node/src/primary/report.rs:213-254 | The report of an end sets the status, that of a start only for an allocation that has not run yet, and only that allocation changes. |
| `Report.HeartbeatIsTaken` | crates/node/src/primary/report.rs:255-270 | A heartbeat tells the statuses of its allocations, without undoing a promotion, and that its node is up again if it was down, and changes nothing else; that of an unknown node changes nothing. |
| `Report.StatusReportIsTaken` | crates/node/src/primary/report.rs:231-254 | A failed start, an end and a change of status each set exactly the status of the allocation they name. |
| `Recovery.ReportsUpdate` | crates/node/src/secondary/reconcile.rs:45-136 | The reports sent so far bring exactly the allocations visited so far to their outcome. |
| `Watchdog.Watchdog.CheckHeartbeats` | crates/node/src/primary/watchdog.rs:130-204 | The tick's new state, tracker and discovery times, in any order of the nodes: exactly the late nodes whose proposal is accepted are down and what ran on them has failed; the backoff of their services is reset. |
| `Watchdog.Watchdog.TakeDown` | crates/node/src/primary/watchdog.rs:186-203 | One late node more, exactly if its proposal is accepted. |
| `Watchdog.Watchdog.MarkNodeAllocsFailed` | crates/node/src/primary/watchdog.rs:262-295 | Exactly the running allocations of the node whose proposals are accepted fail, in any order. |
| `Watchdog.DownStep` | crates/node/src/primary/watchdog.rs:159-204 | Taking down one more node fails exactly its own running allocations in addition, so the order of the nodes does not matter. |
| `Watchdog.Watchdog.CheckServiceRestarts` | crates/node/src/primary/watchdog.rs:298-405 | Each service's backoff state and the number of replicas started, in any order; states of services no longer configured are dropped. |
| `Watchdog.Watchdog.RestartService` | crates/node/src/primary/watchdog.rs:321-404 | One service: the other states are untouched. |
| `Heartbeats.HeartbeatKeepsUp` | crates/node/src/primary/watchdog.rs:130-189 | On every interleaving of reads and proposals of ticks, heartbeats and commands, a tick that proposes a node down began, and so proposes, no earlier than the timeout after any recorded heartbeat of it, even one noted during the tick. |
| `Heartbeats.DiscoveryKeepsUp` | crates/node/src/primary/watchdog.rs:147-172 | Nor, if none was ever recorded, within the timeout of a tick that first saw it. |
| `Heartbeats.SilentIsDownedIff` | crates/node/src/primary/watchdog.rs:130-189 | On every such run, a tick that has read a registered node proposes it down exactly if it read it as ready and began no earlier than the timeout after its last heartbeat. |
| `Heartbeats.UnheardIsDownedIff` | crates/node/src/primary/watchdog.rs:147-189 | And one never heard of exactly if it began the timeout after the tick that first saw it. |
| `Heartbeats.RemovedIsForgotten` | crates/node/src/primary/watchdog.rs:147-165 | The heartbeats of a node that a tick finds gone are forgotten, so that one registered again under its id is given the timeout anew. |
| `Heartbeats.NodeAfterTick` | crates/node/src/primary/watchdog.rs:130-204 | A tick marks down exactly the nodes it proposes, where accepted, and changes nothing else of the nodes, nor the configuration, secrets or volumes. |
| `Heartbeats.AllocAfterTick` | crates/node/src/primary/watchdog.rs:261-295 | It fails exactly what runs on the nodes it takes down, where accepted. |
| `Heartbeats.ResetIff` | crates/node/src/primary/watchdog.rs:261-295 | It resets the backoff of exactly the services with something running on a node it takes down. |
| `Heartbeats.RecoveredStaysUp` | crates/node/src/primary/report.rs:255-263 | A node that is up after a recorded heartbeat is not marked down for the timeout. |
| `Heartbeats.DrainingLastsIff` | crates/raft/src/fsm/apply.rs:45-82 | On every run, draining lasts exactly until a step registers the node anew or marks it down. |
| `Heartbeats.DrainingEndsByOlderRead` | crates/node/src/primary/watchdog.rs:130-189 | Unless it is registered anew, a draining node stops draining only by the proposal of a tick that had read it as ready before the drain. |
| `Heartbeats.DrainCanBeLost` | crates/node/src/primary/watchdog.rs:138-189 | A run in which a node is drained between a tick's read and its proposal and is ready again after a heartbeat. |
| `Heartbeats.UninterruptedTick` | crates/node/src/primary/watchdog.rs:130-189 | With nothing in between, the split tick proposes exactly what the atomic tick proposes. |
| `Heartbeats.DownedNodesAreEmpty` | crates/node/src/primary/watchdog.rs:261-295 | After a tick whose proposals are accepted, nothing runs on the nodes it took down. |
| `Restarts.BackoffIsHistory` | crates/node/src/primary/watchdog.rs:342-364 | The stored state is the history: attempts count the rounds since the service was first seen under-replicated, and the last round came no earlier than the sum of the delays before it. |
| `Restarts.RoundsAreSpaced` | crates/node/src/primary/watchdog.rs:342-364 | On every run of ticks without reset, the k-th round comes at least the sum of the first k delays after the first sighting. |
| `Restarts.DelaysInSeconds` | crates/node/src/env.rs:20-29 | The delays add up to 1, 6 and 36 seconds and then to a minute more for every round. |
| `Restarts.KeepsStateIff` | crates/node/src/primary/watchdog.rs:298-404 | Exactly for which services a tick keeps a backoff state: enough active replicas, or no longer being configured, makes it forget. |
| `Restarts.RoundIff` | crates/node/src/primary/watchdog.rs:330-364 | Exactly when a tick starts a round. |
| `Restarts.RoundIsBounded` | crates/node/src/primary/watchdog.rs:330-366 | A round starts what is missing, none starts while enough allocations are under way, and recorded as running plus started by the round never exceeds `2 * replicas - 1`. |
| `Restarts.ActiveAtMostNonTerminal` | crates/node/src/primary/watchdog.rs:323-328 | The active allocations are no more than the non-terminal ones, so the subtraction does not underflow. |
| `Restarts.BoundIsTight` | crates/node/src/primary/watchdog.rs:330-366 | The bound is reached. |
| `Restarts.StartsAreBounded` | crates/node/src/primary/watchdog.rs:330-404 | Over any number of ticks without reset, at most `replicas` starts are dispatched for every delay that has passed, whatever of them has been recorded. |
| `Restarts.SlowStartsAddUp` | crates/node/src/primary/watchdog.rs:330-404 | That bound is met, and the one for a single round exceeded, when starts are not recorded between rounds. |
| `Cluster.ScheduleOn` | crates/node/src/primary/deploy/mod.rs:291-314 | The scheduling read picks a node with a ready entry that has room and, if the volume is attached, is where it is; no other such node is preferable; nothing exactly if there is none. |
| `Cluster.Ctx.Propose` | crates/node/src/primary/deploy/mod.rs:330-341 | A proposal and its response, with anything committed by others before it. |
| `Cluster.ListServiceAllocs` | crates/raft/src/fsm/state.rs:66-68 | Exactly the allocations of the name with their nodes, each once. |
| `Cluster.ListRunning` | crates/node/src/primary/nodes.rs:63-80 | Exactly the running allocations of the node with their names and kinds, each once; nothing if it is not registered. |
| `Deploy.Choose` | crates/node/src/primary/deploy/mod.rs:291-328 | A node ready with room for the request when read, and its raft id as registered when looked up; others may act in between; otherwise the read that says why there is none. The read is a position of the record, so that the state it saw is known. |
| `Deploy.PickedIsBest` | crates/node/src/primary/deploy/mod.rs:291-314 | Whatever is picked for a service is ready and has the CPU and memory of its definition to spare; it is where its first volume is attached, or else has no replica of the service if another node with room has none, and among such nodes none has less room. |
| `Deploy.NothingFitsIff` | crates/node/src/primary/deploy/mod.rs:291-314 | Nothing is picked exactly if no ready node has the service's CPU and memory to spare where its volume lets it run. |
| `Deploy.WaitForStatus` | crates/node/src/primary/deploy/mod.rs:470-502 | The wait sees every change: it ends with the first status that is no longer under way, or with that left by all that is committed until its deadline, and in every state before it was under way. |
| `Deploy.PollForAddress` | crates/node/src/primary/deploy/mod.rs:447-467 | The wait sees every change: it ends with the first address there is, or without one after all that is committed until its deadline. |
| `Deploy.RunScheduled` | crates/node/src/primary/deploy/mod.rs:362-444 | Success means the environment resolved, the order to run was sent, the allocation was seen active or stopped and then with an address, the address answered, and the allocation was proposed healthy, in this order; a failure is that of the last of these steps. |
| `Deploy.StartAlloc` | crates/node/src/primary/deploy/mod.rs:284-357 | Success means chosen, recorded with the service's resources and all of that; a failure is that of one of the steps, and after it the allocation, if it was recorded, is proposed failed last; every proposal follows what it depends on. The scheduling read comes with its position. |
| `Placements.StartedHadRoom` | crates/node/src/primary/deploy/mod.rs:291-341 | On every run, a start that succeeds was placed on a node that was ready and had the service's CPU and memory to spare when read, the one its volume was attached to if it was. |
| `Placements.SeenIsSettled` | crates/node/src/primary/deploy/mod.rs:470-502 | When the wait of a successful start ended, the allocation was running, healthy, or had stopped already. |
| `Placements.AnsweredWasItsOwn` | crates/node/src/primary/deploy/mod.rs:410-424 | The address that answered is the one the allocation had. |
| `Placements.GivenUpIsFailed` | crates/node/src/primary/deploy/mod.rs:343-356 | A start that failed after the recording leaves the allocation failed, if it is still recorded and consensus takes the proposal. |
| `Placements.FailedForRoom` | crates/node/src/primary/deploy/mod.rs:291-328 | A start that ends with the scheduling read found no ready node with room for the service in that state. |
| `Placements.StartKeepsSound` | crates/node/src/primary/deploy/mod.rs:291-341 | If nothing is committed between the scheduling read and the recording, the start keeps the state sound: nothing is overcommitted. |
| `Placements.StartedIsRecorded` | crates/raft/src/fsm/apply.rs:84-99 | The allocation is recorded under its name, as a service, with the resources of the definition, not yet running and without an address. |
| `Rolling.StartReplicas` | crates/node/src/primary/deploy/mod.rs:234-255 | The replicas started up to the first failure, each with its launch and the node found for it, and the failed start. |
| `Rolling.StopAll` | crates/node/src/primary/deploy/mod.rs:257-267 | Each target is told to stop exactly once, in order, also after failures; success exactly if all could be told. |
| `Volumes.CreateVolumes` | crates/node/src/primary/deploy/mod.rs:557-624 | For each volume in order: nothing if it is ephemeral; otherwise its state and the node's name are read, and unless it is there already it is created or detached from where it was and attached to the node's instance, each cloud call before its proposal; a failure is that of the last of these, after all earlier volumes were done. |
| `Volumes.Prepare` | crates/node/src/primary/deploy/mod.rs:197-232 | A ready node was found and every volume was made ready for it; otherwise none was ready, or a call for a volume failed last. |
| `VolumeSafety.PreparedIsReady` | crates/node/src/primary/deploy/mod.rs:557-624 | As long as others leave the volumes and the node alone, every persistent volume of a prepared service is attached to the node that was found, or there is no driver and it does not exist. |
| `VolumeSafety.ReplicaFollowsVolumes` | crates/node/src/primary/deploy/mod.rs:197-328 | When a replica is scheduled, every persistent volume of its service is attached to the node prepared for it, and if its first volume is one, the replica is placed there. |
| `VolumeSafety.UpdateFollowsVolumes` | crates/node/src/primary/deploy/mod.rs:217-280 | So it is for every replica of a rolling update. |
| `VolumeSafety.DeployFollowsVolumes` | crates/node/src/primary/deploy/mod.rs:197-214 | And for every replica of a new service. |
| `VolumeSafety.AttachedPins` | crates/node/src/primary/scheduler.rs:33-46 | A volume attached to a node binds every request for it to that node. |
| `VolumeSafety.FreedPinsNothing` | crates/node/src/primary/scheduler.rs:33-46 | One that was created, detached or destroyed last binds nothing. |
| `Rolling.RollingUpdate` | crates/node/src/primary/deploy/mod.rs:217-280 | All or nothing, with the volumes prepared first: no stop before all replicas are up; then a stop of each old allocation, and success exactly if all could be told; or, if a start failed, a stop of exactly the new ones started and found. Failures before that are no ready node or a failed call for a volume. Nothing else is recorded, run or given a status but the new allocations of the service. |
| `Rolling.StopsFollowHealthy` | crates/node/src/primary/deploy/mod.rs:217-280 | Every stop of an update is of an allocation listed at its beginning after all new replicas answered and were proposed healthy, or of a new replica after a later one failed to start. |
| `Rolling.StoppedAgain` | crates/node/src/primary/deploy/mod.rs:247-253 | If every started replica is still there when looked up, the failed update stops exactly those, in order. |
| `RunDeploy.DiffConfig` | crates/node/src/primary/deploy/diff.rs:18-45 | Exactly the added, changed and removed services, each once. |
| `RunDeploy.Validate` | crates/node/src/primary/deploy/mod.rs:71-90 | The former configuration is read; the new one passes the checks of secrets and of capacity, or is rejected by the last of them. |
| `Validation.SecretsPassIff` | crates/node/src/primary/deploy/validate.rs:8-43 | The check of secrets passes exactly if every environment value of the configuration can be resolved as soon as all services have addresses. |
| `Validation.CapacityPassesIff` | crates/node/src/primary/deploy/validate.rs:46-76 | The check of capacity passes exactly if some node is ready and, for everything configured, some idle node has room for its CPU and some idle node for its memory. |
| `Validation.RoomIsNotRejected` | crates/node/src/primary/deploy/validate.rs:46-76 | Nothing that has room on a node, whatever runs there, is rejected. |
| `Validation.PassesWithoutRoom` | crates/node/src/primary/deploy/validate.rs:53-54 | The other direction fails: the two largest totals may be on different nodes. |
| `Validation.RejectedIsUnfit` | crates/node/src/primary/deploy/mod.rs:71-90 | A deploy is rejected only in a state in which its configuration is not fit by these two conditions. |
| `RunDeploy.StopService` | crates/node/src/primary/deploy/mod.rs:177-194 | The listed allocations are told to stop in order; success exactly if all could be told, and otherwise the last one could not. |
| `RunDeploy.StopServices` | crates/node/src/primary/deploy/mod.rs:98-101 | One record for each removed service up to the first failure; success exactly if there is none. |
| `RunDeploy.DeployService` | crates/node/src/primary/deploy/mod.rs:197-214 | Nothing is stopped, and only the new allocations of the service are recorded and run; success means the volumes were prepared and every replica was started, and otherwise the failing read, call or start comes last. |
| `RunDeploy.UpdateServices` | crates/node/src/primary/deploy/mod.rs:104-129 | One record for every listed service in order, with the evidence of its success or failure; a failure is noted exactly if some record is one, and keeps no other service from being tried. |
| `RunDeploy.RunDeploy` | crates/node/src/primary/deploy/mod.rs:62-144 | The result is tied to what happened: refused by a check; not taken by consensus; ended by a stop of a removed service that could not be sent; or all removed services stopped and one record for each added and changed service, after which the former configuration is proposed again exactly if some record is a failure and there was one. |
| `DeploySafety.DeployEvents` | crates/node/src/primary/deploy/mod.rs:62-280 | Every order to stop that a deploy gives belongs to a removed service or to the update of a changed one, and it commits no configuration but its own and, last of all, the former one. |
| `DeployScope.DeployActsOn` | crates/node/src/primary/deploy/mod.rs:62-144 | Whatever a deploy records, runs or gives a status to is a new allocation of a service that is new or defined differently from before; all other services are left alone. |
| `DeployScope.FinishedServes` | crates/node/src/primary/deploy/mod.rs:62-144 | A deploy that ends without failures has started every replica of every such service, and has told each former allocation of a changed one to stop. |
| `DeployScope.FinishedDrops` | crates/node/src/primary/deploy/mod.rs:98-101 | A deploy that comes to its end has told each allocation of every service that is no longer configured to stop. |
| `DeploySafety.StopErrorIff` | crates/node/src/primary/deploy/mod.rs:98-101 | A committed deploy ends with a stop error exactly if a stop of a listed allocation of a removed service could not be sent; then nothing was started. |
| `DeploySafety.DeployLeaves` | crates/node/src/primary/deploy/mod.rs:62-144 | If nobody else deploys meanwhile, the configuration left is the one found if the deploy was refused or the former one was restored, and the new one otherwise. |
| `DeploySafety.FailedDeployRestoresIff` | crates/node/src/primary/deploy/mod.rs:98-134 | A committed deploy leaves the configuration it found exactly if every stop of a removed service could be sent, a service failed, there was a former configuration, and consensus took the last proposal. |
| `DeploySafety.FailedDeployStays` | crates/node/src/primary/deploy/mod.rs:98-101 | A run in which the node of a removed service cannot be told: the deploy fails, and the configuration without the service stays while it runs. |
| `DeploySafety.UnsentStopRollsBack` | crates/node/src/primary/deploy/mod.rs:257-280 | An update of which only a stop could not be sent makes the deploy go back to a configuration with another definition, although all its replicas were started. |
| `DeploySafety.StopFailedIff` | crates/node/src/primary/deploy/mod.rs:257-280 | The update of a changed service fails for its stops exactly if all its replicas are up and a stop of a formerly listed allocation could not be sent. |
| `DeployRuns.UnsentStopLeavesReplica` | crates/node/src/primary/deploy/mod.rs:119-134 | A run of a whole deploy in which the new replica is promoted and the stop of the old one cannot be sent: the former configuration is committed last, while the new replica is healthy. |
| `DeploySafety.ConfigStays` | crates/node/src/primary/deploy/mod.rs:96-134 | Without a deploy of the operation or of others the configuration stays. |
| `Drain.DrainNode` | crates/node/src/primary/nodes.rs:23-133 | A completed drain: the volumes attached to the node are read and detached, then its listing, the move of each listed allocation with its evidence, and exactly the stops that belong to the moves; otherwise the proposal was not taken, or was rejected because the node is unknown. |
| `Detachments.DetachVolumes` | crates/node/src/primary/nodes.rs:40-61 | The node's name and the volumes attached there are read; then, for each of these and no other, in any order, the driver is called and the detachment proposed, whether or not that succeeds. |
| `DrainVolumes.DrainDetachesExactly` | crates/node/src/primary/nodes.rs:40-61 | On every run, between the read of the attached volumes and the read of what runs, a drain proposes to detach exactly the volumes attached to its node when read. |
| `DrainVolumes.DrainFreesVolumes` | crates/node/src/primary/nodes.rs:40-80 | If these proposals are taken and nobody attaches a volume there meanwhile, none is attached to the node when what runs is read. |
| `DrainVolumes.NothingIsPinned` | crates/node/src/primary/nodes.rs:40-128 | From then on, unless others attach one, no scheduling request is bound to the draining node. |
| `Drain.MoveAlloc` | crates/node/src/primary/nodes.rs:84-128 | A service configured when looked up is told to stop only after its replacement is up, and kept exactly after a failed start of the replacement; one that is not configured, and a task, are told to stop. |
| `Drain.RemoveNode` | crates/node/src/primary/nodes.rs:136-142 | Success exactly if consensus took the proposal and the node was registered and idle; it is then gone with every allocation that names it; otherwise nothing changed. |
| `DrainSafety.StopsFollowReplacement` | crates/node/src/primary/nodes.rs:84-128 | Drain safety: on every run that leaves the draining node alone, an allocation of a service configured when looked up is told to stop only after its replacement was chosen a different node, ready at that time, was run there, was seen running or stopped and with an address, answered, and was promoted. |
| `DrainSafety.ReplacementIsHealthyIff` | crates/node/src/primary/nodes.rs:84-128 | When the old allocation is told to stop, its replacement, unless others ended it since, is healthy on another node exactly if it was still recorded when its promotion was applied. |
| `DrainSafety.DrainedNodeIsRemoved` | crates/node/src/primary/nodes.rs:23-142 | If every listed allocation is told to stop, then once these are reported the removal succeeds and no allocation names the node, whatever polite commands others commit. |
| `DrainSafety.ChoiceIsElsewhere` | crates/node/src/primary/scheduler.rs:40-56 | What is chosen during a drain is not the draining node. |
| `DrainSafety.OnlyUnreportedRun` | crates/raft/src/fsm/apply.rs:101-123 | What runs on the draining node ran there before and was not reported to have ended. |
| `DrainRuns.DrainOfOneService` | crates/node/src/primary/nodes.rs:23-133 | A run that meets these conditions: the only service of a node is replaced, stopped and reported. |
| `DrainRuns.LostIsPromoted` | crates/node/src/primary/deploy/mod.rs:425-432 | A run in which the replacement and its node are gone when it is promoted; the rejection is ignored and the only allocation of the service is told to stop. |
| `DrainRuns.StoppedIsPromoted` | crates/node/src/primary/deploy/mod.rs:481-484 | A run in which the wait takes a replacement that has stopped for a running one, which is then promoted. |
| `Promotions.PromotedRanIff` | crates/node/src/primary/deploy/mod.rs:470-500 | Of every start that succeeds, whatever others commit: the allocation ran from when it was seen to its promotion exactly if it was seen active, not stopped, and nothing committed in between ended it; and unless something committed in between turned it, it runs at its promotion exactly if it was seen active. |
| `Promotions.ReplacementRanIff` | crates/node/src/primary/nodes.rs:84-128 | The same of every replacement of a drain. |
| `Promotions.ReplacementTakesOverIff` | crates/node/src/primary/nodes.rs:84-128 | When a drain stops an allocation, its replacement has run ever since it was seen and is healthy elsewhere exactly if it was seen active and nothing committed until its promotion ended it. |
| `Promotions.UpdatedRanIff` | crates/node/src/primary/deploy/mod.rs:234-255 | The same of every replica of a rolling update. |
| `Promotions.DeployedRanIff` | crates/node/src/primary/deploy/mod.rs:197-215 | The same of every replica of a new service. |
| `Routes.ComputeProxyRoutes` | crates/node/src/primary/proxy.rs:13-47 | A route is listed exactly if it stands for a configured route of a service and a reachable allocation of it, whatever order the maps are visited in. |
| `Routes.RouteTable.constructor` | crates/proxy/src/proxy/routes.rs:33-47 | Each hostname's entries in a stable sort by descending length of path. |
| `Routes.SortIsSorted` | crates/proxy/src/proxy/routes.rs:42-45 | The sort is a permutation with the longest paths first. |
| `Routes.SortIsStable` | crates/proxy/src/proxy/routes.rs:42-45 | Entries of equal length keep their order. |
| `Routes.RouteTable.Lookup` | crates/proxy/src/proxy/routes.rs:53-65 | The first entry of the hostname whose path is a prefix of the request. |
| `Routes.FirstMatchIsLongest` | crates/proxy/src/proxy/routes.rs:53-65 | On a sorted list the first match is a longest one. |
| `Routes.RoutingIsCorrect` | crates/proxy/src/proxy/routes.rs:33-65 | End to end: a request finds a backend exactly if some configured route of its hostname prefixes its path and has a reachable allocation; the match is a longest such route and its backend such an allocation's address. |
| `Routes.RequestIsServedIff` | crates/proxy/src/proxy/routes.rs:33-65 | The same from the state: a request is served exactly if some configured service has a route of its hostname that prefixes its path and an allocation that is running or healthy and has an address; it is then led to such an allocation by a longest such route. |
| `Join.AllocateTunnelIp` | crates/node/src/primary/api/handlers.rs:726-737 | The least unused address, or none exactly if all 65533 are used. |
| `Join.TunnelIsDotted` | crates/node/src/primary/api/handlers.rs:726-737 | The addresses are 10.99.x.y, counted up. |
| `Join.Pigeonhole` | crates/node/src/primary/api/handlers.rs:726-737 | If the first n addresses are all used, at least n are. |
| `Join.AddressIsFound` | crates/node/src/primary/api/handlers.rs:726-737 | An address is found whenever fewer than 65533 are used. |
| `Join.GetJoinInfo` | crates/node/src/primary/api/handlers.rs:606-653 | One more than the greatest raft id and the least unused address, or a failure exactly if all are used. |
| `Join.JoinAddsOne` | crates/node/src/primary/api/handlers.rs:655-718 | A join adds one node under an id and an address no other node has. |
| `Join.RunKeepsUnique` | crates/node/src/primary/api/handlers.rs:606-737 | On every run of sequential joins and other commands, registered nodes have pairwise different addresses. |
| `Join.JoinIsOffered` | crates/node/src/primary/api/handlers.rs:606-653 | With fewer than 65533 nodes a joining node is offered an identity. |
| `Join.LateJoinIsSafeIff` | crates/node/src/primary/api/handlers.rs:655-718 | Exactly when registering with an identity read earlier loses no node and keeps addresses unique. |
| `Join.OverlappingJoinsCollide` | crates/node/src/primary/api/handlers.rs:606-718 | Two nodes that read the same state get the same identity, and the second registration replaces the first. |

## Left out

- Consensus, elections and the transport of the log: one committed log is assumed, and `Replication.LocallyEnabled` states what consensus guarantees of its calls.
- The container runtime, image pulls, log fifos, cgroup statistics, WireGuard, DNS, TLS, certificates and the WebSocket relay: foreign calls, whose outcomes are parameters where they matter.
- Encryption and the encodings of messages, snapshots and configuration files: abstract codecs with a round trip.
- Command line, API response shapes, authentication and metrics: they hold no state that the modelled properties depend on.
- The log buffer, CPU rates and histograms, and the eager image pull of a deploy, whose failures are ignored.
- Restarting one service on request: a rolling update of the definition found.
- Spawning one-off tasks through the API: a second caller of the scheduler, with the same placement.
- Persisting votes and the committed index in the log store: they are stored and returned unchanged.
- Rounding of CPU shares: `Scheduler` and `Capacity` compute with reals.
- Byte lengths of strings that are not ASCII: `Routes` and `EnvParse` take strings as sequences of characters; only `Utf8` and `Sse` go down to bytes.
- Counting allocations as 32-bit numbers in the watchdog: `Watchdog` counts without a bound.
- The overflow of the greatest raft id plus one: `Join` counts without a bound.
- VolumeSafety.PreparedIsReady: needs others to leave the service's volumes and the node's registration alone meanwhile, since the code enforces neither.
- Deploy.RunScheduled: whether the environment resolves is a parameter here; `EnvParse` models the resolution.
- Deploy.StartAlloc: a response that rejects the scheduling or the promotion is ignored, as in the source; "recorded" and "promoted" mean that the proposal was committed, and `DrainSafety.ReplacementIsHealthyIff` and `Promotions.PromotedRanIff` say what that means for the state.
- DrainVolumes.DrainFreesVolumes: needs the proposals to be taken and nobody to attach a volume to the node meanwhile, since the code ignores the former and does not enforce the latter.
- Replication.RunIsConsistent: installing a snapshot sets the state, the slot and the base of the log in one step, so what falls between these locks is not modelled.
- Replication.WriteIsPersist: a file is written in one step; what the shared temporary file of two writers at once means for it is said by `SnapshotWriters`.
- SnapshotDisk.FilesAreComplete: writes one after another; `SnapshotWriters.RenamedSurvivesIff` and `SnapshotWriters.RenamedIsWritten` are about any number of writers at once.
- SnapshotWriters.RenamedIsWritten: writing a temporary file and opening it to sync it are one step each, so bytes of two writers mixed in one file are not modelled.
- Watchdog.Watchdog.CheckHeartbeats: a whole tick in one step; `Heartbeats` splits it into its read and its proposals.
- Runner.RunKeepsOwned: needs ids that are not used again, releases that find the port their own or unused, and recovered ports that are free, since the code enforces none of these.
- Capacity.RunNeverOvercommits: needs adjacent placements, unique node names, non-negative requests, no revival and no re-registration with smaller totals, since the code enforces none of these.
- DrainSafety.DrainedNodeIsRemoved: needs others to leave the draining node's id and name alone and, once the running allocations are read, to place nothing on it and to revive nothing, since the code enforces none of these.
