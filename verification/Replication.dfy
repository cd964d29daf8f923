/**
 Whole runs of a cluster that shares one committed log. Replicas apply batches, take
 and exchange snapshots, purge their logs and restart, in any interleaving; every
 replica always holds the replay of a prefix of the committed log.
 */
module Replication {
  import opened Types
  import opened LogStore
  import opened StateStore
  import SnapshotDisk

  /** The two files on disk, each by the snapshot it was written from. */
  datatype Disk = Disk(data: Option<Snapshot>, meta: Option<Snapshot>)

  /**
   One member of the cluster. The log holds what is left of it from `base` on. Snapshots in flight
   belong to tasks of their own: `builders` are copies of the state not yet encoded; `publishing`
   are snapshots about to be put into the slot, `writing` those whose data is about to be written,
   and `naming` those whose data has been written and whose metadata has not.
   */
  datatype Replica = Replica(
    image: Image, log: map<nat, Entry>, base: nat, slot: Option<Snapshot>, disk: Disk,
    builders: seq<Image>, publishing: seq<Snapshot>, writing: seq<Snapshot>, naming: seq<Snapshot>)

  function NewReplica(): Replica {
    Replica(EmptyImage(), map[], 0, None, Disk(None, None), [], [], [], [])
  }

  datatype System = System(committed: seq<Entry>, replicas: map<RaftId, Replica>)

  datatype Step =
    | Commit(entry: Entry)                           // consensus extends the committed log
    | Join(node: RaftId)                             // an empty replica appears
    | Replicate(node: RaftId, entries: seq<Entry>)   // entries reach a replica's log
    | Truncate(node: RaftId, index: nat)             // a replica drops an uncommitted tail
    | ApplyNext(node: RaftId, count: nat)            // a batch from the replica's own log
    | Capture(node: RaftId)                          // a snapshot builder copies the state
    | Build(node: RaftId, which: nat)                // a builder encodes its copy
    | Install(node: RaftId, from: RaftId)            // a peer's snapshot replaces the state
    | Publish(node: RaftId, which: nat)              // a built snapshot is put into the slot
    | PersistData(node: RaftId, which: nat)          // the data of a snapshot is written
    | PersistMeta(node: RaftId, which: nat)          // the metadata of a snapshot is written
    | Purge(node: RaftId, index: nat)                // the log is cut up to the snapshot
    | Restart(node: RaftId)                          // memory is lost, the disk is read

  function Position(snapshot: Option<Snapshot>): nat {
    if snapshot.Some? then Applied(snapshot.value.meta.lastLogId) else 0
  }

  /** What consensus guarantees about the calls it makes. */
  ghost predicate Enabled(codec: Codec<FsmState>, sys: System, step: Step) {
    match step
    case Commit(e) => e.logId.index == |sys.committed|
    case Join(n) => n !in sys.replicas
    case _ =>
      step.node in sys.replicas && LocallyEnabled(codec, sys, step, sys.replicas[step.node])
  }

  ghost predicate LocallyEnabled(codec: Codec<FsmState>, sys: System, step: Step, r: Replica)
    requires !step.Commit? && !step.Join?
  {
    var applied := Applied(r.image.lastApplied);
    match step
    case Replicate(_, entries) => forall e | e in entries :: applied <= e.logId.index
    case Truncate(_, index) => applied <= index
    case ApplyNext(_, count) =>
      applied + count <= |sys.committed| && Holds(r.log, sys.committed, applied, applied + count)
    case Install(_, from) =>
      from in sys.replicas && sys.replicas[from].slot.Some?
      && applied < Position(sys.replicas[from].slot)
    case Build(_, which) => which < |r.builders|
    case Publish(_, which) => which < |r.publishing|
    case PersistData(_, which) => which < |r.writing|
    case PersistMeta(_, which) => which < |r.naming|
    case Purge(_, index) => index < Position(r.slot)
    case Restart(_) => IsWhole(r.disk) ==> LoadSnapshot(codec, Pair(r.disk)).Some?
    case _ => true
  }

  /** The log holds the committed entries `lo..hi`. */
  ghost predicate Holds(log: map<nat, Entry>, committed: seq<Entry>, lo: nat, hi: nat)
    requires hi <= |committed|
  {
    forall i | lo <= i < hi :: i in log && log[i] == committed[i]
  }

  function Without<T>(s: seq<T>, i: nat): seq<T>
    requires i < |s|
  {
    s[..i] + s[i + 1..]
  }

  function Built(codec: Codec<FsmState>, r: Replica, which: nat): Replica
    requires which < |r.builders|
  {
    var r' := r.(builders := Without(r.builders, which));
    match TakeSnapshot(codec, r.builders[which])
    case None => r'
    case Some(snapshot) => r'.(publishing := r.publishing + [snapshot], writing := r.writing + [snapshot])
  }

  /** The received state replaces the local one and goes into the slot, and the log is cut at its position. */
  function Installed(codec: Codec<FsmState>, r: Replica, snapshot: Snapshot): Replica {
    match LoadSnapshot(codec, snapshot)
    case None => r
    case Some(image) =>
      var at := Position(Some(snapshot));
      var log := map i | i in r.log && at <= i :: r.log[i];
      r.(image := image, log := log, base := at, slot := Some(snapshot), writing := r.writing + [snapshot])
  }

  predicate IsWhole(disk: Disk) {
    disk.data.Some? && disk.meta.Some?
  }

  /** What is read back from the two files. */
  function Pair(disk: Disk): Snapshot
    requires IsWhole(disk)
  {
    Snapshot(disk.meta.value.meta, disk.data.value.data)
  }

  /** The log and all tasks are gone; what the files hold is loaded if neither is missing. */
  function Restarted(codec: Codec<FsmState>, r: Replica): Replica
    requires IsWhole(r.disk) ==> LoadSnapshot(codec, Pair(r.disk)).Some?
  {
    if !IsWhole(r.disk) then NewReplica().(disk := r.disk)
    else
      var image := LoadSnapshot(codec, Pair(r.disk)).value;
      NewReplica().(image := image, base := Applied(image.lastApplied), slot := Some(Pair(r.disk)), disk := r.disk)
  }

  /** The replica after applying the next entries of its log. */
  ghost function Advanced(r: Replica, count: nat): Replica {
    var lo := Applied(r.image.lastApplied);
    r.(image := ApplyEntries(r.image, Range(r.log, lo, lo + count)))
  }

  ghost function ReplicaAfter(codec: Codec<FsmState>, sys: System, step: Step): Replica
    requires Enabled(codec, sys, step) && !step.Commit? && !step.Join?
  {
    var r := sys.replicas[step.node];
    match step
    case Replicate(_, entries) => r.(log := Appended(r.log, entries))
    case Truncate(_, index) => r.(log := Truncated(r.log, index))
    case ApplyNext(_, count) => Advanced(r, count)
    case Capture(_) => r.(builders := r.builders + [r.image])
    case Build(_, which) => Built(codec, r, which)
    case Install(_, from) => Installed(codec, r, sys.replicas[from].slot.value)
    case Publish(_, which) =>
      r.(slot := Some(r.publishing[which]), publishing := Without(r.publishing, which))
    case PersistData(_, which) =>
      var s := r.writing[which];
      r.(disk := r.disk.(data := Some(s)), writing := Without(r.writing, which), naming := r.naming + [s])
    case PersistMeta(_, which) =>
      r.(disk := r.disk.(meta := Some(r.naming[which])), naming := Without(r.naming, which))
    case Purge(_, index) => r.(log := Purged(r.log, index), base := if r.base <= index then index + 1 else r.base)
    case Restart(_) => Restarted(codec, r)
  }

  ghost function After(codec: Codec<FsmState>, sys: System, step: Step): System
    requires Enabled(codec, sys, step)
  {
    match step
    case Commit(e) => sys.(committed := sys.committed + [e])
    case Join(n) => sys.(replicas := sys.replicas[n := NewReplica()])
    case _ => sys.(replicas := sys.replicas[step.node := ReplicaAfter(codec, sys, step)])
  }

  /** `states` is a run from the empty cluster: step `k` is enabled and leads to state `k + 1`. */
  ghost predicate IsRun(codec: Codec<FsmState>, states: seq<System>, steps: seq<Step>) {
    && |states| == |steps| + 1
    && states[0] == System([], map[])
    && forall k {:trigger steps[k]} | 0 <= k < |steps| ::
         Enabled(codec, states[k], steps[k]) && states[k + 1] == After(codec, states[k], steps[k])
  }

  // ----- Every replica is a replayed prefix -----

  /** The image is exactly the replay of the committed log up to its last applied entry. */
  ghost predicate IsReplay(committed: seq<Entry>, image: Image) {
    && Applied(image.lastApplied) <= |committed|
    && image == ApplyEntries(EmptyImage(), committed[..Applied(image.lastApplied)])
  }

  /** The stored bytes decode to the replay of the prefix that the metadata names. */
  ghost predicate MatchingPair(codec: Codec<FsmState>, committed: seq<Entry>, snapshot: Snapshot) {
    var loaded := LoadSnapshot(codec, snapshot);
    loaded.Some? && IsReplay(committed, loaded.value)
  }

  ghost predicate ConsistentReplica(codec: Codec<FsmState>, committed: seq<Entry>, r: Replica) {
    && IsReplay(committed, r.image)
    && (r.slot.Some? ==> MatchingPair(codec, committed, r.slot.value))
    && (r.disk.data.Some? ==> MatchingPair(codec, committed, r.disk.data.value))
    && (r.disk.meta.Some? ==> MatchingPair(codec, committed, r.disk.meta.value))
    && (forall image | image in r.builders :: IsReplay(committed, image))
    && (forall s | s in r.publishing :: MatchingPair(codec, committed, s))
    && (forall s | s in r.writing :: MatchingPair(codec, committed, s))
    && (forall s | s in r.naming :: MatchingPair(codec, committed, s))
  }

  ghost predicate Indexed(committed: seq<Entry>) {
    forall i | 0 <= i < |committed| :: committed[i].logId.index == i
  }

  ghost predicate Consistent(codec: Codec<FsmState>, sys: System) {
    && Indexed(sys.committed)
    && (forall n | n in sys.replicas :: ConsistentReplica(codec, sys.committed, sys.replicas[n]))
  }

  lemma ReplayGrows(committed: seq<Entry>, e: Entry, image: Image)
    requires IsReplay(committed, image)
    ensures IsReplay(committed + [e], image)
  {
    var n := Applied(image.lastApplied);
    assert (committed + [e])[..n] == committed[..n];
  }

  lemma PairGrows(codec: Codec<FsmState>, committed: seq<Entry>, e: Entry, snapshot: Snapshot)
    requires MatchingPair(codec, committed, snapshot)
    ensures MatchingPair(codec, committed + [e], snapshot)
  {
    ReplayGrows(committed, e, LoadSnapshot(codec, snapshot).value);
  }

  lemma ReplicaGrows(codec: Codec<FsmState>, committed: seq<Entry>, e: Entry, r: Replica)
    requires ConsistentReplica(codec, committed, r)
    ensures ConsistentReplica(codec, committed + [e], r)
  {
    ReplayGrows(committed, e, r.image);
    if r.slot.Some? { PairGrows(codec, committed, e, r.slot.value); }
    if r.disk.data.Some? { PairGrows(codec, committed, e, r.disk.data.value); }
    if r.disk.meta.Some? { PairGrows(codec, committed, e, r.disk.meta.value); }
    forall image | image in r.builders ensures IsReplay(committed + [e], image) {
      ReplayGrows(committed, e, image);
    }
    forall s | s in r.publishing + r.writing + r.naming ensures MatchingPair(codec, committed + [e], s) {
      PairGrows(codec, committed, e, s);
    }
  }

  /** Applying the next `count` committed entries moves a replay to the longer replay. */
  lemma ReplayExtends(committed: seq<Entry>, image: Image, count: nat)
    requires Indexed(committed) && IsReplay(committed, image)
    requires Applied(image.lastApplied) + count <= |committed|
    ensures var lo := Applied(image.lastApplied);
            var image' := ApplyEntries(image, committed[lo..lo + count]);
            Applied(image'.lastApplied) == lo + count && IsReplay(committed, image')
  {
    var lo := Applied(image.lastApplied);
    assert committed[..lo + count] == committed[..lo] + committed[lo..lo + count];
    ApplyEntriesConcat(EmptyImage(), committed[..lo], committed[lo..lo + count]);
  }

  /** A snapshot of a replay, taken with a lawful codec, is a matching pair. */
  lemma SnapshotMatches(codec: Codec<FsmState>, committed: seq<Entry>, image: Image)
    requires Lawful(codec) && IsReplay(committed, image)
    ensures TakeSnapshot(codec, image).Some? ==>
              && LoadSnapshot(codec, TakeSnapshot(codec, image).value) == Some(image)
              && MatchingPair(codec, committed, TakeSnapshot(codec, image).value)
  {
    var _ := codec.encode(image.fsm);
  }

  lemma EmptyIsReplay(committed: seq<Entry>)
    ensures IsReplay(committed, EmptyImage())
  {
    assert committed[..0] == [];
  }

  /** A batch read from the log moves the image to the longer replay. */
  lemma BatchExtends(committed: seq<Entry>, r: Replica, count: nat)
    requires Indexed(committed) && IsReplay(committed, r.image)
    requires Applied(r.image.lastApplied) + count <= |committed|
    requires Holds(r.log, committed, Applied(r.image.lastApplied), Applied(r.image.lastApplied) + count)
    ensures var image := Advanced(r, count).image;
            Applied(image.lastApplied) == Applied(r.image.lastApplied) + count && IsReplay(committed, image)
  {
    ReplayExtends(committed, r.image, count);
    AdvancedBy(committed, r, count);
  }

  lemma AdvancedBy(committed: seq<Entry>, r: Replica, count: nat)
    requires Applied(r.image.lastApplied) + count <= |committed|
    requires Holds(r.log, committed, Applied(r.image.lastApplied), Applied(r.image.lastApplied) + count)
    ensures var lo := Applied(r.image.lastApplied);
            Advanced(r, count).image == ApplyEntries(r.image, committed[lo..lo + count])
  {
    RangeIsContiguous(r.log, committed, Applied(r.image.lastApplied), Applied(r.image.lastApplied) + count);
  }

  lemma BatchConsistent(codec: Codec<FsmState>, committed: seq<Entry>, r: Replica, count: nat)
    requires Indexed(committed) && ConsistentReplica(codec, committed, r)
    requires Applied(r.image.lastApplied) + count <= |committed|
    requires Holds(r.log, committed, Applied(r.image.lastApplied), Applied(r.image.lastApplied) + count)
    ensures ConsistentReplica(codec, committed, Advanced(r, count))
  {
    BatchExtends(committed, r, count);
  }

  lemma PublishConsistent(codec: Codec<FsmState>, committed: seq<Entry>, r: Replica, which: nat)
    requires ConsistentReplica(codec, committed, r) && which < |r.publishing|
    ensures ConsistentReplica(codec, committed,
              r.(slot := Some(r.publishing[which]), publishing := Without(r.publishing, which)))
  {
  }

  lemma PersistConsistent(codec: Codec<FsmState>, committed: seq<Entry>, r: Replica, which: nat)
    requires ConsistentReplica(codec, committed, r)
    ensures which < |r.writing| ==>
              ConsistentReplica(codec, committed,
                r.(disk := r.disk.(data := Some(r.writing[which])), writing := Without(r.writing, which),
                   naming := r.naming + [r.writing[which]]))
    ensures which < |r.naming| ==>
              ConsistentReplica(codec, committed,
                r.(disk := r.disk.(meta := Some(r.naming[which])), naming := Without(r.naming, which)))
  {
  }

  lemma BuildConsistent(codec: Codec<FsmState>, committed: seq<Entry>, r: Replica, which: nat)
    requires Lawful(codec) && ConsistentReplica(codec, committed, r) && which < |r.builders|
    ensures ConsistentReplica(codec, committed, Built(codec, r, which))
  {
    SnapshotMatches(codec, committed, r.builders[which]);
  }

  lemma InstallConsistent(codec: Codec<FsmState>, committed: seq<Entry>, r: Replica, snapshot: Snapshot)
    requires ConsistentReplica(codec, committed, r) && MatchingPair(codec, committed, snapshot)
    ensures ConsistentReplica(codec, committed, Installed(codec, r, snapshot))
  {
  }

  // ----- Restarts -----

  /** The state after the first `n` committed entries. */
  ghost function StateAt(committed: seq<Entry>, n: nat): FsmState
    requires n <= |committed|
  {
    ApplyEntries(EmptyImage(), committed[..n]).fsm
  }

  /** The state in the data file is the one at the position in the metadata file. */
  ghost predicate FilesAgree(committed: seq<Entry>, disk: Disk) {
    IsWhole(disk) ==>
      && Position(disk.data) <= |committed| && Position(disk.meta) <= |committed|
      && StateAt(committed, Position(disk.data)) == StateAt(committed, Position(disk.meta))
  }

  /** What a restart reads is a replay exactly if the states at the positions of the two files are equal. */
  lemma RestartIsReplayIff(codec: Codec<FsmState>, committed: seq<Entry>, disk: Disk)
    requires IsWhole(disk)
    requires MatchingPair(codec, committed, disk.data.value) && MatchingPair(codec, committed, disk.meta.value)
    ensures LoadSnapshot(codec, Pair(disk)).Some?
    ensures MatchingPair(codec, committed, Pair(disk)) <==> FilesAgree(committed, disk)
  {
  }

  /** Files from the same position always agree. */
  lemma SamePositionAgrees(codec: Codec<FsmState>, committed: seq<Entry>, disk: Disk)
    requires IsWhole(disk) ==>
               MatchingPair(codec, committed, disk.data.value) && MatchingPair(codec, committed, disk.meta.value)
    requires Position(disk.data) == Position(disk.meta)
    ensures FilesAgree(committed, disk)
  {
  }

  lemma RestartConsistentIff(codec: Codec<FsmState>, committed: seq<Entry>, r: Replica)
    requires ConsistentReplica(codec, committed, r)
    ensures IsWhole(r.disk) ==> LoadSnapshot(codec, Pair(r.disk)).Some?
    ensures ConsistentReplica(codec, committed, Restarted(codec, r)) <==> FilesAgree(committed, r.disk)
  {
    EmptyIsReplay(committed);
    if IsWhole(r.disk) {
      RestartIsReplayIff(codec, committed, r.disk);
    }
  }

  ghost predicate SoundRestart(sys: System, step: Step) {
    step.Restart? && step.node in sys.replicas ==> FilesAgree(sys.committed, sys.replicas[step.node].disk)
  }

  // ----- Every step -----

  /** The steps of snapshot tasks. */
  lemma TaskConsistent(codec: Codec<FsmState>, sys: System, step: Step)
    requires Lawful(codec) && Consistent(codec, sys) && Enabled(codec, sys, step)
    requires step.Capture? || step.Build? || step.Publish? || step.PersistData? || step.PersistMeta?
    ensures ConsistentReplica(codec, sys.committed, ReplicaAfter(codec, sys, step))
  {
    var committed, r := sys.committed, sys.replicas[step.node];
    assert ConsistentReplica(codec, committed, r);
    match step
    case Build(_, which) => BuildConsistent(codec, committed, r, which);
    case Publish(_, which) => PublishConsistent(codec, committed, r, which);
    case PersistData(_, which) => PersistConsistent(codec, committed, r, which);
    case PersistMeta(_, which) => PersistConsistent(codec, committed, r, which);
    case Capture(_) =>
  }

  /** Memory stays consistent whatever happens; only a restart may read files that do not agree. */
  lemma ReplicaStaysConsistentIff(codec: Codec<FsmState>, sys: System, step: Step)
    requires Lawful(codec) && Consistent(codec, sys) && Enabled(codec, sys, step)
    requires !step.Commit? && !step.Join?
    ensures ConsistentReplica(codec, sys.committed, ReplicaAfter(codec, sys, step)) <==> SoundRestart(sys, step)
  {
    var committed, r := sys.committed, sys.replicas[step.node];
    assert ConsistentReplica(codec, committed, r);
    match step
    case ApplyNext(_, count) => BatchConsistent(codec, committed, r, count);
    case Install(_, from) =>
      assert ConsistentReplica(codec, committed, sys.replicas[from]);
      InstallConsistent(codec, committed, r, sys.replicas[from].slot.value);
    case Restart(_) => RestartConsistentIff(codec, committed, r);
    case Replicate(_, _) =>
    case Truncate(_, _) =>
    case Purge(_, _) =>
    case _ => TaskConsistent(codec, sys, step);
  }

  lemma CommitConsistent(codec: Codec<FsmState>, sys: System, e: Entry)
    requires Consistent(codec, sys) && e.logId.index == |sys.committed|
    ensures Consistent(codec, sys.(committed := sys.committed + [e]))
  {
    forall n | n in sys.replicas ensures ConsistentReplica(codec, sys.committed + [e], sys.replicas[n]) {
      ReplicaGrows(codec, sys.committed, e, sys.replicas[n]);
    }
  }

  lemma StepStaysConsistentIff(codec: Codec<FsmState>, sys: System, step: Step)
    requires Lawful(codec) && Consistent(codec, sys) && Enabled(codec, sys, step)
    ensures Consistent(codec, After(codec, sys, step)) <==> SoundRestart(sys, step)
  {
    match step
    case Commit(e) => CommitConsistent(codec, sys, e);
    case Join(_) => EmptyIsReplay(sys.committed);
    case _ =>
      ReplicaStaysConsistentIff(codec, sys, step);
      OneReplicaDecides(codec, sys, step.node, ReplicaAfter(codec, sys, step));
  }

  lemma OneReplicaDecides(codec: Codec<FsmState>, sys: System, n: RaftId, r: Replica)
    requires Consistent(codec, sys)
    ensures Consistent(codec, sys.(replicas := sys.replicas[n := r])) <==> ConsistentReplica(codec, sys.committed, r)
  {
    assert sys.replicas[n := r][n] == r;
  }

  ghost predicate SoundRestarts(states: seq<System>, steps: seq<Step>, k: nat) {
    k <= |steps| <= |states| && forall j | 0 <= j < k :: SoundRestart(states[j], steps[j])
  }

  /**
   On every run, as long as every restart found files that agree, every replica's state is the replay
   of the committed log up to its last applied entry, and every snapshot in a slot or in flight is a
   matching pair of position and state; the first restart that finds others ends this.
   */
  lemma {:induction false} RunIsConsistent(codec: Codec<FsmState>, states: seq<System>, steps: seq<Step>, k: nat)
    requires Lawful(codec) && IsRun(codec, states, steps) && SoundRestarts(states, steps, k)
    ensures Consistent(codec, states[k])
    ensures k < |steps| ==> (Consistent(codec, states[k + 1]) <==> SoundRestart(states[k], steps[k]))
  {
    if k > 0 {
      RunIsConsistent(codec, states, steps, k - 1);
    }
    if k < |steps| {
      StepStaysConsistentIff(codec, states[k], steps[k]);
    }
  }

  /** Two replicas that have applied equally many entries hold the same state. */
  lemma ReplicasAgree(codec: Codec<FsmState>, states: seq<System>, steps: seq<Step>, k: nat, m: RaftId, n: RaftId)
    requires Lawful(codec) && IsRun(codec, states, steps) && SoundRestarts(states, steps, k)
    requires m in states[k].replicas && n in states[k].replicas
    requires Applied(states[k].replicas[m].image.lastApplied)
             == Applied(states[k].replicas[n].image.lastApplied)
    ensures states[k].replicas[m].image == states[k].replicas[n].image
  {
    RunIsConsistent(codec, states, steps, k);
  }

  // ----- What a replica holds -----

  /** Before the first entry there is nothing. */
  function Nothing(): Image {
    Image(FsmState(None, map[], map[], map[], map[]), None, StoredMembership(None, {}))
  }

  /** The image is made up by the committed entries that it has consumed. */
  ghost predicate Accounts(committed: seq<Entry>, image: Image) {
    && Applied(image.lastApplied) <= |committed|
    && IsOutcome(Nothing(), committed[..Applied(image.lastApplied)], image)
  }

  lemma ReplayAccounts(committed: seq<Entry>, image: Image)
    requires IsReplay(committed, image)
    ensures Accounts(committed, image)
  {
    AppliedIsOutcome(Nothing(), committed[..Applied(image.lastApplied)]);
  }

  /** The snapshot holds the image that the committed entries up to its position make up. */
  ghost predicate SnapshotAccounts(codec: Codec<FsmState>, committed: seq<Entry>, snapshot: Snapshot) {
    var loaded := LoadSnapshot(codec, snapshot);
    && loaded.Some? && Accounts(committed, loaded.value)
    && loaded.value.lastApplied == snapshot.meta.lastLogId && loaded.value.lastMembership == snapshot.meta.lastMembership
  }

  /**
   On every such run each replica holds the replay of the committed commands, the last committed entry
   and the last committed membership up to its position; so does every snapshot in a slot.
   */
  lemma ReplicaAccounts(codec: Codec<FsmState>, states: seq<System>, steps: seq<Step>, k: nat, n: RaftId)
    requires Lawful(codec) && IsRun(codec, states, steps) && SoundRestarts(states, steps, k) && n in states[k].replicas
    ensures var committed, r := states[k].committed, states[k].replicas[n];
            && Accounts(committed, r.image)
            && (r.slot.Some? ==> SnapshotAccounts(codec, committed, r.slot.value))
  {
    RunIsConsistent(codec, states, steps, k);
    var committed, r := states[k].committed, states[k].replicas[n];
    ReplayAccounts(committed, r.image);
    if r.slot.Some? {
      ReplayAccounts(committed, LoadSnapshot(codec, r.slot.value).value);
    }
  }

  /** And a store that is opened on a published snapshot, once written, holds the same. */
  lemma ReopenedAccounts(
    codec: Codec<FsmState>, metaCodec: Codec<SnapshotMeta>, states: seq<System>, steps: seq<Step>, k: nat, n: RaftId,
    files: SnapshotDisk.Directory)
    requires Lawful(codec) && Lawful(metaCodec) && IsRun(codec, states, steps) && SoundRestarts(states, steps, k)
    requires n in states[k].replicas && states[k].replicas[n].slot.Some?
    requires metaCodec.encode(states[k].replicas[n].slot.value.meta).Some?
    ensures var snapshot := states[k].replicas[n].slot.value;
            && OnDisk(codec, metaCodec, Persisted(files, metaCodec, snapshot, 6)) == Some(Some(snapshot))
            && SnapshotAccounts(codec, states[k].committed, snapshot)
  {
    var snapshot := states[k].replicas[n].slot.value;
    ReplicaAccounts(codec, states, steps, k, n);
    PersistedIsRead(codec, metaCodec, files, snapshot);
  }

  lemma PersistedIsRead(
    codec: Codec<FsmState>, metaCodec: Codec<SnapshotMeta>, files: SnapshotDisk.Directory, snapshot: Snapshot)
    requires Lawful(metaCodec) && metaCodec.encode(snapshot.meta).Some? && LoadSnapshot(codec, snapshot).Some?
    ensures OnDisk(codec, metaCodec, Persisted(files, metaCodec, snapshot, 6)) == Some(Some(snapshot))
  {
    var meta := metaCodec.encode(snapshot.meta).value;
    SnapshotDisk.WrittenIsRead(files, snapshot.data, meta);
    assert SnapshotDisk.WriteSnapshotOps(snapshot.data, meta)[..6] == SnapshotDisk.WriteSnapshotOps(snapshot.data, meta);
  }

  // ----- The files -----

  /** The files of the directory are those of the disk. */
  ghost predicate Realises(dir: SnapshotDisk.Directory, metaCodec: Codec<SnapshotMeta>, disk: Disk) {
    && (if disk.data.None? then SnapshotDisk.DATA !in dir
        else SnapshotDisk.HasFile(dir, SnapshotDisk.DATA, disk.data.value.data))
    && (if disk.meta.None? then SnapshotDisk.META !in dir
        else
          && metaCodec.encode(disk.meta.value.meta).Some?
          && SnapshotDisk.HasFile(dir, SnapshotDisk.META, metaCodec.encode(disk.meta.value.meta).value))
  }

  /** A complete write of one of the files is the step that replaces it. */
  lemma WriteIsPersist(dir: SnapshotDisk.Directory, metaCodec: Codec<SnapshotMeta>, disk: Disk, s: Snapshot)
    requires Realises(dir, metaCodec, disk)
    ensures Realises(
              SnapshotDisk.DoAll(dir, SnapshotDisk.AtomicWriteOps(SnapshotDisk.DATA, s.data)), metaCodec,
              disk.(data := Some(s)))
    ensures metaCodec.encode(s.meta).Some? ==>
              Realises(
                SnapshotDisk.DoAll(
                  dir, SnapshotDisk.AtomicWriteOps(SnapshotDisk.META, metaCodec.encode(s.meta).value)),
                metaCodec, disk.(meta := Some(s)))
  {
    SnapshotDisk.OneFileWritten(dir, SnapshotDisk.DATA, s.data);
    if metaCodec.encode(s.meta).Some? {
      SnapshotDisk.OneFileWritten(dir, SnapshotDisk.META, metaCodec.encode(s.meta).value);
    }
  }

  /** A crash, which may also leave temporary files, changes neither of the two. */
  lemma CrashKeepsFiles(
    dir: SnapshotDisk.Directory, after: SnapshotDisk.Directory, metaCodec: Codec<SnapshotMeta>, disk: Disk)
    requires Realises(dir, metaCodec, disk) && SnapshotDisk.Survives(dir, after)
    ensures Realises(after, metaCodec, disk)
  {
  }

  /** Opening a store on these files reads the pair that a restart loads. */
  lemma OpenedIsRestarted(
    dir: SnapshotDisk.Directory, codec: Codec<FsmState>, metaCodec: Codec<SnapshotMeta>, disk: Disk)
    requires Lawful(metaCodec) && Realises(dir, metaCodec, disk)
    requires IsWhole(disk) ==> LoadSnapshot(codec, Pair(disk)).Some?
    ensures OnDisk(codec, metaCodec, dir) == Some(if IsWhole(disk) then Some(Pair(disk)) else None)
  {
    if disk.meta.Some? {
      var _ := metaCodec.encode(disk.meta.value.meta);
    }
  }

  // ----- Why a torn pair matters -----

  function At(index: nat, command: Command): Entry {
    Entry(LogId(1, index), Normal(command))
  }

  const ONE_NODE := NodeRegister(
    1, NodeId("n1"), SocketAddr(V4(1), 4400), NodeResources(4.0, 4.0, 8, 8), None, None, None, None)
  const ONE_ALLOC := AllocScheduled(AllocId("a"), 1, "web", Service, None, Resources(1.0, 1))

  /** The removal is rejected while the allocation runs; afterwards it stops. */
  const REJECTED_REMOVAL: seq<Entry> :=
    [At(0, ONE_NODE), At(1, ONE_ALLOC), At(2, NodeRemove(1)), At(3, SetAllocStatus(AllocId("a"), Stopped(0)))]

  /**
   A restart from newer data with older metadata applies some entries twice. Here the
   metadata names the first two entries and the data has all four: after catching up,
   the node has been removed, although it was not removed in the log's own replay.
   */
  lemma TornPairDiverges()
    ensures Indexed(REJECTED_REMOVAL)
    ensures var newer := ApplyEntries(EmptyImage(), REJECTED_REMOVAL);
            var older := ApplyEntries(EmptyImage(), REJECTED_REMOVAL[..2]);
            var torn := Image(newer.fsm, older.lastApplied, older.lastMembership);
            var caughtUp := ApplyEntries(torn, REJECTED_REMOVAL[Applied(torn.lastApplied)..]);
            1 in newer.fsm.nodes && 1 !in caughtUp.fsm.nodes
  {
    var log := REJECTED_REMOVAL;
    var i1 := ApplyEntry(EmptyImage(), log[0]);
    var i2 := ApplyEntry(i1, log[1]);
    var i3 := ApplyEntry(i2, log[2]);
    var i4 := ApplyEntry(i3, log[3]);
    Unfold(EmptyImage(), log[..1]);
    Unfold(EmptyImage(), log[..2]);
    Unfold(EmptyImage(), log[..3]);
    Unfold(EmptyImage(), log);
    assert i2.fsm.allocs[AllocId("a")].node == NodeId("n1");
    assert i3.fsm == i2.fsm;
    var torn := Image(i4.fsm, i2.lastApplied, i2.lastMembership);
    var rest := log[2..];
    var t1 := ApplyEntry(torn, log[2]);
    Unfold(torn, rest[..1]);
    Unfold(torn, rest);
    assert 1 !in t1.fsm.nodes;
  }

  lemma Unfold(image: Image, entries: seq<Entry>)
    requires entries != []
    ensures ApplyEntries(image, entries)
            == ApplyEntry(ApplyEntries(image, entries[..|entries| - 1]), entries[|entries| - 1])
    ensures forall k | 0 <= k < |entries| :: entries[..|entries| - 1][..k] == entries[..k]
  {
    forall k | 0 <= k < |entries| ensures entries[..|entries| - 1][..k] == entries[..k] {
    }
  }
}
