/**
 Rebuilding a replica's state from the snapshot in its slot and what is left of its log: what the
 log still holds on every run, and exactly when it reaches back to the slot.
 */
module Rebuilding {
  import opened Types
  import opened LogStore
  import opened StateStore
  import opened Replication

  // ----- What the log holds -----

  /** No snapshot or copy in memory is ahead of the state, and none anywhere is ahead of the committed log. */
  ghost predicate Bounded(count: nat, r: Replica) {
    var applied := Applied(r.image.lastApplied);
    && r.base <= applied <= count
    && Position(r.slot) <= applied && Position(r.disk.meta) <= count
    && (forall image | image in r.builders :: Applied(image.lastApplied) <= applied)
    && (forall s | s in r.publishing :: Position(Some(s)) <= applied)
    && (forall s | s in r.writing :: Position(Some(s)) <= count)
    && (forall s | s in r.naming :: Position(Some(s)) <= count)
  }

  /** The log holds the committed entries from its base to the applied position, and nothing before. */
  ghost predicate LogIsExact(committed: seq<Entry>, r: Replica) {
    && Bounded(|committed|, r)
    && Holds(r.log, committed, r.base, Applied(r.image.lastApplied))
    && forall i | i in r.log :: r.base <= i
  }

  ghost predicate AllExact(sys: System) {
    Indexed(sys.committed) && forall n | n in sys.replicas :: LogIsExact(sys.committed, sys.replicas[n])
  }

  lemma ReplicateExact(committed: seq<Entry>, r: Replica, entries: seq<Entry>)
    requires LogIsExact(committed, r)
    requires forall e | e in entries :: Applied(r.image.lastApplied) <= e.logId.index
    ensures LogIsExact(committed, r.(log := Appended(r.log, entries)))
  {
    forall i | 0 <= i < Applied(r.image.lastApplied)
      ensures i in Appended(r.log, entries) <==> i in r.log
      ensures i in r.log ==> Appended(r.log, entries)[i] == r.log[i]
    {
      AppendedKeeps(r.log, entries, i);
    }
  }

  /** After a batch of committed entries the applied position is theirs, whatever the state was. */
  lemma AdvanceMoves(committed: seq<Entry>, r: Replica, count: nat)
    requires Indexed(committed) && Applied(r.image.lastApplied) + count <= |committed|
    requires Holds(r.log, committed, Applied(r.image.lastApplied), Applied(r.image.lastApplied) + count)
    ensures Applied(Advanced(r, count).image.lastApplied) == Applied(r.image.lastApplied) + count
  {
    var lo := Applied(r.image.lastApplied);
    AdvancedBy(committed, r, count);
    var entries := committed[lo..lo + count];
    if count > 0 {
      assert entries[count - 1] == committed[lo + count - 1];
    }
  }

  lemma ApplyExact(committed: seq<Entry>, r: Replica, count: nat)
    requires Indexed(committed) && LogIsExact(committed, r) && Applied(r.image.lastApplied) + count <= |committed|
    requires Holds(r.log, committed, Applied(r.image.lastApplied), Applied(r.image.lastApplied) + count)
    ensures LogIsExact(committed, Advanced(r, count))
  {
    AdvanceMoves(committed, r, count);
  }

  lemma BuildExact(codec: Codec<FsmState>, committed: seq<Entry>, r: Replica, which: nat)
    requires LogIsExact(committed, r) && which < |r.builders|
    ensures LogIsExact(committed, Built(codec, r, which))
  {
    assert r.builders[which] in r.builders;
  }

  lemma InstallExact(codec: Codec<FsmState>, committed: seq<Entry>, r: Replica, snapshot: Snapshot)
    requires LogIsExact(committed, r) && Applied(r.image.lastApplied) < Position(Some(snapshot)) <= |committed|
    ensures LogIsExact(committed, Installed(codec, r, snapshot))
  {
  }

  lemma PurgeExact(committed: seq<Entry>, r: Replica, index: nat)
    requires LogIsExact(committed, r) && index < Position(r.slot)
    ensures LogIsExact(committed, r.(log := Purged(r.log, index), base := if r.base <= index then index + 1 else r.base))
  {
  }

  lemma RestartExact(codec: Codec<FsmState>, committed: seq<Entry>, r: Replica)
    requires LogIsExact(committed, r) && (IsWhole(r.disk) ==> LoadSnapshot(codec, Pair(r.disk)).Some?)
    ensures LogIsExact(committed, Restarted(codec, r))
  {
  }

  lemma TaskExact(codec: Codec<FsmState>, sys: System, step: Step)
    requires AllExact(sys) && Enabled(codec, sys, step)
    requires step.Capture? || step.Build? || step.Publish? || step.PersistData? || step.PersistMeta?
    ensures LogIsExact(sys.committed, ReplicaAfter(codec, sys, step))
  {
    var committed, r := sys.committed, sys.replicas[step.node];
    assert LogIsExact(committed, r);
    match step
    case Build(_, which) => BuildExact(codec, committed, r, which);
    case _ =>
  }

  lemma ReplicaStaysExact(codec: Codec<FsmState>, sys: System, step: Step)
    requires AllExact(sys) && Enabled(codec, sys, step) && !step.Commit? && !step.Join?
    ensures LogIsExact(sys.committed, ReplicaAfter(codec, sys, step))
  {
    var committed, r := sys.committed, sys.replicas[step.node];
    assert LogIsExact(committed, r);
    match step
    case Replicate(_, entries) => ReplicateExact(committed, r, entries);
    case Truncate(_, _) =>
    case ApplyNext(_, count) => ApplyExact(committed, r, count);
    case Install(_, from) =>
      assert LogIsExact(committed, sys.replicas[from]);
      InstallExact(codec, committed, r, sys.replicas[from].slot.value);
    case Purge(_, index) => PurgeExact(committed, r, index);
    case Restart(_) => RestartExact(codec, committed, r);
    case _ => TaskExact(codec, sys, step);
  }

  lemma CommitExact(sys: System, e: Entry)
    requires AllExact(sys) && e.logId.index == |sys.committed|
    ensures AllExact(sys.(committed := sys.committed + [e]))
  {
  }

  lemma StepStaysExact(codec: Codec<FsmState>, sys: System, step: Step)
    requires AllExact(sys) && Enabled(codec, sys, step)
    ensures AllExact(After(codec, sys, step))
  {
    if step.Commit? {
      CommitExact(sys, step.entry);
    } else if !step.Join? {
      ReplicaStaysExact(codec, sys, step);
    }
  }

  /** On every run, every log holds exactly the committed entries from its base to the applied position. */
  lemma {:induction false} RunIsExact(codec: Codec<FsmState>, states: seq<System>, steps: seq<Step>, k: nat)
    requires IsRun(codec, states, steps) && k < |states|
    ensures AllExact(states[k])
  {
    if k > 0 {
      RunIsExact(codec, states, steps, k - 1);
      StepStaysExact(codec, states[k - 1], steps[k - 1]);
    }
  }

  // ----- Reaching back to the slot -----

  /** The log still holds every committed entry after the slot's snapshot that the state has consumed. */
  ghost predicate ReachesBack(committed: seq<Entry>, r: Replica)
    requires Applied(r.image.lastApplied) <= |committed|
  {
    Holds(r.log, committed, Position(r.slot), Applied(r.image.lastApplied))
  }

  /** The log reaches back to the slot exactly if it was not cut beyond it. */
  lemma ReachesBackIff(committed: seq<Entry>, r: Replica)
    requires LogIsExact(committed, r)
    ensures ReachesBack(committed, r) <==> r.base <= Position(r.slot)
  {
    if Position(r.slot) < r.base {
      assert Position(r.slot) !in r.log;
    }
  }

  /**
   The last step that put a snapshot into the replica's slot published one that the log had already
   been cut beyond.
   */
  ghost predicate SlotIsBehind(codec: Codec<FsmState>, states: seq<System>, steps: seq<Step>, k: nat, n: RaftId)
    requires IsRun(codec, states, steps) && k <= |steps|
  {
    k > 0 &&
    var sys, step := states[k - 1], steps[k - 1];
    if step.Publish? && step.node == n then
      Enabled(codec, sys, step) && Position(Some(sys.replicas[n].publishing[step.which])) < sys.replicas[n].base
    else if (step.Restart? || step.Join?) && step.node == n then false
    else if step.Install? && step.node == n then
      && Enabled(codec, sys, step) && LoadSnapshot(codec, sys.replicas[step.from].slot.value).None?
      && SlotIsBehind(codec, states, steps, k - 1, n)
    else SlotIsBehind(codec, states, steps, k - 1, n)
  }

  /** What a step does to a replica's base and slot. */
  lemma BaseAndSlot(codec: Codec<FsmState>, sys: System, step: Step)
    requires Enabled(codec, sys, step) && !step.Commit? && !step.Join?
    ensures var r, r' := sys.replicas[step.node], ReplicaAfter(codec, sys, step);
            match step
            case Publish(_, which) => r'.base == r.base && r'.slot == Some(r.publishing[which])
            case Install(_, from) =>
              if LoadSnapshot(codec, sys.replicas[from].slot.value).None? then r' == r
              else r'.base == Position(r'.slot)
            case Restart(_) => r'.base == Position(r'.slot)
            case Purge(_, index) => r'.slot == r.slot && (r.base <= Position(r.slot) <==> r'.base <= Position(r.slot))
            case _ => r'.base == r.base && r'.slot == r.slot
  {
  }

  /**
   On every run, a replica's log reaches back to its slot, exactly unless the last snapshot that was
   put into the slot was published after the log had been cut beyond it. Whoever publishes can tell.
   */
  lemma {:induction false} RunReachesBackIff(
    codec: Codec<FsmState>, states: seq<System>, steps: seq<Step>, k: nat, n: RaftId)
    requires IsRun(codec, states, steps) && k < |states| && n in states[k].replicas
    ensures var r := states[k].replicas[n];
            Applied(r.image.lastApplied) <= |states[k].committed|
            && (ReachesBack(states[k].committed, r) <==> !SlotIsBehind(codec, states, steps, k, n))
  {
    RunIsExact(codec, states, steps, k);
    ReachesBackIff(states[k].committed, states[k].replicas[n]);
    BaseIsBehindIff(codec, states, steps, k, n);
  }

  lemma {:induction false} BaseIsBehindIff(
    codec: Codec<FsmState>, states: seq<System>, steps: seq<Step>, k: nat, n: RaftId)
    requires IsRun(codec, states, steps) && k < |states| && n in states[k].replicas
    ensures Position(states[k].replicas[n].slot) < states[k].replicas[n].base <==> SlotIsBehind(codec, states, steps, k, n)
  {
    if k > 0 {
      var sys, step := states[k - 1], steps[k - 1];
      assert Enabled(codec, sys, step) && states[k] == After(codec, sys, step);
      if !step.Commit? && !step.Join? {
        BaseAndSlot(codec, sys, step);
      }
      if n in sys.replicas {
        BaseIsBehindIff(codec, states, steps, k - 1, n);
      }
    }
  }

  // ----- Rebuilding -----

  /** Load a snapshot (or start empty) and apply what the log has from there up to `hi`. */
  function Rebuild(codec: Codec<FsmState>, snapshot: Option<Snapshot>, log: map<nat, Entry>, hi: nat): Option<Image>
    requires Position(snapshot) <= hi
  {
    var start := if snapshot.None? then Some(EmptyImage()) else LoadSnapshot(codec, snapshot.value);
    if start.None? then None
    else Some(ApplyEntries(start.value, Range(log, Position(snapshot), hi)))
  }

  /** A replica whose log reaches back to its slot rebuilds exactly its state from the two. */
  lemma RebuildsState(codec: Codec<FsmState>, committed: seq<Entry>, r: Replica)
    requires Indexed(committed) && ConsistentReplica(codec, committed, r)
    requires ReachesBack(committed, r) && Position(r.slot) <= Applied(r.image.lastApplied)
    ensures Rebuild(codec, r.slot, r.log, Applied(r.image.lastApplied)) == Some(r.image)
  {
    var lo, hi := Position(r.slot), Applied(r.image.lastApplied);
    var start := if r.slot.None? then EmptyImage() else LoadSnapshot(codec, r.slot.value).value;
    EmptyIsReplay(committed);
    RangeIsContiguous(r.log, committed, lo, hi);
    ReplayExtends(committed, start, hi - lo);
  }

  /** On every run in which restarts found files that agree, a slot that is not behind rebuilds the state. */
  lemma SlotRebuilds(codec: Codec<FsmState>, states: seq<System>, steps: seq<Step>, k: nat, n: RaftId)
    requires Lawful(codec) && IsRun(codec, states, steps) && SoundRestarts(states, steps, k)
    requires n in states[k].replicas && !SlotIsBehind(codec, states, steps, k, n)
    ensures var r := states[k].replicas[n];
            Position(r.slot) <= Applied(r.image.lastApplied)
            && Rebuild(codec, r.slot, r.log, Applied(r.image.lastApplied)) == Some(r.image)
  {
    RunIsConsistent(codec, states, steps, k);
    RunReachesBackIff(codec, states, steps, k, n);
    RunIsExact(codec, states, steps, k);
    assert LogIsExact(states[k].committed, states[k].replicas[n]);
    RebuildsState(codec, states[k].committed, states[k].replicas[n]);
  }
}
