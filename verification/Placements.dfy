/** Where starts place their allocations, on every run: there is room, and recording them keeps it that way. */
module Placements {
  import opened Types
  import opened Scheduler
  import opened Cluster
  import opened Deploy
  import opened Capacity
  import Fsm

  /** The allocation is placed where there was room for it, at the volume's node or else at a best place. */
  lemma PlacedHadRoom(
    states: seq<FsmState>, trace: seq<Event>, lo: nat, name: string, def: ServiceDef, id: AllocId, node: NodeId,
    picked: nat, entered: nat)
    requires Cluster.IsRun(states, trace) && Deploy.Placed(trace, lo, name, def, id, node, picked, entered)
    ensures BestPlace(states[picked], trace[picked].offered, name, def)
    ensures states[picked].nodes[trace[picked].offered].millId == node
  {
    assert Happens(states, trace, picked);
    PickedIsBest(states[picked], trace[picked].node, trace[picked].offered, name, def);
  }

  lemma StartedHadRoom(
    states: seq<FsmState>, trace: seq<Event>, lo: nat, name: string, def: ServiceDef, id: AllocId, w: Launch)
    requires Cluster.IsRun(states, trace) && Started(trace, lo, name, def, id, w)
    ensures BestPlace(states[w.picked], trace[w.picked].offered, name, def)
    ensures states[w.picked].nodes[trace[w.picked].offered].millId == trace[w.picked].node
    ensures trace[w.ran].Sent? && trace[w.ran].node == trace[w.picked].node
  {
    assert Happens(states, trace, w.picked);
    PickedIsBest(states[w.picked], trace[w.picked].node, trace[w.picked].offered, name, def);
  }

  /** A start that ends with the scheduling read found no room, on any node and in particular on its volume's. */
  lemma FailedForRoom(
    states: seq<FsmState>, trace: seq<Event>, lo: nat, hi: nat, name: string, def: ServiceDef, id: AllocId, f: Failure)
    requires Cluster.IsRun(states, trace) && FailedStart(trace, lo, hi, name, def, id, f) && trace[hi - 1].NothingFits?
    ensures var s := states[hi - 1]; forall n :: !RoomFor(s, n, def)
  {
    assert Happens(states, trace, hi - 1);
    NothingFitsIff(states[hi - 1], name, def);
  }

  /** Nothing is committed between two positions. */
  ghost predicate Uninterrupted(trace: seq<Event>, lo: nat, hi: nat) {
    hi <= |trace| && forall k | lo <= k < hi :: !Commits(trace[k])
  }

  lemma {:induction false} NothingChanges(states: seq<FsmState>, trace: seq<Event>, lo: nat, hi: nat)
    requires Cluster.IsRun(states, trace) && lo <= hi && Uninterrupted(trace, lo, hi)
    ensures states[hi] == states[lo]
    decreases hi
  {
    if lo < hi {
      NothingChanges(states, trace, lo, hi - 1);
      assert Happens(states, trace, hi - 1);
    }
  }

  /** The allocation as a start records it: the service's own resources, not yet running, without an address. */
  predicate IsRecorded(s: FsmState, id: AllocId, mill: NodeId, name: string, def: ServiceDef) {
    id in s.allocs && s.allocs[id] == Alloc(id, mill, name, Service, Pulling, None, def.resources, None)
  }

  lemma StartedIsRecorded(
    states: seq<FsmState>, trace: seq<Event>, lo: nat, name: string, def: ServiceDef, id: AllocId, w: Launch)
    requires Cluster.IsRun(states, trace) && Started(trace, lo, name, def, id, w)
    requires trace[w.entered].id.value in states[w.scheduled].nodes
    ensures IsRecorded(states[w.scheduled + 1], id, states[w.scheduled].nodes[trace[w.entered].id.value].millId, name, def)
  {
    assert Happens(states, trace, w.scheduled);
  }

  lemma RecordingFits(s: FsmState, n: RaftId, name: string, def: ServiceDef, id: AllocId)
    requires Sound(s) && RoomFor(s, n, def) && def.resources.cpu >= 0.0
    ensures Sound(Fsm.Apply(s, Scheduling(id, n, name, def)).0)
    ensures IsRecorded(Fsm.Apply(s, Scheduling(id, n, name, def)).0, id, s.nodes[n].millId, name, def)
  {
    AvailableIsExact(s, n);
    LoadRest(s.allocs, s.nodes[n].millId, id);
    ScheduledKeepsSoundIff(s, Scheduling(id, n, name, def));
  }

  /**
   A start that is not interrupted between its scheduling read and its recording keeps the state
   sound: it overcommits nothing.
   */
  lemma StartKeepsSound(
    states: seq<FsmState>, trace: seq<Event>, lo: nat, name: string, def: ServiceDef, id: AllocId, w: Launch)
    requires Cluster.IsRun(states, trace) && Started(trace, lo, name, def, id, w) && def.resources.cpu >= 0.0
    requires Uninterrupted(trace, w.picked, w.scheduled) && Sound(states[w.picked])
    ensures Sound(states[w.scheduled + 1])
    ensures IsRecorded(states[w.scheduled + 1], id, trace[w.picked].node, name, def)
  {
    var n := trace[w.picked].offered;
    EnteredIsOffered(states, trace, lo, name, def, id, w);
    RecordingFits(states[w.picked], n, name, def, id);
    RecordedAfter(states, trace, lo, name, def, id, w);
  }

  /** Nothing having changed, the node found by its name is the one that was picked. */
  lemma EnteredIsOffered(
    states: seq<FsmState>, trace: seq<Event>, lo: nat, name: string, def: ServiceDef, id: AllocId, w: Launch)
    requires Cluster.IsRun(states, trace) && Started(trace, lo, name, def, id, w)
    requires Uninterrupted(trace, w.picked, w.scheduled) && Fsm.UniqueMills(states[w.picked])
    ensures trace[w.entered].id.value == trace[w.picked].offered
    ensures RoomFor(states[w.picked], trace[w.picked].offered, def)
    ensures states[w.picked].nodes[trace[w.picked].offered].millId == trace[w.picked].node
  {
    StartedHadRoom(states, trace, lo, name, def, id, w);
    NothingChanges(states, trace, w.picked, w.entered);
    assert Happens(states, trace, w.entered);
  }

  lemma RecordedAfter(
    states: seq<FsmState>, trace: seq<Event>, lo: nat, name: string, def: ServiceDef, id: AllocId, w: Launch)
    requires Cluster.IsRun(states, trace) && Started(trace, lo, name, def, id, w)
    requires Uninterrupted(trace, w.picked, w.scheduled)
    ensures states[w.scheduled + 1]
            == Fsm.Apply(states[w.picked], Scheduling(id, trace[w.entered].id.value, name, def)).0
  {
    NothingChanges(states, trace, w.picked, w.scheduled);
    assert Happens(states, trace, w.scheduled);
  }

  // ----- What starts come to -----

  /** When the wait of a start ended, the allocation was running, healthy, or had stopped already. */
  lemma SeenIsSettled(
    states: seq<FsmState>, trace: seq<Event>, lo: nat, name: string, def: ServiceDef, id: AllocId, w: Launch)
    requires Cluster.IsRun(states, trace) && Started(trace, lo, name, def, id, w)
    ensures id in states[w.seen].allocs
    ensures var status := states[w.seen].allocs[id].status; status == Running || status == Healthy || status.Stopped?
  {
    assert Happens(states, trace, w.seen);
  }

  /** The address that answered was that of the allocation. */
  lemma AnsweredWasItsOwn(
    states: seq<FsmState>, trace: seq<Event>, lo: nat, name: string, def: ServiceDef, id: AllocId, w: Launch)
    requires Cluster.IsRun(states, trace) && Started(trace, lo, name, def, id, w)
    ensures id in states[w.bound].allocs && states[w.bound].allocs[id].address.Some?
    ensures trace[w.probed] == Probed(states[w.bound].allocs[id].address.value, true)
  {
    assert Happens(states, trace, w.bound);
  }

  /** A start that failed after the recording leaves the allocation failed, if it is still there and consensus agrees. */
  lemma GivenUpIsFailed(
    states: seq<FsmState>, trace: seq<Event>, lo: nat, hi: nat, name: string, def: ServiceDef, id: AllocId, f: Failure)
    requires Cluster.IsRun(states, trace) && FailedStart(trace, lo, hi, name, def, id, f) && f.Recorded?
    ensures trace[hi - 1].Proposed?
    ensures trace[hi - 1].ok && id in states[hi - 1].allocs ==>
              id in states[hi].allocs && states[hi].allocs[id].status.Failed?
  {
    assert Happens(states, trace, hi - 1);
  }
}
