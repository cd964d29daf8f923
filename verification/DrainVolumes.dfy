/** A drain takes the volumes off its node, so that nothing is bound to it any more. */
module DrainVolumes {
  import opened Types
  import opened Scheduler
  import opened Cluster
  import opened Volumes
  import opened Detachments
  import opened Drain
  import opened FsmLaws
  import Fsm

  /** The volume is not attached to the node. */
  predicate IsAway(s: FsmState, volume: string, mill: NodeId) {
    volume in s.volumes ==> s.volumes[volume].state != Attached(mill)
  }

  /** The event attaches some volume to a node of that name. */
  predicate Brings(s: FsmState, e: Event, mill: NodeId) {
    Commits(e) && e.command.VolumeAttached? && e.command.nodeId in s.nodes && s.nodes[e.command.nodeId].millId == mill
  }

  lemma AwayStep(s: FsmState, e: Event, volume: string, mill: NodeId)
    requires IsAway(s, volume, mill) && !Brings(s, e, mill)
    ensures IsAway(Effect(s, e), volume, mill)
  {
    if Commits(e) && !NamesVolume(e.command, volume) {
      VolumesFrame(s, e.command, volume);
    }
  }

  ghost predicate NoneBrought(states: seq<FsmState>, trace: seq<Event>, lo: nat, hi: nat, mill: NodeId) {
    hi <= |trace| < |states| && forall k | lo <= k < hi :: !Brings(states[k], trace[k], mill)
  }

  lemma {:induction false} StaysAway(
    states: seq<FsmState>, trace: seq<Event>, lo: nat, hi: nat, volume: string, mill: NodeId)
    requires IsRun(states, trace) && lo <= hi && NoneBrought(states, trace, lo, hi, mill)
    requires IsAway(states[lo], volume, mill)
    ensures IsAway(states[hi], volume, mill)
    decreases hi
  {
    if lo < hi {
      StaysAway(states, trace, lo, hi - 1, volume, mill);
      assert Happens(states, trace, hi - 1);
      AwayStep(states[hi - 1], trace[hi - 1], volume, mill);
    }
  }

  ghost predicate IsDetach(e: Event, volume: string) {
    e.Proposed? && e.command == VolumeDetached(volume)
  }

  /** Where the detaching of the i-th volume is proposed. */
  lemma {:induction false} DetachIsProposed(
    trace: seq<Event>, lo: nat, hi: nat, ds: seq<Detach>, driver: Driver, i: nat)
    returns (k: nat)
    requires DetachedAll(trace, lo, hi, ds, driver) && hi <= |trace| && i < |ds|
    ensures lo <= k < hi && IsDetach(trace[k], ds[i].volume)
    decreases |ds|
  {
    var n := |ds| - 1;
    DetachedOnly(trace, lo, ds[n].lo, ds[..n], driver);
    if i < n {
      k := DetachIsProposed(trace, lo, ds[n].lo, ds[..n], driver, i);
    } else {
      k := hi - 1;
    }
  }

  lemma {:induction false} ProposedIsDetach(
    trace: seq<Event>, lo: nat, hi: nat, ds: seq<Detach>, driver: Driver, k: nat)
    requires DetachedAll(trace, lo, hi, ds, driver) && lo <= k < hi <= |trace| && trace[k].Proposed?
    ensures exists i | 0 <= i < |ds| :: IsDetach(trace[k], ds[i].volume)
    decreases |ds|
  {
    var n := |ds| - 1;
    if k < ds[n].lo {
      ProposedIsDetach(trace, lo, ds[n].lo, ds[..n], driver, k);
      var i :| 0 <= i < n && IsDetach(trace[k], ds[..n][i].volume);
      assert IsDetach(trace[k], ds[i].volume);
    } else {
      assert IsDetach(trace[k], ds[n].volume);
    }
  }

  /** The detaching of the volume is proposed between the two positions. */
  ghost predicate IsDetached(trace: seq<Event>, lo: nat, hi: nat, volume: string)
    requires hi <= |trace|
  {
    exists k | lo <= k < hi :: IsDetach(trace[k], volume)
  }

  /** If anything is proposed, it is the detaching of one of the volumes. */
  ghost predicate DetachesOne(e: Event, volumes: set<string>) {
    e.Proposed? ==> exists v | v in volumes :: IsDetach(e, v)
  }

  /** Between two positions the detaching of exactly the given volumes is proposed. */
  ghost predicate DetachesExactly(trace: seq<Event>, lo: nat, hi: nat, volumes: set<string>) {
    && hi <= |trace|
    && (forall v | v in volumes :: IsDetached(trace, lo, hi, v))
    && (forall k | lo <= k < hi :: DetachesOne(trace[k], volumes))
  }

  lemma ListedIsDetached(trace: seq<Event>, lo: nat, hi: nat, ds: seq<Detach>, driver: Driver, volumes: set<string>)
    requires DetachedAll(trace, lo, hi, ds, driver) && hi <= |trace| && ListsEach(ds, volumes)
    ensures DetachesExactly(trace, lo, hi, volumes)
  {
    forall v | v in volumes ensures IsDetached(trace, lo, hi, v) {
      var i :| 0 <= i < |ds| && ds[i].volume == v;
      var k := DetachIsProposed(trace, lo, hi, ds, driver, i);
    }
    forall k | lo <= k < hi ensures DetachesOne(trace[k], volumes) {
      if trace[k].Proposed? {
        ProposedIsDetach(trace, lo, hi, ds, driver, k);
        var i :| 0 <= i < |ds| && IsDetach(trace[k], ds[i].volume);
        assert ds[i].volume in volumes;
      }
    }
  }

  lemma AttachedIsRead(states: seq<FsmState>, trace: seq<Event>, lo: nat, node: RaftId, d: Detachment)
    requires IsRun(states, trace) && Detached(trace, lo, node, d)
    ensures trace[d.read].volumes == VolumesAt(states[d.read], trace[d.read].mill)
    ensures node in states[d.named].nodes ==> trace[d.read].mill == states[d.named].nodes[node].millId
  {
    assert Happens(states, trace, d.read) && Happens(states, trace, d.named);
  }

  /**
   A drain reads which volumes are attached to its node, and between that and the read of what runs
   there it proposes to detach each of them, and no other.
   */
  lemma DrainDetachesExactly(
    states: seq<FsmState>, trace: seq<Event>, lo: nat, node: RaftId, ids: AllocId -> AllocId, c: DrainCourse)
    requires IsRun(states, trace) && IsDrain(trace, lo, node, ids, c)
    ensures c.begun < c.d.named < c.d.read < c.seen < |trace| && trace[c.d.read].AttachedAt?
    ensures DetachesExactly(trace, c.d.read + 1, c.seen, VolumesAt(states[c.d.read], trace[c.d.read].mill))
    ensures node in states[c.d.named].nodes ==> trace[c.d.read].mill == states[c.d.named].nodes[node].millId
  {
    AttachedIsRead(states, trace, c.begun + 1, node, c.d);
    DetachmentIsExact(trace, c.begun + 1, node, c.d, c.seen);
  }

  lemma DetachmentIsExact(trace: seq<Event>, lo: nat, node: RaftId, d: Detachment, seen: nat)
    requires Detached(trace, lo, node, d) && d.hi <= seen && Quiet(trace, d.hi, seen)
    ensures DetachesExactly(trace, d.read + 1, seen, trace[d.read].volumes)
  {
    DetachmentDetaches(trace, lo, node, d);
    QuietAfter(trace, d.read + 1, d.hi, seen, trace[d.read].volumes);
  }

  lemma DetachmentDetaches(trace: seq<Event>, lo: nat, node: RaftId, d: Detachment)
    requires Detached(trace, lo, node, d)
    ensures DetachesExactly(trace, d.read + 1, d.hi, trace[d.read].volumes)
  {
    ListedIsDetached(trace, d.read + 1, d.hi, d.ds, d.driver, trace[d.read].volumes);
  }

  lemma QuietAfter(trace: seq<Event>, lo: nat, hi: nat, seen: nat, volumes: set<string>)
    requires DetachesExactly(trace, lo, hi, volumes) && hi <= seen && Quiet(trace, hi, seen)
    ensures DetachesExactly(trace, lo, seen, volumes)
  {
    forall v | v in volumes ensures IsDetached(trace, lo, seen, v) {
      assert IsDetached(trace, lo, hi, v);
    }
  }

  /** Every proposal to detach a volume was taken. */
  ghost predicate DetachesTaken(trace: seq<Event>, lo: nat, hi: nat) {
    hi <= |trace| && forall k | lo <= k < hi && trace[k].Proposed? :: trace[k].ok
  }

  lemma DetachedIsAway(
    states: seq<FsmState>, trace: seq<Event>, lo: nat, hi: nat, mill: NodeId, v: string)
    requires IsRun(states, trace) && lo <= hi <= |trace| && DetachesExactly(trace, lo, hi, VolumesAt(states[lo], mill))
    requires DetachesTaken(trace, lo, hi) && NoneBrought(states, trace, lo, hi, mill)
    ensures IsAway(states[hi], v, mill)
  {
    if IsAway(states[lo], v, mill) {
      StaysAway(states, trace, lo, hi, v, mill);
    } else {
      assert v in VolumesAt(states[lo], mill) && IsDetached(trace, lo, hi, v);
      var k :| lo <= k < hi && IsDetach(trace[k], v);
      assert Happens(states, trace, k) && trace[k].ok;
      StaysAway(states, trace, k + 1, hi, v, mill);
    }
  }

  /**
   If these proposals are taken and nobody attaches a volume to the node meanwhile, no volume is
   attached to it when the drain begins to move allocations.
   */
  lemma DrainFreesVolumes(
    states: seq<FsmState>, trace: seq<Event>, lo: nat, node: RaftId, ids: AllocId -> AllocId, c: DrainCourse, v: string)
    requires IsRun(states, trace) && IsDrain(trace, lo, node, ids, c)
    requires DetachesTaken(trace, c.d.read + 1, c.seen)
    requires NoneBrought(states, trace, c.d.read + 1, c.seen, trace[c.d.read].mill)
    ensures IsAway(states[c.seen], v, trace[c.d.read].mill)
  {
    DrainDetachesExactly(states, trace, lo, node, ids, c);
    assert Happens(states, trace, c.d.read);
    DetachedIsAway(states, trace, c.d.read + 1, c.seen, trace[c.d.read].mill, v);
  }

  /** From then on, unless others attach one, no request is bound to the draining node. */
  lemma NothingIsPinned(
    states: seq<FsmState>, trace: seq<Event>, lo: nat, node: RaftId, ids: AllocId -> AllocId, c: DrainCourse,
    request: ScheduleRequest, k: nat)
    requires IsRun(states, trace) && IsDrain(trace, lo, node, ids, c) && c.seen <= k <= |trace|
    requires DetachesTaken(trace, c.d.read + 1, c.seen)
    requires NoneBrought(states, trace, c.d.read + 1, k, trace[c.d.read].mill)
    ensures Pin(states[k], request) != Some(trace[c.d.read].mill)
  {
    if request.volume.Some? {
      DrainFreesVolumes(states, trace, lo, node, ids, c, request.volume.value);
      StaysAway(states, trace, c.seen, k, request.volume.value, trace[c.d.read].mill);
    }
  }
}
