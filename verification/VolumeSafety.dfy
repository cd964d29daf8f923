/**
 Where volumes are: what the volume commands mean for placement, and that a service's volumes are on
 the prepared node when its replicas are placed.
 */
module VolumeSafety {
  import opened Types
  import opened Scheduler
  import opened Cluster
  import opened Deploy
  import opened Volumes
  import opened Rolling
  import opened RunDeploy
  import opened FsmLaws
  import Fsm

  // ----- What a command means for placement -----

  /** A volume that was attached to a node binds every request for it to that node. */
  lemma AttachedPins(s: FsmState, name: string, node: RaftId, request: ScheduleRequest)
    requires name in s.volumes && node in s.nodes && request.volume == Some(name)
    ensures var (after, response) := Fsm.Apply(s, VolumeAttached(name, node));
            && response == Accepted && Pin(after, request) == Some(s.nodes[node].millId)
            && forall mill, n :: Sees(after, Picked(request, mill, n)) ==> mill == s.nodes[node].millId
  {
  }

  /** One that was created, detached or destroyed binds nothing. */
  lemma FreedPinsNothing(s: FsmState, c: Command, request: ScheduleRequest)
    requires c.VolumeCreated? || c.VolumeDestroyed? || (c.VolumeDetached? && c.name in s.volumes)
    requires request.volume == Some(c.name)
    ensures Fsm.Apply(s, c).1 == Accepted && Pin(Fsm.Apply(s, c).0, request) == None
  {
  }

  // ----- Prepared volumes -----

  function Sight(s: FsmState, name: string, node: RaftId): (Option<FsmVolume>, Option<FsmNode>) {
    (Get(s.volumes, name), Identity(s, node))
  }

  /** Others leave the volume and the registration of the node alone. */
  ghost predicate OthersLeave(trace: seq<Event>, lo: nat, hi: nat, name: string, node: RaftId) {
    && hi <= |trace|
    && forall k | lo <= k < hi && trace[k].Other? ::
         !NamesVolume(trace[k].command, name) && !ChangesNode(trace[k].command, node)
  }

  predicate LeavesBoth(e: Event, name: string, node: RaftId) {
    Commits(e) ==> !NamesVolume(e.command, name) && !ChangesNode(e.command, node)
  }

  lemma SightFrame(s: FsmState, e: Event, name: string, node: RaftId)
    requires LeavesBoth(e, name, node)
    ensures Sight(Effect(s, e), name, node) == Sight(s, name, node)
  {
    if Commits(e) {
      VolumesFrame(s, e.command, name);
      IdentityFrame(s, e.command, node);
    }
  }

  lemma SightStays(states: seq<FsmState>, trace: seq<Event>, lo: nat, hi: nat, name: string, node: RaftId)
    requires IsRun(states, trace) && lo <= hi <= |trace|
    requires forall k | lo <= k < hi :: LeavesBoth(trace[k], name, node)
    ensures Sight(states[hi], name, node) == Sight(states[lo], name, node)
  {
    var read := (s: FsmState) => Sight(s, name, node);
    forall k | lo <= k < hi ensures read(states[k + 1]) == read(states[k]) {
      assert Happens(states, trace, k);
      SightFrame(states[k], trace[k], name, node);
    }
    Unchanged(states, read, lo, hi);
  }

  lemma TakenThen(states: seq<FsmState>, trace: seq<Event>, lo: nat, hi: nat, c: Command, name: string, node: RaftId)
    requires IsRun(states, trace) && Takes(trace, lo, hi, c) && OthersLeave(trace, lo, hi, name, node)
    ensures Sight(states[hi - 1], name, node) == Sight(states[lo], name, node)
    ensures states[hi] == Fsm.Apply(states[hi - 1], c).0
  {
    SightStays(states, trace, lo, hi - 1, name, node);
    assert Happens(states, trace, hi - 1);
  }

  lemma FreedIsFree(
    states: seq<FsmState>, trace: seq<Event>, lo: nat, called: nat, hi: nat, name: string, node: RaftId,
    state: Option<VolumeState>, driver: Driver)
    requires IsRun(states, trace) && lo <= hi && Frees(trace, lo, called, hi, name, state, driver)
    requires OthersLeave(trace, lo, hi, name, node)
    requires state == if name in states[lo].volumes then Some(states[lo].volumes[name].state) else None
    ensures name in states[hi].volumes && states[hi].volumes[name].state == Unattached
    ensures Identity(states[hi], node) == Identity(states[lo], node)
  {
    if state != Some(Unattached) {
      var c := trace[hi - 1].command;
      SightStays(states, trace, lo, called, name, node);
      TakenThen(states, trace, called, hi, c, name, node);
      IdentityFrame(states[hi - 1], c, node);
    }
  }

  lemma AttachedIsThere(
    states: seq<FsmState>, trace: seq<Event>, lo: nat, asked: nat, called: nat, hi: nat, name: string, node: RaftId,
    driver: Driver)
    requires IsRun(states, trace) && lo <= hi && Attaches(trace, lo, asked, called, hi, name, node, driver)
    requires OthersLeave(trace, lo, hi, name, node) && name in states[lo].volumes && node in states[lo].nodes
    ensures name in states[hi].volumes && states[hi].volumes[name].state == Attached(states[lo].nodes[node].millId)
    ensures Identity(states[hi], node) == Identity(states[lo], node)
  {
    SightStays(states, trace, lo, called, name, node);
    TakenThen(states, trace, called, hi, VolumeAttached(name, node), name, node);
    IdentityFrame(states[hi - 1], VolumeAttached(name, node), node);
  }

  /** The volume is on the node, or it does not exist and there is nobody to create it. */
  ghost predicate IsReady(s: FsmState, name: string, mill: NodeId, driver: Driver) {
    if name in s.volumes then s.volumes[name].state == Attached(mill) else driver.None?
  }

  /** What was read of the volume and the node is so when the reads are done, as it was before. */
  lemma LookedIsSo(
    states: seq<FsmState>, trace: seq<Event>, lo: nat, read: nat, named: nat, name: string, node: RaftId)
    requires IsRun(states, trace) && Looks(trace, lo, read, named, name, node)
    requires OthersLeave(trace, lo, named + 1, name, node)
    ensures Sight(states[named + 1], name, node) == Sight(states[lo], name, node)
    ensures Sees(states[named + 1], trace[read]) && Sees(states[named + 1], trace[named])
  {
    SightStays(states, trace, lo, named + 1, name, node);
    SightStays(states, trace, read, named + 1, name, node);
    SightStays(states, trace, named, named + 1, name, node);
    assert Happens(states, trace, read) && Happens(states, trace, named);
  }

  lemma DoneIsReady(
    states: seq<FsmState>, trace: seq<Event>, hi: nat, name: string, node: RaftId, driver: Driver, v: VolumeRun)
    requires IsRun(states, trace) && v.lo <= hi <= |trace| && VolumeDone(trace, hi, name, node, driver, v)
    requires OthersLeave(trace, v.lo, hi, name, node) && node in states[v.lo].nodes
    ensures Identity(states[hi], node) == Identity(states[v.lo], node)
    ensures IsReady(states[hi], name, states[v.lo].nodes[node].millId, driver)
  {
    LookedIsSo(states, trace, v.lo, v.read, v.named, name, node);
    if !IsDone(trace[v.read].state, trace[v.named].named, driver) {
      MovedIsReady(states, trace, v.named + 1, hi, name, node, trace[v.read].state, driver, v);
    }
  }

  lemma MovedIsReady(
    states: seq<FsmState>, trace: seq<Event>, lo: nat, hi: nat, name: string, node: RaftId, state: Option<VolumeState>,
    driver: Driver, v: VolumeRun)
    requires IsRun(states, trace) && lo <= v.freed <= hi <= |trace| && Moves(trace, lo, hi, name, node, state, driver, v)
    requires OthersLeave(trace, lo, hi, name, node) && node in states[lo].nodes
    requires state == if name in states[lo].volumes then Some(states[lo].volumes[name].state) else None
    ensures Identity(states[hi], node) == Identity(states[lo], node)
    ensures IsReady(states[hi], name, states[lo].nodes[node].millId, driver)
  {
    FreedIsFree(states, trace, lo, v.freeing, v.freed, name, node, state, driver);
    AttachedIsThere(states, trace, v.freed, v.asked, v.attaching, hi, name, node, driver);
  }

  /** What is proposed for a volume names that volume. */
  lemma DoneNames(trace: seq<Event>, hi: nat, name: string, node: RaftId, driver: Driver, v: VolumeRun, k: nat)
    requires VolumeDone(trace, hi, name, node, driver, v) && v.lo <= k < hi <= |trace| && trace[k].Proposed?
    ensures NamesVolume(trace[k].command, name)
  {
  }

  /** The steps for a volume, if any, leave the others alone. */
  lemma OneLeavesOthers(
    states: seq<FsmState>, trace: seq<Event>, hi: nat, volume: VolumeDef, node: RaftId, driver: Driver, v: VolumeRun,
    name: string)
    requires IsRun(states, trace) && v.lo <= hi <= |trace| && OneDone(trace, hi, volume, node, driver, v)
    requires OthersLeave(trace, v.lo, hi, name, node) && volume.name != name
    ensures Sight(states[hi], name, node) == Sight(states[v.lo], name, node)
  {
    forall k | v.lo <= k < hi ensures LeavesBoth(trace[k], name, node) {
      if trace[k].Proposed? {
        DoneNames(trace, hi, volume.name, node, driver, v, k);
      }
    }
    SightStays(states, trace, v.lo, hi, name, node);
  }

  predicate Touches(c: Command, volumes: seq<VolumeDef>, node: RaftId) {
    ChangesNode(c, node) || exists i | 0 <= i < |volumes| :: NamesVolume(c, volumes[i].name)
  }

  /** Others leave all the volumes and the registration of the node alone. */
  ghost predicate AllLeft(trace: seq<Event>, lo: nat, hi: nat, volumes: seq<VolumeDef>, node: RaftId) {
    hi <= |trace| && forall k | lo <= k < hi && trace[k].Other? :: !Touches(trace[k].command, volumes, node)
  }

  lemma OneLeft(trace: seq<Event>, lo: nat, from: nat, to: nat, hi: nat, volumes: seq<VolumeDef>, node: RaftId, i: nat)
    requires AllLeft(trace, lo, hi, volumes, node) && lo <= from && to <= hi && i < |volumes|
    ensures OthersLeave(trace, from, to, volumes[i].name, node)
  {
  }

  lemma {:induction false} ChainIsForward(
    trace: seq<Event>, lo: nat, hi: nat, volumes: seq<VolumeDef>, node: RaftId, driver: Driver, runs: seq<VolumeRun>)
    requires AllDone(trace, lo, hi, volumes, node, driver, runs)
    ensures lo <= hi
    decreases |runs|
  {
    if runs != [] {
      ChainIsForward(trace, lo, runs[|runs| - 1].lo, volumes, node, driver, runs[..|runs| - 1]);
    }
  }

  /** The node stays registered as it was. */
  lemma {:induction false} ChainKeepsNode(
    states: seq<FsmState>, trace: seq<Event>, lo: nat, hi: nat, volumes: seq<VolumeDef>, node: RaftId, driver: Driver,
    runs: seq<VolumeRun>)
    requires IsRun(states, trace) && lo <= hi <= |trace| && AllDone(trace, lo, hi, volumes, node, driver, runs)
    requires AllLeft(trace, lo, hi, volumes, node) && node in states[lo].nodes
    ensures Identity(states[hi], node) == Identity(states[lo], node)
    decreases |runs|
  {
    if runs != [] {
      var n := |runs| - 1;
      ChainIsForward(trace, lo, runs[n].lo, volumes, node, driver, runs[..n]);
      ChainKeepsNode(states, trace, lo, runs[n].lo, volumes, node, driver, runs[..n]);
      OneLeft(trace, lo, runs[n].lo, hi, hi, volumes, node, n);
      if !volumes[n].ephemeral {
        DoneIsReady(states, trace, hi, volumes[n].name, node, driver, runs[n]);
      }
    }
  }

  /** After the steps for all volumes each persistent one is ready, also one that is listed twice. */
  lemma {:induction false} ChainIsReady(
    states: seq<FsmState>, trace: seq<Event>, lo: nat, hi: nat, volumes: seq<VolumeDef>, node: RaftId, driver: Driver,
    runs: seq<VolumeRun>, i: nat)
    requires IsRun(states, trace) && lo <= hi <= |trace| && AllDone(trace, lo, hi, volumes, node, driver, runs)
    requires AllLeft(trace, lo, hi, volumes, node) && node in states[lo].nodes
    requires i < |runs| && i < |volumes| && !volumes[i].ephemeral
    ensures IsReady(states[hi], volumes[i].name, states[lo].nodes[node].millId, driver)
    decreases |runs|
  {
    var n := |runs| - 1;
    ChainIsForward(trace, lo, runs[n].lo, volumes, node, driver, runs[..n]);
    if i < n {
      ChainIsReady(states, trace, lo, runs[n].lo, volumes, node, driver, runs[..n], i);
    }
    LastOfChain(states, trace, lo, hi, volumes, node, driver, runs, i);
  }

  lemma LastOfChain(
    states: seq<FsmState>, trace: seq<Event>, lo: nat, hi: nat, volumes: seq<VolumeDef>, node: RaftId, driver: Driver,
    runs: seq<VolumeRun>, i: nat)
    requires IsRun(states, trace) && lo <= hi <= |trace| && AllDone(trace, lo, hi, volumes, node, driver, runs)
    requires AllLeft(trace, lo, hi, volumes, node) && node in states[lo].nodes
    requires i < |runs| && i < |volumes| && !volumes[i].ephemeral && lo <= runs[|runs| - 1].lo
    requires i < |runs| - 1 ==>
               IsReady(states[runs[|runs| - 1].lo], volumes[i].name, states[lo].nodes[node].millId, driver)
    ensures IsReady(states[hi], volumes[i].name, states[lo].nodes[node].millId, driver)
  {
    var n := |runs| - 1;
    ChainKeepsNode(states, trace, lo, runs[n].lo, volumes, node, driver, runs[..n]);
    OneLeft(trace, lo, runs[n].lo, hi, hi, volumes, node, n);
    OneLeft(trace, lo, runs[n].lo, hi, hi, volumes, node, i);
    OneMoreReady(states, trace, hi, volumes[n], node, driver, runs[n], volumes[i].name);
  }

  /** After the steps for one more volume that volume is ready, and so are those that were. */
  lemma OneMoreReady(
    states: seq<FsmState>, trace: seq<Event>, hi: nat, volume: VolumeDef, node: RaftId, driver: Driver, v: VolumeRun,
    name: string)
    requires IsRun(states, trace) && v.lo <= hi <= |trace| && OneDone(trace, hi, volume, node, driver, v)
    requires OthersLeave(trace, v.lo, hi, name, node) && OthersLeave(trace, v.lo, hi, volume.name, node)
    requires node in states[v.lo].nodes
    requires || (!volume.ephemeral && volume.name == name)
             || IsReady(states[v.lo], name, states[v.lo].nodes[node].millId, driver)
    ensures IsReady(states[hi], name, states[v.lo].nodes[node].millId, driver)
  {
    if !volume.ephemeral && volume.name == name {
      DoneIsReady(states, trace, hi, name, node, driver, v);
    } else if !volume.ephemeral {
      OneLeavesOthers(states, trace, hi, volume, node, driver, v, name);
    }
  }

  /**
   After a preparation, as long as others leave the volume and the node alone and the operation only
   starts allocations, every persistent volume of the service is attached to the node that was found.
   */
  lemma PreparedIsReady(
    states: seq<FsmState>, trace: seq<Event>, lo: nat, def: ServiceDef, p: Preparation, i: nat, k: nat)
    requires IsRun(states, trace) && Prepared(trace, lo, def, p) && p.hi <= k <= |trace|
    requires AllLeft(trace, p.first, k, def.volumes, p.node) && Harmless(trace, p.hi, k)
    requires i < |def.volumes| && !def.volumes[i].ephemeral
    ensures p.node in states[p.first].nodes && states[p.first].nodes[p.node].status == Ready
    ensures IsReady(states[k], def.volumes[i].name, states[p.first].nodes[p.node].millId, p.driver)
  {
    assert Happens(states, trace, p.first);
    ChainIsForward(trace, p.first + 1, p.hi, def.volumes, p.node, p.driver, p.runs);
    ChainIsReady(states, trace, p.first + 1, p.hi, def.volumes, p.node, p.driver, p.runs, i);
    OneLeft(trace, p.first, p.hi, k, k, def.volumes, p.node, i);
    StaysReady(states, trace, p.hi, k, def.volumes[i].name, p.node);
  }

  lemma StaysReady(states: seq<FsmState>, trace: seq<Event>, lo: nat, hi: nat, name: string, node: RaftId)
    requires IsRun(states, trace) && lo <= hi && OthersLeave(trace, lo, hi, name, node) && Harmless(trace, lo, hi)
    ensures Get(states[hi].volumes, name) == Get(states[lo].volumes, name)
  {
    SightStays(states, trace, lo, hi, name, node);
  }

  /**
   When a replica of a service is placed, every persistent volume of the service is attached to the node
   prepared for it; and if its first volume is one, the replica is placed there.
   */
  lemma ReplicaFollowsVolumes(
    states: seq<FsmState>, trace: seq<Event>, lo: nat, name: string, def: ServiceDef, p: Preparation, from: nat,
    id: AllocId, w: Launch, i: nat)
    requires IsRun(states, trace) && Prepared(trace, lo, def, p) && p.hi <= from && Started(trace, from, name, def, id, w)
    requires AllLeft(trace, p.first, w.picked, def.volumes, p.node) && Harmless(trace, p.hi, w.picked)
    requires i < |def.volumes| && !def.volumes[i].ephemeral
    ensures p.node in states[p.first].nodes
    ensures var mill := states[p.first].nodes[p.node].millId;
            && IsReady(states[w.picked], def.volumes[i].name, mill, p.driver)
            && (i == 0 && def.volumes[0].name in states[w.picked].volumes ==> trace[w.picked].node == mill)
  {
    PreparedIsReady(states, trace, lo, def, p, i, w.picked);
    assert Happens(states, trace, w.picked);
    PickedIsBest(states[w.picked], trace[w.picked].node, trace[w.picked].offered, name, def);
  }

  /** So it is in every update of which no volume failed. */
  lemma UpdateFollowsVolumes(
    states: seq<FsmState>, trace: seq<Event>, lo: nat, name: string, def: ServiceDef, ids: seq<AllocId>,
    r: UpdateResult, o: Course, j: nat, i: nat)
    requires IsRun(states, trace) && AllOrNothing(trace, lo, name, def, ids, r, o) && !r.NoNode? && !r.VolumeError?
    requires j < |o.up| && i < |def.volumes| && !def.volumes[i].ephemeral
    requires AllLeft(trace, o.prep.first, o.up[j].launch.picked, def.volumes, o.prep.node)
    ensures o.prep.node in states[o.prep.first].nodes
    ensures var k, mill := o.up[j].launch.picked, states[o.prep.first].nodes[o.prep.node].millId;
            && IsReady(states[k], def.volumes[i].name, mill, o.prep.driver)
            && (i == 0 && def.volumes[0].name in states[k].volumes ==> trace[k].node == mill)
  {
    LaunchInUpdate(trace, name, def, ids, r, o, j);
    HarmlessUntil(trace, lo, o, o.up[j].launch.picked);
    ReplicaFollowsVolumes(states, trace, lo, name, def, o.prep, o.seen + 1, ids[j], o.up[j].launch, i);
  }

  lemma LaunchInUpdate(
    trace: seq<Event>, name: string, def: ServiceDef, ids: seq<AllocId>, r: UpdateResult, o: Course, j: nat)
    requires Replaced(trace, name, def, ids, r, o) && j < |o.up|
    ensures |o.up| <= |ids| && Started(trace, o.seen + 1, name, def, ids[j], o.up[j].launch)
    ensures o.up[j].launch.picked < o.mid && Harmless(trace, o.seen + 1, o.mid) && trace[o.seen].Listed?
  {
    assert ReplicaUp(trace, o.seen + 1, name, def, ids[j], o.up[j]) && o.up[j].found < o.mid;
  }

  lemma HarmlessUntil(trace: seq<Event>, lo: nat, o: Course, k: nat)
    requires o.prep.hi <= o.seen < k <= o.mid <= |trace| && Quiet(trace, o.prep.hi, o.seen) && trace[o.seen].Listed?
    requires Harmless(trace, o.seen + 1, o.mid)
    ensures Harmless(trace, o.prep.hi, k)
  {
  }

  /** And in every deploy of a new service. */
  lemma DeployFollowsVolumes(
    states: seq<FsmState>, trace: seq<Event>, lo: nat, name: string, def: ServiceDef, ids: seq<AllocId>,
    r: UpdateResult, o: Course, j: nat, i: nat)
    requires IsRun(states, trace) && DeployedAs(trace, lo, name, def, ids, r, o) && !r.NoNode? && !r.VolumeError?
    requires j < |o.up| && i < |def.volumes| && !def.volumes[i].ephemeral
    requires AllLeft(trace, o.prep.first, o.up[j].launch.picked, def.volumes, o.prep.node)
    ensures o.prep.node in states[o.prep.first].nodes
    ensures var k, mill := o.up[j].launch.picked, states[o.prep.first].nodes[o.prep.node].millId;
            && IsReady(states[k], def.volumes[i].name, mill, o.prep.driver)
            && (i == 0 && def.volumes[0].name in states[k].volumes ==> trace[k].node == mill)
  {
    ReplicaFollowsVolumes(states, trace, lo, name, def, o.prep, o.mid, ids[j], o.up[j].launch, i);
  }
}
