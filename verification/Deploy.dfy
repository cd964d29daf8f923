/**
 Starting one allocation: choosing a node, recording the allocation there, running it and waiting
 until it is healthy, with others committing commands between any two steps.
 */
module Deploy {
  import opened Types
  import opened Scheduler
  import opened Cluster
  import Capacity
  import Fsm

  function RequestFor(name: string, def: ServiceDef): ScheduleRequest {
    ScheduleRequest(def.resources, name, Service, if def.volumes == [] then None else Some(def.volumes[0].name))
  }

  function Scheduling(id: AllocId, node: RaftId, name: string, def: ServiceDef): Command {
    AllocScheduled(id, node, name, Service, None, def.resources)
  }

  /** The wait for an allocation ends well if it is active, or has already stopped. */
  predicate Runs(status: Option<AllocStatus>) {
    status.Some? && (status.value.IsActive() || status.value.Stopped?)
  }

  // ----- Where a service may run -----

  /** The node is ready, has the resources of the service to spare, and its first volume is not attached elsewhere. */
  ghost predicate RoomFor(s: FsmState, n: RaftId, def: ServiceDef) {
    && n in s.nodes && s.nodes[n].status == Ready
    && var free := Capacity.Available(s, n).value;
    && def.resources.cpu <= free.cpuAvailable && def.resources.memory <= free.memoryAvailable
    && (def.volumes != [] && IsAttached(s, def.volumes[0].name) ==>
          s.volumes[def.volumes[0].name].state == Attached(s.nodes[n].millId))
  }

  predicate IsAttached(s: FsmState, volume: string) {
    volume in s.volumes && s.volumes[volume].state.Attached?
  }

  /** Some other replica of the service is recorded on the node. */
  ghost predicate HasReplica(s: FsmState, n: RaftId, name: string)
    requires n in s.nodes
  {
    HostsService(s, s.nodes[n].millId, name)
  }

  /**
   There is room on the node; unless the volume decides, it has no replica of the service if another
   node with room has none, and among such nodes none is fuller.
   */
  ghost predicate BestPlace(s: FsmState, n: RaftId, name: string, def: ServiceDef) {
    && RoomFor(s, n, def)
    && (def.volumes == [] || !IsAttached(s, def.volumes[0].name) ==>
          && (HasReplica(s, n, name) ==> forall m | RoomFor(s, m, def) :: HasReplica(s, m, name))
          && forall m | RoomFor(s, m, def) && HasReplica(s, m, name) == HasReplica(s, n, name) ::
               && AtMostAsFree(Capacity.Available(s, n).value, Capacity.Available(s, m).value)
               && !IsFuller(Capacity.Available(s, m).value, Capacity.Available(s, n).value))
  }

  lemma RequestRoom(s: FsmState, n: RaftId, name: string, def: ServiceDef)
    ensures MayTake(s, RequestFor(name, def), n) <==> RoomFor(s, n, def)
  {
  }

  /** What is picked for a service is a best place for it; nothing is, exactly if there is no room for it. */
  lemma PickedIsBest(s: FsmState, node: NodeId, offered: RaftId, name: string, def: ServiceDef)
    requires Sees(s, Picked(RequestFor(name, def), node, offered))
    ensures BestPlace(s, offered, name, def) && s.nodes[offered].millId == node
  {
    forall m ensures MayTake(s, RequestFor(name, def), m) <==> RoomFor(s, m, def) {
      RequestRoom(s, m, name, def);
    }
  }

  lemma NothingFitsIff(s: FsmState, name: string, def: ServiceDef)
    ensures Sees(s, NothingFits(RequestFor(name, def))) <==> forall n :: !RoomFor(s, n, def)
  {
    forall m ensures MayTake(s, RequestFor(name, def), m) <==> RoomFor(s, m, def) {
      RequestRoom(s, m, name, def);
    }
  }

  // ----- What a start does -----

  /** A node was picked for the service and its raft id was looked up. */
  ghost predicate Chosen(trace: seq<Event>, lo: nat, name: string, def: ServiceDef, picked: nat, entered: nat) {
    && lo <= picked < entered < |trace|
    && trace[picked].Picked? && trace[picked].request == RequestFor(name, def)
    && trace[entered].Entry? && trace[entered].node == trace[picked].node && trace[entered].id.Some?
  }

  /** The positions of the steps of a start that succeeded. */
  datatype Launch = Launch(
    picked: nat, entered: nat, scheduled: nat, resolved: nat, ran: nat, seen: nat, bound: nat, probed: nat, healthy: nat)

  /**
   The allocation was recorded on the node chosen for it and run there; it was seen active or
   stopped and with an address, the address answered, and the allocation was proposed healthy.
   */
  ghost predicate Started(trace: seq<Event>, lo: nat, name: string, def: ServiceDef, id: AllocId, w: Launch) {
    && Chosen(trace, lo, name, def, w.picked, w.entered)
    && w.entered < w.scheduled < |trace|
    && trace[w.scheduled] == Proposed(Scheduling(id, trace[w.entered].id.value, name, def), true)
    && Answered(trace, w.scheduled, def, id, trace[w.picked].node, w)
  }

  /** The steps after the allocation was recorded. */
  ghost predicate Answered(trace: seq<Event>, lo: nat, def: ServiceDef, id: AllocId, node: NodeId, w: Launch) {
    && lo < w.resolved < w.ran < w.seen < w.bound < w.probed < w.healthy < |trace|
    && trace[w.resolved] == Resolved(id, true)
    && trace[w.ran] == Sent(node, Run(id, def), true)
    && trace[w.seen].Saw? && trace[w.seen].allocId == id && Runs(trace[w.seen].status)
    && trace[w.bound].Bound? && trace[w.bound].allocId == id && trace[w.bound].at.Some?
    && trace[w.probed] == Probed(trace[w.bound].at.value, true)
    && trace[w.healthy] == Proposed(SetAllocStatus(id, Healthy), true)
  }

  predicate Schedules(e: Event, id: AllocId) {
    e.Proposed? && e.ok && e.command.AllocScheduled? && e.command.allocId == id
  }

  predicate GivesUp(e: Event, id: AllocId) {
    e.Proposed? && e.command.SetAllocStatus? && e.command.allocId == id && e.command.status.Failed?
  }

  /** A step of a start that failed. */
  predicate FailingStep(e: Event, name: string, def: ServiceDef, id: AllocId) {
    || FailingRun(e, def, id)
    || e == NothingFits(RequestFor(name, def))
    || (e.Entry? && e.id.None?)
    || (IsScheduling(e, name, def, id) && !e.ok)
  }

  /** One of those after the allocation was recorded. */
  predicate FailingRun(e: Event, def: ServiceDef, id: AllocId) {
    || e == Resolved(id, false)
    || (e.Sent? && e.order == Run(id, def) && !e.ok)
    || (e.Saw? && e.allocId == id && !Runs(e.status))
    || e == Bound(id, None)
    || (e.Probed? && !e.ok)
    || e == Proposed(SetAllocStatus(id, Healthy), false)
  }

  predicate IsScheduling(e: Event, name: string, def: ServiceDef, id: AllocId) {
    e.Proposed? && e.command.AllocScheduled? && e.command == Scheduling(id, e.command.nodeId, name, def)
  }

  /** How a start failed: before the allocation was recorded, or in a step after its recording. */
  datatype Failure = Unrecorded | Recorded(scheduled: nat, at: nat)

  /** A step failed; if the allocation was recorded, it was last of all proposed failed. */
  ghost predicate FailedStart(
    trace: seq<Event>, lo: nat, hi: nat, name: string, def: ServiceDef, id: AllocId, f: Failure)
  {
    lo < hi <= |trace| &&
    match f
    case Unrecorded =>
      FailingStep(trace[hi - 1], name, def, id) && forall k | lo <= k < hi :: !Schedules(trace[k], id)
    case Recorded(b, at) =>
      && lo <= b < at < hi - 1
      && Schedules(trace[b], id) && FailingRun(trace[at], def, id)
      && Quiet(trace, at + 1, hi - 1) && GivesUp(trace[hi - 1], id)
  }

  /** What a start does, besides what others do. */
  predicate StartEvent(e: Event, name: string, def: ServiceDef, id: AllocId) {
    || RunEvent(e, def, id)
    || GivesUp(e, id)
    || e.Picked? || e.NothingFits? || e.Entry?
    || IsScheduling(e, name, def, id)
  }

  predicate RunEvent(e: Event, def: ServiceDef, id: AllocId) {
    || e.Other? || e.Resolved? || e.Probed? || e.Saw? || e.Bound?
    || (e.Sent? && e.order == Run(id, def))
    || (e.Proposed? && e.command == SetAllocStatus(id, Healthy))
  }

  /** A proposal to record an allocation follows the choice of its node, one to promote it follows its recording. */
  ghost predicate Justified(trace: seq<Event>, lo: nat, k: nat)
    requires k < |trace|
  {
    trace[k].Proposed? ==>
      var c := trace[k].command;
      && (c.AllocScheduled? ==> exists a, b :: ChosenFor(trace, lo, a, b, k, c.nodeId))
      && (c.SetAllocStatus? && c.status.Healthy? ==> exists b | lo <= b < k :: Schedules(trace[b], c.allocId))
  }

  ghost predicate ChosenFor(trace: seq<Event>, lo: nat, picked: nat, entered: nat, k: nat, node: RaftId) {
    && lo <= picked < entered < k <= |trace|
    && trace[picked].Picked? && trace[entered].Entry?
    && trace[entered].node == trace[picked].node && trace[entered].id == Some(node)
  }

  /** From position `lo` on, the operation only starts the allocation, one step after the other. */
  ghost predicate Orderly(trace: seq<Event>, lo: nat, name: string, def: ServiceDef, id: AllocId) {
    && (forall k | lo <= k < |trace| :: StartEvent(trace[k], name, def, id))
    && forall k {:trigger Justified(trace, lo, k)} | lo <= k < |trace| :: Justified(trace, lo, k)
  }

  lemma StaysJustified(trace: seq<Event>, more: seq<Event>, lo: nat, from: nat, k: nat)
    requires trace <= more && from <= lo && k < |trace| && Justified(trace, lo, k)
    ensures Justified(more, from, k)
  {
    if trace[k].Proposed? {
      var c := trace[k].command;
      if c.AllocScheduled? {
        var a, b :| ChosenFor(trace, lo, a, b, k, c.nodeId);
        assert ChosenFor(more, from, a, b, k, c.nodeId);
      }
      if c.SetAllocStatus? && c.status.Healthy? {
        var b :| lo <= b < k && Schedules(trace[b], c.allocId);
        assert Schedules(more[b], c.allocId);
      }
    }
  }

  /** Running a recorded allocation, or giving it up, goes on in order. */
  lemma OrderlyExtends(
    trace: seq<Event>, more: seq<Event>, lo: nat, name: string, def: ServiceDef, id: AllocId, b: nat)
    requires trace <= more && Orderly(trace, lo, name, def, id) && lo <= b < |trace| && Schedules(trace[b], id)
    requires forall k | |trace| <= k < |more| :: RunEvent(more[k], def, id) || GivesUp(more[k], id)
    ensures Orderly(more, lo, name, def, id)
  {
    forall k | lo <= k < |more| ensures StartEvent(more[k], name, def, id) && Justified(more, lo, k) {
      if k < |trace| {
        assert more[k] == trace[k] && StartEvent(trace[k], name, def, id);
        StaysJustified(trace, more, lo, lo, k);
      } else {
        assert Schedules(more[b], id);
      }
    }
  }

  lemma StaysStarted(
    trace: seq<Event>, more: seq<Event>, lo: nat, from: nat, name: string, def: ServiceDef, id: AllocId, w: Launch)
    requires trace <= more && from <= lo && Started(trace, lo, name, def, id, w)
    ensures Started(more, from, name, def, id, w)
  {
  }

  // ----- Choosing and recording -----

  method Pick(ctx: Ctx, request: ScheduleRequest) returns (mill: Option<NodeId>)
    requires ctx.Valid()
    modifies ctx
    ensures ctx.Valid() && old(ctx.trace) < ctx.trace && old(ctx.states) <= ctx.states
    ensures Quiet(ctx.trace, |old(ctx.trace)|, |ctx.trace| - 1)
    ensures var e := ctx.trace[|ctx.trace| - 1];
            if mill.Some? then e.Picked? && e.request == request && e.node == mill.value else e == NothingFits(request)
  {
    var quiet := ctx.Await();
    ghost var offered;
    mill, offered := ScheduleOn(ctx.fsm, request);
    ctx.Note(if mill.Some? then Picked(request, mill.value, offered) else NothingFits(request));
  }

  method LookUp(ctx: Ctx, mill: NodeId) returns (id: Option<RaftId>)
    requires ctx.Valid()
    modifies ctx
    ensures ctx.Valid() && old(ctx.trace) < ctx.trace && old(ctx.states) <= ctx.states
    ensures Quiet(ctx.trace, |old(ctx.trace)|, |ctx.trace| - 1)
    ensures ctx.trace[|ctx.trace| - 1] == Entry(mill, id)
  {
    var quiet := ctx.Await();
    var nodes := ListNodes(ctx.fsm);
    var found := Fsm.FindByMill(nodes, mill);
    id := if found.Some? then Some(found.value.raftId) else None;
    EntryIsSeen(ctx.fsm, nodes, mill);
    ctx.Note(Entry(mill, id));
  }

  lemma EntryIsSeen(s: FsmState, nodes: seq<FsmNode>, mill: NodeId)
    requires Fsm.Lists(s, nodes)
    ensures var found := Fsm.FindByMill(nodes, mill);
            Sees(s, Entry(mill, if found.Some? then Some(found.value.raftId) else None))
  {
  }

  /** The scheduling read: it picks a best place for the service, or nothing exactly if there is no room for it. */
  ghost predicate ChoiceRead(
    states: seq<FsmState>, trace: seq<Event>, lo: nat, read: nat, name: string, def: ServiceDef)
  {
    && lo <= read < |trace| < |states| && Quiet(trace, lo, read)
    && (trace[read].Picked? || trace[read].NothingFits?)
    && (trace[read].NothingFits? <==> forall n :: !RoomFor(states[read], n, def))
    && (trace[read].Picked? ==>
          && BestPlace(states[read], trace[read].offered, name, def)
          && states[read].nodes[trace[read].offered].millId == trace[read].node)
  }

  lemma ReadIsChoice(states: seq<FsmState>, trace: seq<Event>, lo: nat, read: nat, name: string, def: ServiceDef)
    requires IsRun(states, trace) && lo <= read < |trace| && Quiet(trace, lo, read)
    requires trace[read].Picked? || trace[read].NothingFits?
    requires trace[read].request == RequestFor(name, def)
    ensures ChoiceRead(states, trace, lo, read, name, def)
  {
    assert Happens(states, trace, read);
    NothingFitsIff(states[read], name, def);
    if trace[read].Picked? {
      PickedIsBest(states[read], trace[read].node, trace[read].offered, name, def);
    }
  }

  lemma ChoiceStays(
    states: seq<FsmState>, trace: seq<Event>, later: seq<FsmState>, more: seq<Event>, lo: nat, read: nat, name: string,
    def: ServiceDef)
    requires states <= later && trace <= more && |more| < |later| && ChoiceRead(states, trace, lo, read, name, def)
    ensures ChoiceRead(later, more, lo, read, name, def)
  {
  }

  /** The scheduling read and the lookup of the raft id. */
  method Choose(ctx: Ctx, name: string, def: ServiceDef)
    returns (choice: Option<(NodeId, RaftId)>, ghost picked: nat)
    requires ctx.Valid()
    modifies ctx
    ensures ctx.Valid() && old(ctx.trace) < ctx.trace && old(ctx.states) <= ctx.states
    ensures ChoiceRead(ctx.states, ctx.trace, |old(ctx.trace)|, picked, name, def)
    ensures ctx.trace[picked].NothingFits? <==> picked == |ctx.trace| - 1
    ensures choice.Some? ==>
              && Chosen(ctx.trace, |old(ctx.trace)|, name, def, picked, |ctx.trace| - 1)
              && choice.value == (ctx.trace[picked].node, ctx.trace[|ctx.trace| - 1].id.value)
              && Quiet(ctx.trace, |old(ctx.trace)|, picked) && Quiet(ctx.trace, picked + 1, |ctx.trace| - 1)
    ensures choice.None? ==> Unchosen(ctx.trace, |old(ctx.trace)|, name, def)
  {
    var mill := Pick(ctx, RequestFor(name, def));
    picked, choice := |ctx.trace| - 1, None;
    if mill.Some? {
      var id := LookUp(ctx, mill.value);
      if id.Some? {
        choice := Some((mill.value, id.value));
      }
    }
    ReadIsChoice(ctx.states, ctx.trace, |old(ctx.trace)|, picked, name, def);
  }

  /** The last event says why no node was chosen. */
  ghost predicate Unchosen(trace: seq<Event>, lo: nat, name: string, def: ServiceDef) {
    && lo < |trace|
    && (trace[|trace| - 1] == NothingFits(RequestFor(name, def))
        || (trace[|trace| - 1].Entry? && trace[|trace| - 1].id.None?))
    && forall k | lo <= k < |trace| - 1 :: trace[k].Other? || trace[k].Picked?
  }

  /** Choose a node and record the allocation there. */
  method Place(ctx: Ctx, name: string, def: ServiceDef, id: AllocId)
    returns (node: Option<NodeId>, ghost picked: nat, ghost entered: nat)
    requires ctx.Valid()
    modifies ctx
    ensures ctx.Valid() && old(ctx.trace) < ctx.trace && old(ctx.states) <= ctx.states
    ensures ChoiceRead(ctx.states, ctx.trace, |old(ctx.trace)|, picked, name, def)
    ensures ctx.trace[picked].NothingFits? <==> picked == |ctx.trace| - 1
    ensures Orderly(ctx.trace, |old(ctx.trace)|, name, def, id)
    ensures node.Some? ==> Placed(ctx.trace, |old(ctx.trace)|, name, def, id, node.value, picked, entered)
    ensures node.None? ==> FailedStart(ctx.trace, |old(ctx.trace)|, |ctx.trace|, name, def, id, Unrecorded)
  {
    var choice;
    choice, picked := Choose(ctx, name, def);
    entered, node := |ctx.trace| - 1, None;
    if choice.Some? {
      ghost var trace, states := ctx.trace, ctx.states;
      var scheduled := ctx.Propose(Scheduling(id, choice.value.1, name, def));
      ChoiceStays(states, trace, ctx.states, ctx.trace, |old(ctx.trace)|, picked, name, def);
      RecordedOrNot(trace, ctx.trace, |old(ctx.trace)|, name, def, id, picked);
      if scheduled.Some? {
        node := Some(choice.value.0);
      }
    } else {
      NotChosen(ctx.trace, |old(ctx.trace)|, name, def, id);
    }
  }

  lemma NotChosen(trace: seq<Event>, lo: nat, name: string, def: ServiceDef, id: AllocId)
    requires Unchosen(trace, lo, name, def)
    ensures Orderly(trace, lo, name, def, id) && FailedStart(trace, lo, |trace|, name, def, id, Unrecorded)
  {
  }

  /** The last event records the allocation on the node chosen for it. */
  ghost predicate Placed(
    trace: seq<Event>, lo: nat, name: string, def: ServiceDef, id: AllocId, node: NodeId, picked: nat, entered: nat)
  {
    && entered < |trace| - 1
    && Chosen(trace, lo, name, def, picked, entered)
    && trace[|trace| - 1] == Proposed(Scheduling(id, trace[entered].id.value, name, def), true)
    && node == trace[picked].node
  }

  lemma RecordedOrNot(
    trace: seq<Event>, more: seq<Event>, lo: nat, name: string, def: ServiceDef, id: AllocId, picked: nat)
    requires trace < more && 0 < |trace| && Chosen(trace, lo, name, def, picked, |trace| - 1)
    requires Quiet(trace, lo, picked) && Quiet(trace, picked + 1, |trace| - 1) && Quiet(more, |trace|, |more| - 1)
    requires var e := more[|more| - 1];
             e.Proposed? && e.command == Scheduling(id, trace[|trace| - 1].id.value, name, def)
    ensures Orderly(more, lo, name, def, id)
    ensures if more[|more| - 1].ok then Placed(more, lo, name, def, id, trace[picked].node, picked, |trace| - 1)
            else FailedStart(more, lo, |more|, name, def, id, Unrecorded)
  {
    RecordedInOrder(trace, more, lo, name, def, id, picked);
    forall k | lo <= k < |more| - 1 ensures !Schedules(more[k], id) {
      assert k < |trace| ==> more[k] == trace[k];
    }
  }

  lemma RecordedInOrder(
    trace: seq<Event>, more: seq<Event>, lo: nat, name: string, def: ServiceDef, id: AllocId, picked: nat)
    requires trace < more && 0 < |trace| && Chosen(trace, lo, name, def, picked, |trace| - 1)
    requires Quiet(trace, lo, picked) && Quiet(trace, picked + 1, |trace| - 1) && Quiet(more, |trace|, |more| - 1)
    requires var e := more[|more| - 1];
             e.Proposed? && e.command == Scheduling(id, trace[|trace| - 1].id.value, name, def)
    ensures Orderly(more, lo, name, def, id)
  {
    var n := |more| - 1;
    assert ChosenFor(more, lo, picked, |trace| - 1, n, trace[|trace| - 1].id.value);
    forall k | lo <= k < n ensures StartEvent(more[k], name, def, id) && !more[k].Proposed? {
      assert k < |trace| ==> more[k] == trace[k];
    }
  }

  // ----- Running -----

  /** The wait goes on: the allocation neither runs nor has ended. */
  predicate IsOpen(status: Option<AllocStatus>) {
    !Runs(status) && !(status.Some? && status.value.Failed?)
  }

  /** It is not recorded, or still on its way. */
  lemma OpenIff(status: Option<AllocStatus>)
    ensures IsOpen(status) <==> status in {None, Some(Pulling), Some(Starting)}
  {
  }

  /**
   Wait until the allocation runs or has ended; the last status read is noted. The wait ends with the
   first change that settles it, and otherwise only after all of them.
   */
  method WaitForStatus(ctx: Ctx, id: AllocId) returns (status: Option<AllocStatus>)
    requires ctx.Valid()
    modifies ctx
    ensures ctx.Valid() && old(ctx.trace) < ctx.trace && old(ctx.states) <= ctx.states
    ensures Quiet(ctx.trace, |old(ctx.trace)|, |ctx.trace| - 1)
    ensures ctx.trace[|ctx.trace| - 1] == Saw(id, status) && status == StatusOf(ctx.fsm, id)
    ensures forall k | |old(ctx.trace)| <= k < |ctx.trace| - 1 :: IsOpen(StatusOf(ctx.states[k], id))
    ensures IsOpen(status) ==> |ctx.trace| - 1 - |old(ctx.trace)| == |ctx.world(old(ctx.clock)).others|
  {
    var changes := ctx.world(ctx.clock).others;
    ctx.clock := ctx.clock + 1;
    var i := 0;
    status := StatusOf(ctx.fsm, id);
    while i < |changes| && IsOpen(status)
      invariant 0 <= i <= |changes| && ctx.Valid() && old(ctx.trace) <= ctx.trace && old(ctx.states) <= ctx.states
      invariant Quiet(ctx.trace, |old(ctx.trace)|, |ctx.trace|) && status == StatusOf(ctx.fsm, id)
      invariant |ctx.trace| == |old(ctx.trace)| + i
      invariant forall k | |old(ctx.trace)| <= k < |ctx.trace| :: IsOpen(StatusOf(ctx.states[k], id))
    {
      ctx.Commit(changes[i], false);
      status := StatusOf(ctx.fsm, id);
      i := i + 1;
    }
    ctx.Note(Saw(id, status));
  }

  /** Wait until the allocation has an address; what was found last is noted. It ends with the first address found. */
  method PollForAddress(ctx: Ctx, id: AllocId) returns (address: Option<SocketAddr>)
    requires ctx.Valid()
    modifies ctx
    ensures ctx.Valid() && old(ctx.trace) < ctx.trace && old(ctx.states) <= ctx.states
    ensures Quiet(ctx.trace, |old(ctx.trace)|, |ctx.trace| - 1)
    ensures ctx.trace[|ctx.trace| - 1] == Bound(id, address) && address == AddressOf(ctx.fsm, id)
    ensures forall k | |old(ctx.trace)| <= k < |ctx.trace| - 1 :: AddressOf(ctx.states[k], id).None?
    ensures address.None? ==> |ctx.trace| - 1 - |old(ctx.trace)| == |ctx.world(old(ctx.clock)).others|
  {
    var changes := ctx.world(ctx.clock).others;
    ctx.clock := ctx.clock + 1;
    var i := 0;
    address := AddressOf(ctx.fsm, id);
    while i < |changes| && address.None?
      invariant 0 <= i <= |changes| && ctx.Valid() && old(ctx.trace) <= ctx.trace && old(ctx.states) <= ctx.states
      invariant Quiet(ctx.trace, |old(ctx.trace)|, |ctx.trace|) && address == AddressOf(ctx.fsm, id)
      invariant |ctx.trace| == |old(ctx.trace)| + i
      invariant forall k | |old(ctx.trace)| <= k < |ctx.trace| :: AddressOf(ctx.states[k], id).None?
    {
      ctx.Commit(changes[i], false);
      address := AddressOf(ctx.fsm, id);
      i := i + 1;
    }
    ctx.Note(Bound(id, address));
  }

  ghost predicate OnlyRuns(trace: seq<Event>, lo: nat, hi: nat, def: ServiceDef, id: AllocId) {
    hi <= |trace| && forall k | lo <= k < hi :: RunEvent(trace[k], def, id)
  }

  /** Resolve the environment and send the order to run. */
  method SendRun(ctx: Ctx, def: ServiceDef, id: AllocId, node: NodeId) returns (error: Option<string>, ghost resolved: nat)
    requires ctx.Valid()
    modifies ctx
    ensures ctx.Valid() && old(ctx.trace) < ctx.trace && old(ctx.states) <= ctx.states
    ensures OnlyRuns(ctx.trace, |old(ctx.trace)|, |ctx.trace|, def, id)
    ensures error.None? ==>
              && |old(ctx.trace)| <= resolved < |ctx.trace| - 1 && ctx.trace[resolved] == Resolved(id, true)
              && ctx.trace[|ctx.trace| - 1] == Sent(node, Run(id, def), true)
    ensures error.Some? ==> FailingRun(ctx.trace[|ctx.trace| - 1], def, id)
  {
    var ok := ctx.Resolve(id);
    resolved, error := |ctx.trace| - 1, Some("failed to resolve env var");
    if ok {
      ok := ctx.Send(node, Run(id, def));
      error := if ok then None else Some("node unreachable");
    }
  }

  /** The text of the error for a status that the wait does not accept. */
  function WaitError(status: Option<AllocStatus>): string {
    if status.Some? && status.value.Failed? then status.value.reason else "health check timeout"
  }

  /** Wait for the allocation to run, to have an address, and to answer. */
  method AwaitHealthy(ctx: Ctx, ghost def: ServiceDef, id: AllocId)
    returns (error: Option<string>, ghost seen: nat, ghost bound: nat)
    requires ctx.Valid()
    modifies ctx
    ensures ctx.Valid() && old(ctx.trace) < ctx.trace && old(ctx.states) <= ctx.states
    ensures OnlyRuns(ctx.trace, |old(ctx.trace)|, |ctx.trace|, def, id)
    ensures error.None? ==> Answers(ctx.trace, |old(ctx.trace)|, id, seen, bound)
    ensures error.Some? ==> FailingRun(ctx.trace[|ctx.trace| - 1], def, id)
  {
    var status := WaitForStatus(ctx, id);
    seen, bound := |ctx.trace| - 1, 0;
    error := Some(WaitError(status));
    if Runs(status) {
      error, bound := AwaitAnswer(ctx, def, id);
    }
  }

  /** The allocation was seen running and with an address, and last of all the address answered. */
  ghost predicate Answers(trace: seq<Event>, lo: nat, id: AllocId, seen: nat, bound: nat) {
    && lo <= seen < bound < |trace| - 1
    && trace[seen].Saw? && trace[seen].allocId == id && Runs(trace[seen].status)
    && trace[bound].Bound? && trace[bound].allocId == id && trace[bound].at.Some?
    && trace[|trace| - 1] == Probed(trace[bound].at.value, true)
  }

  method AwaitAnswer(ctx: Ctx, ghost def: ServiceDef, id: AllocId) returns (error: Option<string>, ghost bound: nat)
    requires ctx.Valid()
    modifies ctx
    ensures ctx.Valid() && old(ctx.trace) < ctx.trace && old(ctx.states) <= ctx.states
    ensures OnlyRuns(ctx.trace, |old(ctx.trace)|, |ctx.trace|, def, id)
    ensures error.None? ==>
              && |old(ctx.trace)| <= bound < |ctx.trace| - 1
              && ctx.trace[bound].Bound? && ctx.trace[bound].allocId == id && ctx.trace[bound].at.Some?
              && ctx.trace[|ctx.trace| - 1] == Probed(ctx.trace[bound].at.value, true)
    ensures error.Some? ==> FailingRun(ctx.trace[|ctx.trace| - 1], def, id)
  {
    var address := PollForAddress(ctx, id);
    bound, error := |ctx.trace| - 1, Some("health check timeout");
    if address.Some? {
      var ok := ctx.Probe(address.value);
      if ok {
        error := None;
      }
    }
  }

  /** The allocation was seen to answer and was then, last of all, proposed healthy. */
  ghost predicate AnswersAndRises(trace: seq<Event>, lo: nat, id: AllocId, seen: nat, bound: nat, probed: nat) {
    && lo <= seen < bound < probed < |trace| - 1
    && trace[seen].Saw? && trace[seen].allocId == id && Runs(trace[seen].status)
    && trace[bound].Bound? && trace[bound].allocId == id && trace[bound].at.Some?
    && trace[probed] == Probed(trace[bound].at.value, true)
    && trace[|trace| - 1] == Proposed(SetAllocStatus(id, Healthy), true)
  }

  /** Wait for the allocation to answer and promote it. */
  method Promote(ctx: Ctx, ghost def: ServiceDef, id: AllocId)
    returns (error: Option<string>, ghost seen: nat, ghost bound: nat, ghost probed: nat)
    requires ctx.Valid()
    modifies ctx
    ensures ctx.Valid() && old(ctx.trace) < ctx.trace && old(ctx.states) <= ctx.states
    ensures OnlyRuns(ctx.trace, |old(ctx.trace)|, |ctx.trace|, def, id)
    ensures error.None? ==> AnswersAndRises(ctx.trace, |old(ctx.trace)|, id, seen, bound, probed)
    ensures error.Some? ==> FailingRun(ctx.trace[|ctx.trace| - 1], def, id)
  {
    error, seen, bound := AwaitHealthy(ctx, def, id);
    probed := |ctx.trace| - 1;
    if error.None? {
      var promoted := ctx.Propose(SetAllocStatus(id, Healthy));
      if promoted.None? {
        error := Some("raft error");
      }
    }
  }

  /** Run a recorded allocation and wait until it is healthy; `None` is success. */
  method RunScheduled(ctx: Ctx, def: ServiceDef, id: AllocId, node: NodeId) returns (error: Option<string>, ghost w: Launch)
    requires ctx.Valid() && 0 < |ctx.trace|
    modifies ctx
    ensures ctx.Valid() && old(ctx.trace) < ctx.trace && old(ctx.states) <= ctx.states
    ensures OnlyRuns(ctx.trace, |old(ctx.trace)|, |ctx.trace|, def, id)
    ensures error.None? ==> w.healthy == |ctx.trace| - 1 && Answered(ctx.trace, |old(ctx.trace)| - 1, def, id, node, w)
    ensures error.Some? ==> FailingRun(ctx.trace[|ctx.trace| - 1], def, id)
  {
    ghost var resolved;
    error, resolved := SendRun(ctx, def, id, node);
    w := Launch(0, 0, 0, 0, 0, 0, 0, 0, 0);
    if error.None? {
      ghost var sent := ctx.trace;
      ghost var seen, bound, probed;
      error, seen, bound, probed := Promote(ctx, def, id);
      if error.None? {
        w := Launch(0, 0, 0, resolved, |sent| - 1, seen, bound, probed, |ctx.trace| - 1);
        Promoted(sent, ctx.trace, |old(ctx.trace)|, def, id, node, w);
      }
    }
  }

  lemma Promoted(
    sent: seq<Event>, trace: seq<Event>, lo: nat, def: ServiceDef, id: AllocId, node: NodeId, w: Launch)
    requires 0 < lo <= w.resolved < w.ran == |sent| - 1 && sent < trace
    requires sent[w.resolved] == Resolved(id, true) && sent[w.ran] == Sent(node, Run(id, def), true)
    requires AnswersAndRises(trace, |sent|, id, w.seen, w.bound, w.probed) && w.healthy == |trace| - 1
    ensures Answered(trace, lo - 1, def, id, node, w)
  {
    assert trace[w.resolved] == sent[w.resolved] && trace[w.ran] == sent[w.ran];
  }

  /** Running a recorded allocation succeeds, or a step fails and the allocation is given up. */
  ghost predicate RunsOrGivesUp(
    trace: seq<Event>, lo: nat, def: ServiceDef, id: AllocId, node: NodeId, ok: bool, w: Launch, at: nat)
  {
    && 0 < lo < |trace|
    && (forall k | lo <= k < |trace| :: RunEvent(trace[k], def, id) || GivesUp(trace[k], id))
    && if ok then w.healthy == |trace| - 1 && Answered(trace, lo - 1, def, id, node, w)
       else
         && lo <= at < |trace| - 1 && FailingRun(trace[at], def, id)
         && Quiet(trace, at + 1, |trace| - 1) && GivesUp(trace[|trace| - 1], id)
  }

  /** After the recording, any failure must mark the allocation as failed. */
  method RunPlaced(ctx: Ctx, def: ServiceDef, id: AllocId, node: NodeId) returns (ok: bool, ghost w: Launch, ghost at: nat)
    requires ctx.Valid() && 0 < |ctx.trace|
    modifies ctx
    ensures ctx.Valid() && old(ctx.trace) < ctx.trace && old(ctx.states) <= ctx.states
    ensures RunsOrGivesUp(ctx.trace, |old(ctx.trace)|, def, id, node, ok, w, at)
  {
    var error;
    error, w := RunScheduled(ctx, def, id, node);
    at, ok := |ctx.trace| - 1, error.None?;
    if !ok {
      var failed := ctx.Propose(SetAllocStatus(id, Failed(error.value)));
    }
  }

  /**
   What a start did. Success means all of it happened in order; a failure is that of one of the
   steps, and after it the allocation, if it was recorded, is proposed failed. It ends with the
   scheduling read exactly if there was no room for the service.
   */
  ghost predicate StartedAs(
    states: seq<FsmState>, trace: seq<Event>, lo: nat, name: string, def: ServiceDef, id: AllocId, ok: bool, w: Launch,
    f: Failure, read: nat)
  {
    && ChoiceRead(states, trace, lo, read, name, def)
    && (trace[read].NothingFits? <==> read == |trace| - 1)
    && Orderly(trace, lo, name, def, id)
    && if ok then w.healthy == |trace| - 1 && w.picked == read && Started(trace, lo, name, def, id, w)
       else FailedStart(trace, lo, |trace|, name, def, id, f)
  }

  /** Place, run and health-check one allocation. */
  method StartAlloc(ctx: Ctx, name: string, def: ServiceDef, id: AllocId)
    returns (ok: bool, ghost w: Launch, ghost f: Failure, ghost read: nat)
    requires ctx.Valid()
    modifies ctx
    ensures ctx.Valid() && old(ctx.trace) < ctx.trace && old(ctx.states) <= ctx.states
    ensures StartedAs(ctx.states, ctx.trace, |old(ctx.trace)|, name, def, id, ok, w, f, read)
  {
    var node, picked, entered := Place(ctx, name, def, id);
    ok, w, f, read := false, Launch(0, 0, 0, 0, 0, 0, 0, 0, 0), Unrecorded, picked;
    if node.Some? {
      ok, w, f := FinishStart(ctx, name, def, id, node.value, |old(ctx.trace)|, picked, entered);
    }
  }

  /** The start of an allocation that has been recorded. */
  method FinishStart(
    ctx: Ctx, ghost name: string, def: ServiceDef, id: AllocId, node: NodeId, ghost lo: nat, ghost picked: nat,
    ghost entered: nat)
    returns (ok: bool, ghost w: Launch, ghost f: Failure)
    requires ctx.Valid() && lo < |ctx.trace| && ChoiceRead(ctx.states, ctx.trace, lo, picked, name, def)
    requires Orderly(ctx.trace, lo, name, def, id) && Placed(ctx.trace, lo, name, def, id, node, picked, entered)
    modifies ctx
    ensures ctx.Valid() && old(ctx.trace) < ctx.trace && old(ctx.states) <= ctx.states
    ensures StartedAs(ctx.states, ctx.trace, lo, name, def, id, ok, w, f, picked)
  {
    ghost var ran, at;
    ok, ran, at := RunPlaced(ctx, def, id, node);
    w, f := Concluded(
      old(ctx.states), old(ctx.trace), ctx.states, ctx.trace, lo, name, def, id, node, ok, ran, picked, entered, at);
  }

  lemma Concluded(
    states: seq<FsmState>, trace: seq<Event>, later: seq<FsmState>, more: seq<Event>, lo: nat, name: string,
    def: ServiceDef, id: AllocId, node: NodeId, ok: bool, ran: Launch, picked: nat, entered: nat, at: nat)
    returns (w: Launch, f: Failure)
    requires states <= later && |more| < |later| && ChoiceRead(states, trace, lo, picked, name, def)
    requires trace < more && Orderly(trace, lo, name, def, id)
    requires Placed(trace, lo, name, def, id, node, picked, entered)
    requires RunsOrGivesUp(more, |trace|, def, id, node, ok, ran, at)
    ensures StartedAs(later, more, lo, name, def, id, ok, w, f, picked)
  {
    w := ran.(picked := picked, entered := entered, scheduled := |trace| - 1);
    f := Recorded(|trace| - 1, at);
    ChoiceStays(states, trace, later, more, lo, picked, name, def);
    Completed(trace, more, lo, name, def, id, node, ok, w, at);
  }

  lemma Completed(
    trace: seq<Event>, more: seq<Event>, lo: nat, name: string, def: ServiceDef, id: AllocId, node: NodeId, ok: bool,
    w: Launch, at: nat)
    requires trace < more && Orderly(trace, lo, name, def, id)
    requires w.scheduled == |trace| - 1 && Placed(trace, lo, name, def, id, node, w.picked, w.entered)
    requires RunsOrGivesUp(more, |trace|, def, id, node, ok, w, at)
    ensures Orderly(more, lo, name, def, id)
    ensures ok ==> Started(more, lo, name, def, id, w)
    ensures !ok ==> FailedStart(more, lo, |more|, name, def, id, Recorded(|trace| - 1, at))
  {
    assert Schedules(trace[|trace| - 1], id);
    OrderlyExtends(trace, more, lo, name, def, id, |trace| - 1);
  }
}
