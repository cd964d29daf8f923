/** The reports a node sends to the primary, and the command each of them becomes. */
module Report {
  import opened Types
  import Fsm

  datatype NodeReport =
    | Heartbeat(node: NodeId, statuses: map<AllocId, AllocStatus>)
    | RunStarted(allocId: AllocId, hostPort: Option<nat>, address: Option<SocketAddr>)
    | ReportStopped(allocId: AllocId, exitCode: int)
    | RunFailed(allocId: AllocId, reason: string)
    | StatusUpdate(allocId: AllocId, status: AllocStatus)

  /** The reported address, or else the node's own address with the reported port. */
  function ReportedAddress(s: FsmState, nodes: seq<FsmNode>, r: NodeReport): Option<SocketAddr>
    requires r.RunStarted?
  {
    if r.address.Some? then r.address
    else if r.hostPort.None? || r.allocId !in s.allocs then None
    else
      match Fsm.FindByMill(nodes, s.allocs[r.allocId].node)
      case None => None
      case Some(n) => Some(SocketAddr(n.address.ip, r.hostPort.value))
  }

  /** `process_report`: the command to propose; a heartbeat of an unknown node is dropped. */
  function CommandFor(s: FsmState, nodes: seq<FsmNode>, r: NodeReport, now: Time): Option<Command> {
    match r
    case RunStarted(id, _, _) => Some(AllocRunning(id, ReportedAddress(s, nodes, r), Some(now)))
    case RunFailed(id, reason) => Some(SetAllocStatus(id, Failed(reason)))
    case ReportStopped(id, code) => Some(SetAllocStatus(id, Stopped(code)))
    case StatusUpdate(id, status) => Some(SetAllocStatus(id, status))
    case Heartbeat(node, statuses) =>
      match Fsm.FindByMill(nodes, node)
      case None => None
      case Some(n) => Some(NodeHeartbeat(n.raftId, statuses))
  }

  function Process(s: FsmState, nodes: seq<FsmNode>, r: NodeReport, now: Time): FsmState {
    match CommandFor(s, nodes, r, now)
    case None => s
    case Some(c) => Fsm.Apply(s, c).0
  }

  /** A report with the order of nodes and the time at which it is processed. */
  datatype Delivery = Delivery(report: NodeReport, nodes: seq<FsmNode>, now: Time)

  function ProcessAll(s: FsmState, deliveries: seq<Delivery>): FsmState {
    if deliveries == [] then s
    else
      var last := deliveries[|deliveries| - 1];
      Process(ProcessAll(s, deliveries[..|deliveries| - 1]), last.nodes, last.report, last.now)
  }

  // ----- What reports do -----

  /** How an allocation is after a status is reported of it: promotion to Healthy is not undone. */
  predicate IsTold(before: Alloc, after: Alloc, status: AllocStatus) {
    && after.(status := before.status) == before
    && after.status == if before.status == Healthy && status == Running then Healthy else status
  }

  ghost predicate AllocsTold(before: map<AllocId, Alloc>, after: map<AllocId, Alloc>, statuses: map<AllocId, AllocStatus>) {
    && after.Keys == before.Keys
    && forall id | id in before ::
         if id in statuses then IsTold(before[id], after[id], statuses[id]) else after[id] == before[id]
  }

  /** The node is up again if it was down. */
  ghost predicate NodesTold(before: map<RaftId, FsmNode>, after: map<RaftId, FsmNode>, node: NodeId) {
    && after.Keys == before.Keys
    && forall id | id in before ::
         after[id] == if before[id].millId == node && before[id].status == Down then before[id].(status := Ready)
                      else before[id]
  }

  lemma MergedAreTold(allocs: map<AllocId, Alloc>, statuses: map<AllocId, AllocStatus>)
    ensures AllocsTold(allocs, Fsm.MergeStatuses(allocs, statuses), statuses)
  {
  }

  lemma NodeIsTold(nodes: map<RaftId, FsmNode>, id: RaftId)
    requires id in nodes && forall n | n in nodes && nodes[n].millId == nodes[id].millId :: n == id
    ensures NodesTold(nodes, if nodes[id].status == Down then nodes[id := nodes[id].(status := Ready)] else nodes,
                      nodes[id].millId)
  {
  }

  /** The command a heartbeat becomes. */
  lemma HeartbeatCommand(
    s: FsmState, nodes: seq<FsmNode>, node: NodeId, statuses: map<AllocId, AllocStatus>, now: Time)
    requires Fsm.KeysMatch(s) && Fsm.UniqueMills(s) && Fsm.Lists(s, nodes)
    ensures var c := CommandFor(s, nodes, Heartbeat(node, statuses), now);
            if Fsm.Registered(s, node)
            then c.Some? && c.value.NodeHeartbeat? && c.value.id in s.nodes && s.nodes[c.value.id].millId == node
                 && c.value.statuses == statuses
            else c.None?
  {
    Fsm.FindByMillAnyOrder(s, nodes, nodes, node);
  }

  /**
   A heartbeat tells the statuses of allocations and that its node is up, and changes nothing else;
   one of a node that is not registered changes nothing.
   */
  lemma HeartbeatIsTaken(s: FsmState, nodes: seq<FsmNode>, node: NodeId, statuses: map<AllocId, AllocStatus>, now: Time)
    requires Fsm.KeysMatch(s) && Fsm.UniqueMills(s) && Fsm.Lists(s, nodes)
    ensures var after := Process(s, nodes, Heartbeat(node, statuses), now);
            if !Fsm.Registered(s, node) then after == s
            else
              && after.config == s.config && after.secrets == s.secrets && after.volumes == s.volumes
              && NodesTold(s.nodes, after.nodes, node) && AllocsTold(s.allocs, after.allocs, statuses)
  {
    HeartbeatCommand(s, nodes, node, statuses, now);
    if Fsm.Registered(s, node) {
      NodeIsTold(s.nodes, CommandFor(s, nodes, Heartbeat(node, statuses), now).value.id);
      MergedAreTold(s.allocs, statuses);
    }
  }

  /** A report of an end or of progress sets the status of its allocation, if recorded, and nothing else. */
  lemma StatusReportIsTaken(s: FsmState, nodes: seq<FsmNode>, r: NodeReport, now: Time)
    requires !r.Heartbeat? && !r.RunStarted?
    ensures var after := Process(s, nodes, r, now);
            if r.allocId !in s.allocs then after == s
            else
              && after.allocs.Keys == s.allocs.Keys && after == s.(allocs := after.allocs)
              && (forall id | id in s.allocs && id != r.allocId :: after.allocs[id] == s.allocs[id])
              && var a := after.allocs[r.allocId];
              && a.(status := s.allocs[r.allocId].status) == s.allocs[r.allocId]
              && (r.RunFailed? ==> a.status == Failed(r.reason))
              && (r.ReportStopped? ==> a.status == Stopped(r.exitCode))
              && (r.StatusUpdate? ==> a.status == r.status)
  {
  }
}
