/**
 What an operation of the primary works with: the state machine, which others keep changing, the
 commands it proposes and the orders it sends. Every step is recorded, so that what an operation
 promises can be said about its whole trace.
 */
module Cluster {
  import opened Types
  import opened Scheduler
  import Capacity
  import Fsm

  datatype Order =
    | Run(allocId: AllocId, def: ServiceDef)
    | Stop(allocId: AllocId)

  /** What is noted of a running allocation. */
  datatype Active = Active(id: AllocId, name: string, kind: AllocKind)

  /** A call for a volume: to create it, to detach it, or to attach it to an instance. */
  datatype CloudCall = Creating(volume: string) | Detaching(volume: string) | Attaching(volume: string, instance: string)

  datatype Event =
    /** Somebody else's command was committed. */
    | Other(command: Command)
    /** The operation proposed a command; `ok` says whether consensus took it. */
    | Proposed(command: Command, ok: bool)
    /** The operation sent an order to a node. */
    | Sent(node: NodeId, order: Order, ok: bool)
    /** It resolved an environment, probed an address, or called the cloud for a volume. */
    | Resolved(allocId: AllocId, ok: bool)
    | Probed(address: SocketAddr, ok: bool)
    | Cloud(call: CloudCall, ok: bool)
    /** It read the state: each of the following holds what was seen. */
    | Picked(request: ScheduleRequest, node: NodeId, offered: RaftId)
    | NothingFits(request: ScheduleRequest)
    | Entry(node: NodeId, id: Option<RaftId>)
    | Saw(allocId: AllocId, status: Option<AllocStatus>)
    | Bound(allocId: AllocId, at: Option<SocketAddr>)
    | Found(allocId: AllocId, where: Option<NodeId>)
    | FirstReady(first: Option<RaftId>)
    | VolumeSeen(volume: string, state: Option<VolumeState>)
    | NameOf(raftId: RaftId, named: Option<NodeId>)
    | InstanceOf(raftId: RaftId, instance: Option<string>)
    | AttachedAt(mill: NodeId, volumes: set<string>)
    | Listed(name: string, allocs: seq<(AllocId, NodeId)>)
    | RunningOn(raftId: RaftId, mill: NodeId, listed: seq<Active>)
    | Defined(name: string, def: Option<ServiceDef>)
    | Current(former: Option<ClusterConfig>)
    | SecretsChecked(config: ClusterConfig, ok: bool)
    | CapacityChecked(config: ClusterConfig, ok: bool)

  function Effect(s: FsmState, e: Event): FsmState {
    match e
    case Other(c) => Fsm.Apply(s, c).0
    case Proposed(c, ok) => if ok then Fsm.Apply(s, c).0 else s
    case _ => s
  }

  /** The event is a command that was committed. */
  predicate Commits(e: Event) {
    e.Other? || (e.Proposed? && e.ok)
  }

  predicate IsRead(e: Event) {
    !e.Other? && !e.Proposed? && !e.Sent? && !e.Resolved? && !e.Probed? && !e.Cloud?
  }

  /** What a read says is so in the state. */
  ghost predicate Sees(s: FsmState, e: Event) {
    match e
    case Picked(request, node, offered) => IsBest(s, request, offered) && s.nodes[offered].millId == node
    case NothingFits(request) => forall n :: !MayTake(s, request, n)
    case Entry(node, id) =>
      if id.Some? then id.value in s.nodes && s.nodes[id.value].millId == node
      else forall n | n in s.nodes :: s.nodes[n].millId != node
    case Saw(id, status) => status == StatusOf(s, id)
    case Bound(id, at) => at == AddressOf(s, id)
    case Found(id, where) => where == NodeOf(s, id)
    case FirstReady(first) =>
      if first.Some? then first.value in s.nodes && s.nodes[first.value].status == Ready
      else forall n | n in s.nodes :: s.nodes[n].status != Ready
    case VolumeSeen(name, state) => state == if name in s.volumes then Some(s.volumes[name].state) else None
    case NameOf(id, named) => named == if id in s.nodes then Some(s.nodes[id].millId) else None
    case InstanceOf(id, instance) => instance == if id in s.nodes then s.nodes[id].instanceId else None
    case AttachedAt(mill, volumes) => volumes == VolumesAt(s, mill)
    case Listed(name, allocs) => ListsService(s, name, allocs)
    case RunningOn(node, mill, listed) => ListsRunning(s, node, mill, listed)
    case Defined(name, def) => def == if name in ServicesOf(s.config) then Some(ServicesOf(s.config)[name]) else None
    case Current(former) => former == s.config
    case SecretsChecked(config, ok) => ok == SecretsKnown(s, config)
    case CapacityChecked(config, ok) => ok == LargestFits(s, config)
    case _ => true
  }

  function StatusOf(s: FsmState, id: AllocId): Option<AllocStatus> {
    if id in s.allocs then Some(s.allocs[id].status) else None
  }

  function AddressOf(s: FsmState, id: AllocId): Option<SocketAddr> {
    if id in s.allocs then s.allocs[id].address else None
  }

  function VolumesAt(s: FsmState, mill: NodeId): set<string> {
    set v | v in s.volumes && s.volumes[v].state == Attached(mill)
  }

  function NodeOf(s: FsmState, id: AllocId): Option<NodeId> {
    if id in s.allocs then Some(s.allocs[id].node) else None
  }

  /** The allocations of a service with their nodes, each once, in some order. */
  ghost predicate ListsService(s: FsmState, name: string, list: seq<(AllocId, NodeId)>) {
    && (forall p | p in list :: p.0 in s.allocs && s.allocs[p.0].name == name && s.allocs[p.0].node == p.1)
    && (forall id | id in s.allocs && s.allocs[id].name == name :: (id, s.allocs[id].node) in list)
    && (forall i, j | 0 <= i < j < |list| :: list[i].0 != list[j].0)
  }

  /** The allocation runs on the node. */
  predicate RunsOn(s: FsmState, id: AllocId, mill: NodeId) {
    id in s.allocs && s.allocs[id].node == mill && !s.allocs[id].status.IsTerminal()
  }

  function AsActive(s: FsmState, id: AllocId): Active
    requires id in s.allocs
  {
    Active(id, s.allocs[id].name, s.allocs[id].kind)
  }

  /** The running allocations of the node and its name; nothing if it is no longer registered. */
  ghost predicate ListsRunning(s: FsmState, node: RaftId, mill: NodeId, listed: seq<Active>) {
    && (node in s.nodes ==> mill == s.nodes[node].millId)
    && (forall i, j | 0 <= i < j < |listed| :: listed[i].id != listed[j].id)
    && (forall a | a in listed :: node in s.nodes && RunsOn(s, a.id, mill) && a == AsActive(s, a.id))
    && (forall id | node in s.nodes && RunsOn(s, id, mill) :: AsActive(s, id) in listed)
  }

  predicate SecretsIn(env: map<string, EnvValue>, s: FsmState) {
    forall key | key in env && env[key].Interpolated? ::
      forall part | part in env[key].parts && part.Secret? :: part.name in s.secrets
  }

  /** Every secret the configuration refers to exists. */
  predicate SecretsKnown(s: FsmState, config: ClusterConfig) {
    && (forall name | name in config.services :: SecretsIn(config.services[name].env, s))
    && (forall name | name in config.tasks :: SecretsIn(config.tasks[name].env, s))
  }

  /** Some ready node has as much CPU in total and some has as much memory. */
  predicate FitsLargest(s: FsmState, need: Resources) {
    && (need.cpu <= 0.0 || exists n | n in s.nodes :: s.nodes[n].status == Ready && need.cpu <= s.nodes[n].resources.cpuTotal)
    && exists n | n in s.nodes :: s.nodes[n].status == Ready && need.memory <= s.nodes[n].resources.memoryTotal
  }

  /** There is a ready node, and nothing configured exceeds the largest totals. */
  predicate LargestFits(s: FsmState, config: ClusterConfig) {
    && (exists n | n in s.nodes :: s.nodes[n].status == Ready)
    && (forall name | name in config.services :: FitsLargest(s, config.services[name].resources))
    && (forall name | name in config.tasks :: FitsLargest(s, config.tasks[name].resources))
  }

  /** `states[k]` is the state before event `k`; every read saw it as it was. */
  ghost predicate IsRun(states: seq<FsmState>, trace: seq<Event>) {
    && |states| == |trace| + 1
    && forall k | 0 <= k < |trace| :: Happens(states, trace, k)
  }

  ghost predicate Happens(states: seq<FsmState>, trace: seq<Event>, k: nat)
    requires k < |trace| == |states| - 1
  {
    states[k + 1] == Effect(states[k], trace[k]) && Sees(states[k], trace[k])
  }

  lemma RunExtends(states: seq<FsmState>, trace: seq<Event>, e: Event)
    requires IsRun(states, trace) && Sees(states[|trace|], e)
    ensures IsRun(states + [Effect(states[|trace|], e)], trace + [e])
  {
    var later, more := states + [Effect(states[|trace|], e)], trace + [e];
    forall k | 0 <= k < |more| ensures Happens(later, more, k) {
      assert k < |trace| ==> Happens(states, trace, k);
    }
  }

  /** A run followed by one that begins where it ends. */
  lemma RunsJoin(states: seq<FsmState>, trace: seq<Event>, later: seq<FsmState>, more: seq<Event>)
    requires IsRun(states, trace) && IsRun(later, more) && later[0] == states[|trace|]
    ensures IsRun(states + later[1..], trace + more)
  {
    var all, events := states + later[1..], trace + more;
    forall k | 0 <= k < |events| ensures Happens(all, events, k) {
      if k < |trace| {
        assert Happens(states, trace, k);
      } else {
        assert Happens(later, more, k - |trace|);
      }
    }
  }

  /** The operation does nothing between two positions. */
  ghost predicate Quiet(trace: seq<Event>, lo: nat, hi: nat) {
    hi <= |trace| && forall k | lo <= k < hi :: trace[k].Other?
  }

  /** What happens until the next step of the operation: others' commands, and whether its call succeeds. */
  datatype Reply = Reply(others: seq<Command>, ok: bool)

  class Ctx {
    const world: nat -> Reply
    var fsm: FsmState
    var clock: nat
    ghost var states: seq<FsmState>
    ghost var trace: seq<Event>

    ghost predicate Valid()
      reads this
    {
      && IsRun(states, trace)
      && states[|trace|] == fsm
      && Fsm.KeysMatch(fsm)
    }

    constructor (fsm: FsmState, world: nat -> Reply)
      requires Fsm.KeysMatch(fsm)
      ensures Valid() && this.fsm == fsm && trace == []
    {
      this.fsm, this.world, clock := fsm, world, 0;
      states, trace := [fsm], [];
    }

    /** A command is committed. */
    method Commit(c: Command, own: bool)
      requires Valid()
      modifies this`fsm, this`states, this`trace
      ensures Valid() && fsm == Fsm.Apply(old(fsm), c).0
      ensures trace == old(trace) + [if own then Proposed(c, true) else Other(c)] && states == old(states) + [fsm]
    {
      Fsm.StepKeepsKeys(fsm, c);
      RunExtends(states, trace, if own then Proposed(c, true) else Other(c));
      fsm := Fsm.Apply(fsm, c).0;
      states := states + [fsm];
      trace := trace + [if own then Proposed(c, true) else Other(c)];
    }

    /** A read of the state as it is. */
    ghost method Note(e: Event)
      requires Valid() && IsRead(e) && Sees(fsm, e)
      modifies this`states, this`trace
      ensures Valid() && trace == old(trace) + [e] && states == old(states) + [fsm]
    {
      RunExtends(states, trace, e);
      states := states + [fsm];
      trace := trace + [e];
    }

    /** The outcome of a call, as the last reply said. */
    ghost method Log(e: Event)
      requires Valid() && !IsRead(e) && !e.Other? && (e.Proposed? ==> !e.ok) && clock > 0 && e.ok == world(clock - 1).ok
      modifies this`states, this`trace
      ensures Valid() && trace == old(trace) + [e] && states == old(states) + [fsm]
    {
      RunExtends(states, trace, e);
      states := states + [fsm];
      trace := trace + [e];
    }

    /** Let others commit what they do until the next step; the outcome of that step is returned. */
    method Await() returns (ok: bool)
      requires Valid()
      modifies this
      ensures Valid() && old(trace) <= trace && old(states) <= states
      ensures clock == old(clock) + 1 && ok == world(old(clock)).ok
      ensures Quiet(trace, |old(trace)|, |trace|)
    {
      var reply := world(clock);
      clock := clock + 1;
      ok := reply.ok;
      var i := 0;
      while i < |reply.others|
        invariant Valid() && old(trace) <= trace && old(states) <= states && clock == old(clock) + 1
        invariant Quiet(trace, |old(trace)|, |trace|)
      {
        Commit(reply.others[i], false);
        i := i + 1;
      }
    }

    /** The response, or nothing if consensus did not take the command. */
    method Propose(c: Command) returns (response: Option<Response>)
      requires Valid()
      modifies this
      ensures Valid() && old(trace) < trace && old(states) <= states
      ensures Quiet(trace, |old(trace)|, |trace| - 1)
      ensures trace[|trace| - 1] == Proposed(c, response.Some?)
      ensures response.Some? ==> response.value == Fsm.Apply(states[|trace| - 1], c).1
    {
      var ok := Await();
      if ok {
        response := Some(Fsm.Apply(fsm, c).1);
        Commit(c, true);
      } else {
        response := None;
        Log(Proposed(c, false));
      }
    }

    method Send(node: NodeId, order: Order) returns (ok: bool)
      requires Valid()
      modifies this
      ensures Valid() && old(trace) < trace && old(states) <= states
      ensures Quiet(trace, |old(trace)|, |trace| - 1)
      ensures trace[|trace| - 1] == Sent(node, order, ok)
    {
      ok := Await();
      Log(Sent(node, order, ok));
    }

    method Resolve(id: AllocId) returns (ok: bool)
      requires Valid()
      modifies this
      ensures Valid() && old(trace) < trace && old(states) <= states
      ensures Quiet(trace, |old(trace)|, |trace| - 1)
      ensures trace[|trace| - 1] == Resolved(id, ok)
    {
      ok := Await();
      Log(Resolved(id, ok));
    }

    method Probe(address: SocketAddr) returns (ok: bool)
      requires Valid()
      modifies this
      ensures Valid() && old(trace) < trace && old(states) <= states
      ensures Quiet(trace, |old(trace)|, |trace| - 1)
      ensures trace[|trace| - 1] == Probed(address, ok)
    {
      ok := Await();
      Log(Probed(address, ok));
    }

    method CallCloud(call: CloudCall) returns (ok: bool)
      requires Valid()
      modifies this
      ensures Valid() && old(trace) < trace && old(states) <= states
      ensures Quiet(trace, |old(trace)|, |trace| - 1)
      ensures trace[|trace| - 1] == Cloud(call, ok)
    {
      ok := Await();
      Log(Cloud(call, ok));
    }
  }

  // ----- Reads of the state -----

  method ListNodes(s: FsmState) returns (nodes: seq<FsmNode>)
    requires Fsm.KeysMatch(s)
    ensures Fsm.Lists(s, nodes)
  {
    nodes := [];
    var todo := s.nodes.Keys;
    while todo != {}
      invariant todo <= s.nodes.Keys
      invariant forall n | n in nodes :: n.raftId in s.nodes && s.nodes[n.raftId] == n
      invariant forall id | id in s.nodes && id !in todo :: s.nodes[id] in nodes
      decreases |todo|
    {
      var id :| id in todo;
      todo := todo - {id};
      nodes := nodes + [s.nodes[id]];
    }
  }

  method ListAllocs(s: FsmState) returns (placed: seq<PlacedAlloc>)
    ensures forall p :: p in placed <==>
              exists id | id in s.allocs :: p == PlacedAlloc(s.allocs[id].node, s.allocs[id].name, s.allocs[id].kind)
  {
    placed := [];
    var todo := s.allocs.Keys;
    while todo != {}
      invariant todo <= s.allocs.Keys
      invariant forall p :: p in placed <==>
                  exists id | id in s.allocs && id !in todo ::
                    p == PlacedAlloc(s.allocs[id].node, s.allocs[id].name, s.allocs[id].kind)
      decreases |todo|
    {
      var id :| id in todo;
      todo := todo - {id};
      placed := placed + [PlacedAlloc(s.allocs[id].node, s.allocs[id].name, s.allocs[id].kind)];
    }
  }

  method ListVolumes(s: FsmState) returns (volumes: seq<NamedVolume>)
    ensures forall v :: v in volumes <==> v.name in s.volumes && s.volumes[v.name] == v.volume
  {
    volumes := [];
    var todo := s.volumes.Keys;
    while todo != {}
      invariant todo <= s.volumes.Keys
      invariant forall v :: v in volumes <==> v.name in s.volumes && v.name !in todo && s.volumes[v.name] == v.volume
      decreases |todo|
    {
      var name :| name in todo;
      todo := todo - {name};
      volumes := volumes + [NamedVolume(name, s.volumes[name])];
    }
  }

  /** The entry is the named node's, ready and with room for the request. */
  ghost predicate Offers(s: FsmState, n: RaftId, mill: NodeId, need: Resources) {
    && n in s.nodes
    && s.nodes[n].millId == mill
    && s.nodes[n].status == Ready
    && HasCapacity(Capacity.Available(s, n), need)
  }

  /** The node a request is bound to because its volume is attached there. */
  function Pin(s: FsmState, request: ScheduleRequest): Option<NodeId> {
    if request.volume.Some? && request.volume.value in s.volumes && s.volumes[request.volume.value].state.Attached?
    then Some(s.volumes[request.volume.value].state.node) else None
  }

  /** The entry may take the request: it offers room and is not excluded by the request's volume. */
  ghost predicate MayTake(s: FsmState, request: ScheduleRequest, n: RaftId) {
    && n in s.nodes
    && Offers(s, n, s.nodes[n].millId, request.need)
    && (Pin(s, request).Some? ==> s.nodes[n].millId == Pin(s, request).value)
  }

  /** Some service allocation of that name is recorded on the node, whatever its status. */
  ghost predicate HostsService(s: FsmState, mill: NodeId, name: string) {
    exists id | id in s.allocs :: s.allocs[id].node == mill && s.allocs[id].name == name && s.allocs[id].kind == Service
  }

  /** The entry may take the request and is not passed over in favour of nodes without a replica. */
  ghost predicate MayBeat(s: FsmState, request: ScheduleRequest, n: RaftId) {
    && MayTake(s, request, n)
    && (request.kind == Service && HostsService(s, s.nodes[n].millId, request.name) ==>
          forall m | MayTake(s, request, m) :: HostsService(s, s.nodes[m].millId, request.name))
  }

  /** The entry may take the request; unless its volume decides, it spreads replicas and is the most packed of those. */
  ghost predicate IsBest(s: FsmState, request: ScheduleRequest, n: RaftId) {
    && MayTake(s, request, n)
    && (Pin(s, request).None? ==>
          && MayBeat(s, request, n)
          && forall m | MayBeat(s, request, m) ::
               AtMostAsFree(Capacity.Available(s, n).value, Capacity.Available(s, m).value))
  }

  /** The scheduling read of a placement: a node with the best entry for the request, if any may take it. */
  method ScheduleOn(s: FsmState, request: ScheduleRequest) returns (chosen: Option<NodeId>, ghost offered: RaftId)
    requires Fsm.KeysMatch(s)
    ensures chosen.Some? ==> IsBest(s, request, offered) && s.nodes[offered].millId == chosen.value
    ensures chosen.None? ==> forall n :: !MayTake(s, request, n)
  {
    var nodes := ListNodes(s);
    var allocs := ListAllocs(s);
    var volumes := ListVolumes(s);
    var room := AvailableOn(s);
    var available: AvailableFn := (id: RaftId) => if id in room then Some(room[id]) else None;
    chosen := Schedule(request, nodes, allocs, volumes, available);
    offered := ChosenIsBest(s, request, nodes, allocs, volumes, available);
  }

  /** What the scheduler is given is what the state holds. */
  ghost predicate Given(
    s: FsmState, nodes: seq<FsmNode>, allocs: seq<PlacedAlloc>, volumes: seq<NamedVolume>, available: AvailableFn)
  {
    && Fsm.KeysMatch(s) && Fsm.Lists(s, nodes)
    && (forall p :: p in allocs <==>
          exists id | id in s.allocs :: p == PlacedAlloc(s.allocs[id].node, s.allocs[id].name, s.allocs[id].kind))
    && (forall v :: v in volumes <==> v.name in s.volumes && s.volumes[v.name] == v.volume)
    && (forall id | id in s.nodes :: available(id) == Capacity.Available(s, id))
  }

  lemma ChosenIsBest(
    s: FsmState, request: ScheduleRequest, nodes: seq<FsmNode>, allocs: seq<PlacedAlloc>, volumes: seq<NamedVolume>,
    available: AvailableFn)
    returns (offered: RaftId)
    requires Given(s, nodes, allocs, volumes, available)
    ensures var chosen := Schedule(request, nodes, allocs, volumes, available);
            if chosen.Some? then IsBest(s, request, offered) && s.nodes[offered].millId == chosen.value
            else forall n :: !MayTake(s, request, n)
  {
    offered := 0;
    var chosen := Schedule(request, nodes, allocs, volumes, available);
    PinnedIsPin(s, request, volumes);
    ScheduleChoosesBest(request, nodes, allocs, volumes, available);
    if chosen.None? {
      NoneMayTake(s, request, nodes, allocs, volumes, available);
    } else if Pin(s, request).Some? {
      var n :| n in nodes && n.millId == chosen.value && Fits(n, available, request.need);
      offered := n.raftId;
    } else {
      var n :| BestChoice(request, nodes, allocs, available, n) && n.millId == chosen.value;
      offered := n.raftId;
      BestIsBest(s, request, nodes, allocs, volumes, available, n);
    }
  }

  lemma NoneMayTake(
    s: FsmState, request: ScheduleRequest, nodes: seq<FsmNode>, allocs: seq<PlacedAlloc>, volumes: seq<NamedVolume>,
    available: AvailableFn)
    requires Given(s, nodes, allocs, volumes, available) && PinnedNode(request, volumes) == Pin(s, request)
    requires forall n | n in nodes && Fits(n, available, request.need) ::
               Pin(s, request).Some? && n.millId != Pin(s, request).value
    ensures forall n :: !MayTake(s, request, n)
  {
    forall n ensures !MayTake(s, request, n) {
      if MayTake(s, request, n) {
        assert s.nodes[n] in nodes && Fits(s.nodes[n], available, request.need);
      }
    }
  }

  lemma HostsIsHosts(s: FsmState, allocs: seq<PlacedAlloc>, mill: NodeId, name: string)
    requires forall p :: p in allocs <==>
               exists id | id in s.allocs :: p == PlacedAlloc(s.allocs[id].node, s.allocs[id].name, s.allocs[id].kind)
    ensures Hosts(allocs, mill, name) <==> HostsService(s, mill, name)
  {
    if Hosts(allocs, mill, name) {
      var a :| a in allocs && a.node == mill && a.name == name && a.kind == Service;
      var id :| id in s.allocs && a == PlacedAlloc(s.allocs[id].node, s.allocs[id].name, s.allocs[id].kind);
      assert s.allocs[id].node == mill;
    }
    if HostsService(s, mill, name) {
      var id :| id in s.allocs && s.allocs[id].node == mill && s.allocs[id].name == name && s.allocs[id].kind == Service;
      assert PlacedAlloc(s.allocs[id].node, s.allocs[id].name, s.allocs[id].kind) in allocs;
    }
  }

  lemma EligibleIsMayBeat(
    s: FsmState, request: ScheduleRequest, nodes: seq<FsmNode>, allocs: seq<PlacedAlloc>, volumes: seq<NamedVolume>,
    available: AvailableFn, n: RaftId)
    requires Given(s, nodes, allocs, volumes, available) && Pin(s, request).None?
    ensures n in s.nodes ==> (Eligible(request, nodes, allocs, available, s.nodes[n]) <==> MayBeat(s, request, n))
  {
    if n in s.nodes {
      HostsIsHosts(s, allocs, s.nodes[n].millId, request.name);
      forall m | m in s.nodes
        ensures Fits(s.nodes[m], available, request.need) <==> MayTake(s, request, m)
        ensures Hosts(allocs, s.nodes[m].millId, request.name) <==> HostsService(s, s.nodes[m].millId, request.name)
        ensures s.nodes[m] in nodes
      {
        HostsIsHosts(s, allocs, s.nodes[m].millId, request.name);
      }
      assert forall other | other in nodes :: other.raftId in s.nodes && s.nodes[other.raftId] == other;
    }
  }

  lemma BestIsBest(
    s: FsmState, request: ScheduleRequest, nodes: seq<FsmNode>, allocs: seq<PlacedAlloc>, volumes: seq<NamedVolume>,
    available: AvailableFn, n: FsmNode)
    requires Given(s, nodes, allocs, volumes, available) && Pin(s, request).None?
    requires BestChoice(request, nodes, allocs, available, n)
    ensures IsBest(s, request, n.raftId)
  {
    EligibleIsMayBeat(s, request, nodes, allocs, volumes, available, n.raftId);
    forall m | MayBeat(s, request, m)
      ensures AtMostAsFree(Capacity.Available(s, n.raftId).value, Capacity.Available(s, m).value)
    {
      EligibleIsMayBeat(s, request, nodes, allocs, volumes, available, m);
      assert Eligible(request, nodes, allocs, available, s.nodes[m]);
    }
  }

  lemma PinnedIsPin(s: FsmState, request: ScheduleRequest, volumes: seq<NamedVolume>)
    requires forall v :: v in volumes <==> v.name in s.volumes && s.volumes[v.name] == v.volume
    ensures PinnedNode(request, volumes) == Pin(s, request)
  {
    if request.volume.Some? {
      FindVolumeIsFirst(volumes, request.volume.value);
      var name := request.volume.value;
      if name in s.volumes {
        assert NamedVolume(name, s.volumes[name]) in volumes;
      }
    }
  }

  lemma {:induction false} FindVolumeIsFirst(volumes: seq<NamedVolume>, name: string)
    ensures FindVolume(volumes, name).Some? ==> NamedVolume(name, FindVolume(volumes, name).value) in volumes
    ensures FindVolume(volumes, name).None? ==> forall v | v in volumes :: v.name != name
  {
    if volumes != [] {
      FindVolumeIsFirst(volumes[1..], name);
      assert volumes[0] in volumes;
    }
  }

  method AvailableOn(s: FsmState) returns (room: map<RaftId, NodeResources>)
    ensures room.Keys == s.nodes.Keys
    ensures forall id | id in room :: Capacity.Available(s, id) == Some(room[id])
  {
    room := map[];
    var todo := s.nodes.Keys;
    while todo != {}
      invariant todo <= s.nodes.Keys && room.Keys == s.nodes.Keys - todo
      invariant forall id | id in room :: Capacity.Available(s, id) == Some(room[id])
      decreases |todo|
    {
      var id :| id in todo;
      todo := todo - {id};
      var r := Capacity.NodeAvailableResources(s, id);
      room := room[id := r.value];
    }
  }

  method ListServiceAllocs(s: FsmState, name: string) returns (list: seq<(AllocId, NodeId)>)
    ensures ListsService(s, name, list)
  {
    list := [];
    var todo := s.allocs.Keys;
    while todo != {}
      invariant todo <= s.allocs.Keys
      invariant forall p | p in list ::
          p.0 in s.allocs && p.0 !in todo && s.allocs[p.0].name == name && s.allocs[p.0].node == p.1
      invariant forall id | id in s.allocs && id !in todo && s.allocs[id].name == name :: (id, s.allocs[id].node) in list
      invariant forall i, j | 0 <= i < j < |list| :: list[i].0 != list[j].0
      decreases |todo|
    {
      var id :| id in todo;
      todo := todo - {id};
      if s.allocs[id].name == name {
        list := list + [(id, s.allocs[id].node)];
      }
    }
  }

  method ListRunning(s: FsmState, node: RaftId) returns (mill: NodeId, listed: seq<Active>)
    ensures ListsRunning(s, node, mill, listed)
  {
    mill, listed := NodeId(""), [];
    if node !in s.nodes { return; }
    mill := s.nodes[node].millId;
    var todo := s.allocs.Keys;
    while todo != {}
      invariant todo <= s.allocs.Keys
      invariant forall i, j | 0 <= i < j < |listed| :: listed[i].id != listed[j].id
      invariant forall a | a in listed :: a.id !in todo && RunsOn(s, a.id, mill) && a == AsActive(s, a.id)
      invariant forall id | RunsOn(s, id, mill) && id !in todo :: AsActive(s, id) in listed
      decreases |todo|
    {
      var id :| id in todo;
      todo := todo - {id};
      if RunsOn(s, id, mill) {
        listed := listed + [AsActive(s, id)];
      }
    }
  }

  method FindReady(s: FsmState) returns (node: Option<RaftId>)
    ensures Sees(s, FirstReady(node))
  {
    node := None;
    if id :| id in s.nodes && s.nodes[id].status == Ready {
      node := Some(id);
    }
  }
}
