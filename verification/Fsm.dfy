/**
 The replicated state machine: `Apply` says what one command does to a state, the
 class `Fsm` does it in place, and the lemmas say what every run of commands keeps.
 */
module Fsm {
  import opened Types

  /** A heartbeat must not undo the promotion from Running to Healthy. */
  function MergeStatus(current: AllocStatus, reported: AllocStatus): AllocStatus {
    if current.Healthy? && reported.Running? then current else reported
  }

  function MergeStatuses(allocs: map<AllocId, Alloc>, statuses: map<AllocId, AllocStatus>):
    map<AllocId, Alloc>
  {
    map id | id in allocs ::
      if id in statuses then allocs[id].(status := MergeStatus(allocs[id].status, statuses[id]))
      else allocs[id]
  }

  /** Some allocation on the named node has not stopped or failed. */
  predicate HasActive(allocs: map<AllocId, Alloc>, mill: NodeId) {
    exists id | id in allocs :: allocs[id].node == mill && !allocs[id].status.IsTerminal()
  }

  function WithoutNode(allocs: map<AllocId, Alloc>, mill: NodeId): map<AllocId, Alloc> {
    map id | id in allocs && allocs[id].node != mill :: allocs[id]
  }

  function SetNodeStatus(s: FsmState, id: RaftId, status: NodeStatus): FsmState
    requires id in s.nodes
  {
    s.(nodes := s.nodes[id := s.nodes[id].(status := status)])
  }

  function MakeAlloc(c: Command, mill: NodeId): Alloc
    requires c.AllocScheduled?
  {
    Alloc(c.allocId, mill, c.name, c.kind, Pulling, c.allocAddress, c.need, None)
  }

  function MakeNode(c: Command): FsmNode
    requires c.NodeRegister?
  {
    FsmNode(c.id, c.millId, c.address, c.resources, Ready, c.wireguardPubkey, c.instanceId,
            c.rpcAddress, c.advertiseAddr)
  }

  function SetVolume(s: FsmState, name: string, state: VolumeState): (FsmState, Response) {
    if name in s.volumes then
      (s.(volumes := s.volumes[name := s.volumes[name].(state := state)]), Accepted)
    else
      (s, Rejected(UnknownVolume(name)))
  }

  /**
   What one committed command does: the next state and the response to its proposer.
   A rejected command changes nothing.
   */
  function Apply(s: FsmState, c: Command): (r: (FsmState, Response))
    ensures r.1.Rejected? ==> r.0 == s
  {
    match c
    case Deploy(config) =>
      (s.(config := Some(config)), Accepted)
    case NodeRegister(id, _, _, _, _, _, _, _) =>
      (s.(nodes := s.nodes[id := MakeNode(c)]), Accepted)
    case NodeHeartbeat(id, statuses) =>
      if id !in s.nodes then (s, Rejected(UnknownNode(id)))
      else
        var s' := if s.nodes[id].status == Down then SetNodeStatus(s, id, Ready) else s;
        (s'.(allocs := MergeStatuses(s.allocs, statuses)), Accepted)
    case NodeDown(id) =>
      if id in s.nodes then (SetNodeStatus(s, id, Down), Accepted)
      else (s, Rejected(UnknownNode(id)))
    case AllocScheduled(allocId, nodeId, _, _, _, _) =>
      if nodeId in s.nodes then
        (s.(allocs := s.allocs[allocId := MakeAlloc(c, s.nodes[nodeId].millId)]), Accepted)
      else (s, Rejected(UnknownNode(nodeId)))
    case SetAllocStatus(allocId, status) =>
      if allocId in s.allocs then
        (s.(allocs := s.allocs[allocId := s.allocs[allocId].(status := status)]), Accepted)
      else (s, Rejected(UnknownAlloc(allocId)))
    case AllocRunning(allocId, address, startedAt) =>
      if allocId !in s.allocs then (s, Rejected(UnknownAlloc(allocId)))
      else if s.allocs[allocId].status.Pulling? || s.allocs[allocId].status.Starting? then
        var a := s.allocs[allocId].(status := Running, address := address, startedAt := startedAt);
        (s.(allocs := s.allocs[allocId := a]), Accepted)
      else (s, Accepted)
    case SecretSet(name, secret) =>
      (s.(secrets := s.secrets[name := secret]), Accepted)
    case SecretDelete(name) =>
      if name in s.secrets then (s.(secrets := s.secrets - {name}), Accepted)
      else (s, Rejected(UnknownSecret(name)))
    case VolumeCreated(name, cloudId) =>
      (s.(volumes := s.volumes[name := FsmVolume(cloudId, Unattached)]), Accepted)
    case VolumeAttached(name, nodeId) =>
      if nodeId in s.nodes then SetVolume(s, name, Attached(s.nodes[nodeId].millId))
      else (s, Rejected(UnknownNode(nodeId)))
    case VolumeDetached(name) =>
      SetVolume(s, name, Unattached)
    case VolumeDestroyed(name) =>
      (s.(volumes := s.volumes - {name}), Accepted)
    case NodeDrain(id) =>
      if id in s.nodes then (SetNodeStatus(s, id, Draining), Accepted)
      else (s, Rejected(UnknownNode(id)))
    case NodeRemove(id) =>
      if id !in s.nodes then (s, Rejected(UnknownNode(id)))
      else if HasActive(s.allocs, s.nodes[id].millId) then (s, Rejected(NodeBusy(id)))
      else
        (s.(allocs := WithoutNode(s.allocs, s.nodes[id].millId), nodes := s.nodes - {id}), Accepted)
  }

  /** The state after a run of commands. */
  function Replay(s: FsmState, commands: seq<Command>): FsmState {
    if commands == [] then s
    else Apply(Replay(s, commands[..|commands| - 1]), commands[|commands| - 1]).0
  }

  lemma {:induction false} ReplayConcat(s: FsmState, a: seq<Command>, b: seq<Command>)
    ensures Replay(s, a + b) == Replay(Replay(s, a), b)
    decreases |b|
  {
    if b == [] {
      assert a + b == a;
    } else {
      var n := |a + b| - 1;
      assert (a + b)[..n] == a + b[..|b| - 1];
      ReplayConcat(s, a, b[..|b| - 1]);
    }
  }

  /** The state machine updated in place. */
  class Fsm {
    var config: Option<ClusterConfig>
    var nodes: map<RaftId, FsmNode>
    var allocs: map<AllocId, Alloc>
    var secrets: map<string, EncryptedSecret>
    var volumes: map<string, FsmVolume>

    function State(): FsmState
      reads this
    {
      FsmState(config, nodes, allocs, secrets, volumes)
    }

    constructor (s: FsmState)
      ensures State() == s
    {
      config, nodes, allocs, secrets, volumes := s.config, s.nodes, s.allocs, s.secrets, s.volumes;
    }

    /** Apply one command in place. */
    method ApplyCommand(c: Command) returns (response: Response)
      modifies this
      ensures (State(), response) == Apply(old(State()), c)
    {
      response := Accepted;
      match c
      case Deploy(newConfig) =>
        config := Some(newConfig);
      case NodeRegister(id, _, _, _, _, _, _, _) =>
        nodes := nodes[id := MakeNode(c)];
      case NodeHeartbeat(id, statuses) =>
        if id !in nodes { return Rejected(UnknownNode(id)); }
        if nodes[id].status == Down {
          nodes := nodes[id := nodes[id].(status := Ready)];
        }
        TakeStatuses(statuses);
      case NodeDown(id) =>
        if id !in nodes { return Rejected(UnknownNode(id)); }
        nodes := nodes[id := nodes[id].(status := Down)];
      case AllocScheduled(allocId, nodeId, _, _, _, _) =>
        if nodeId !in nodes { return Rejected(UnknownNode(nodeId)); }
        allocs := allocs[allocId := MakeAlloc(c, nodes[nodeId].millId)];
      case SetAllocStatus(allocId, status) =>
        if allocId !in allocs { return Rejected(UnknownAlloc(allocId)); }
        allocs := allocs[allocId := allocs[allocId].(status := status)];
      case AllocRunning(allocId, address, startedAt) =>
        if allocId !in allocs { return Rejected(UnknownAlloc(allocId)); }
        var a := allocs[allocId];
        if a.status.Pulling? || a.status.Starting? {
          allocs := allocs[allocId := a.(status := Running, address := address, startedAt := startedAt)];
        }
      case SecretSet(name, secret) =>
        secrets := secrets[name := secret];
      case SecretDelete(name) =>
        if name !in secrets { return Rejected(UnknownSecret(name)); }
        secrets := secrets - {name};
      case VolumeCreated(name, cloudId) =>
        volumes := volumes[name := FsmVolume(cloudId, Unattached)];
      case VolumeAttached(name, nodeId) =>
        if nodeId !in nodes { return Rejected(UnknownNode(nodeId)); }
        if name !in volumes { return Rejected(UnknownVolume(name)); }
        volumes := volumes[name := volumes[name].(state := Attached(nodes[nodeId].millId))];
      case VolumeDetached(name) =>
        if name !in volumes { return Rejected(UnknownVolume(name)); }
        volumes := volumes[name := volumes[name].(state := Unattached)];
      case VolumeDestroyed(name) =>
        volumes := volumes - {name};
      case NodeDrain(id) =>
        if id !in nodes { return Rejected(UnknownNode(id)); }
        nodes := nodes[id := nodes[id].(status := Draining)];
      case NodeRemove(id) =>
        if id !in nodes { return Rejected(UnknownNode(id)); }
        var mill := nodes[id].millId;
        if HasActive(allocs, mill) { return Rejected(NodeBusy(id)); }
        allocs := WithoutNode(allocs, mill);
        nodes := nodes - {id};
    }

    /**
     The heartbeat's loop over the reported statuses. The next report to take is
     chosen arbitrarily, so the result holds for every iteration order.
     */
    method TakeStatuses(statuses: map<AllocId, AllocStatus>)
      modifies this`allocs
      ensures allocs == MergeStatuses(old(allocs), statuses)
    {
      var todo := statuses.Keys;
      while todo != {}
        invariant todo <= statuses.Keys
        invariant allocs.Keys == old(allocs).Keys
        invariant forall id | id in allocs ::
            allocs[id] == if id in statuses && id !in todo
                          then old(allocs)[id].(status := MergeStatus(old(allocs)[id].status, statuses[id]))
                          else old(allocs)[id]
        decreases |todo|
      {
        var id :| id in todo;
        todo := todo - {id};
        if id in allocs {
          var a := allocs[id];
          if !(a.status.Healthy? && statuses[id].Running?) {
            allocs := allocs[id := a.(status := statuses[id])];
          }
        }
      }
    }
  }

  /** Only a registration changes more of a node than its status, or adds one. */
  lemma NodesFrame(s: FsmState, c: Command)
    requires !c.NodeRegister?
    ensures forall n | n in Apply(s, c).0.nodes ::
              n in s.nodes && Apply(s, c).0.nodes[n] == s.nodes[n].(status := Apply(s, c).0.nodes[n].status)
  {
  }

  /** What a command does to the registered nodes, whatever else it does. */
  lemma NodesAfter(s: FsmState, c: Command)
    ensures var nodes := Apply(s, c).0.nodes;
            if c.NodeRegister? then nodes == s.nodes[c.id := MakeNode(c)]
            else if (c.NodeDown? || c.NodeDrain?) && c.id in s.nodes then
              nodes == s.nodes[c.id := s.nodes[c.id].(status := if c.NodeDown? then Down else Draining)]
            else if c.NodeHeartbeat? && c.id in s.nodes then
              nodes == if s.nodes[c.id].status == Down then s.nodes[c.id := s.nodes[c.id].(status := Ready)] else s.nodes
            else if c.NodeRemove? then nodes == s.nodes || nodes == s.nodes - {c.id}
            else nodes == s.nodes
  {
  }

  /** Only a deploy changes the configuration. */
  lemma ConfigFrame(s: FsmState, c: Command)
    requires !c.Deploy?
    ensures Apply(s, c).0.config == s.config
  {
  }

  /** `a` is `b` in another stage of its life: only status, address and start time may differ. */
  predicate SameAlloc(a: Alloc, b: Alloc) {
    a == b.(status := a.status, address := a.address, startedAt := a.startedAt)
  }

  /** Only scheduling adds an allocation or changes what it is. */
  lemma AllocsFrame(s: FsmState, c: Command)
    requires !c.AllocScheduled?
    ensures forall a | a in Apply(s, c).0.allocs ::
              a in s.allocs && SameAlloc(Apply(s, c).0.allocs[a], s.allocs[a])
  {
  }

  // ----- Integrity over every run -----

  /** Every map key is the id stored under it. */
  ghost predicate KeysMatch(s: FsmState) {
    && (forall id | id in s.nodes :: s.nodes[id].raftId == id)
    && (forall id | id in s.allocs :: s.allocs[id].id == id)
  }

  ghost predicate Registered(s: FsmState, mill: NodeId) {
    exists id | id in s.nodes :: s.nodes[id].millId == mill
  }

  /** Every allocation's node is registered. */
  ghost predicate AllocsRegistered(s: FsmState) {
    forall id | id in s.allocs :: Registered(s, s.allocs[id].node)
  }

  /** The command does not move an already registered raft id to another node name. */
  ghost predicate KeepsMillId(s: FsmState, c: Command) {
    c.NodeRegister? && c.id in s.nodes ==> s.nodes[c.id].millId == c.millId
  }

  lemma StepKeepsKeys(s: FsmState, c: Command)
    requires KeysMatch(s)
    ensures KeysMatch(Apply(s, c).0)
  {
  }

  lemma {:induction false} RunKeepsKeys(commands: seq<Command>)
    ensures KeysMatch(Replay(InitialState(), commands))
  {
    if commands != [] {
      var before := Replay(InitialState(), commands[..|commands| - 1]);
      RunKeepsKeys(commands[..|commands| - 1]);
      StepKeepsKeys(before, commands[|commands| - 1]);
    }
  }

  lemma StepKeepsRegistered(s: FsmState, c: Command)
    requires AllocsRegistered(s) && KeepsMillId(s, c)
    ensures AllocsRegistered(Apply(s, c).0)
  {
    var s' := Apply(s, c).0;
    forall a | a in s'.allocs ensures Registered(s', s'.allocs[a].node) {
      if c.AllocScheduled? && a == c.allocId && c.nodeId in s.nodes {
        assert s'.nodes[c.nodeId].millId == s'.allocs[a].node;
      } else {
        var n :| n in s.nodes && s.nodes[n].millId == s.allocs[a].node;
        assert s'.nodes[n].millId == s'.allocs[a].node;
      }
    }
  }

  /**
   When every re-registration in a run keeps the id's node name, every allocation of
   the final state names a registered node.
   */
  lemma {:induction false} RunKeepsRegistered(commands: seq<Command>)
    requires forall k | 0 <= k < |commands| ::
               KeepsMillId(Replay(InitialState(), commands[..k]), commands[k])
    ensures AllocsRegistered(Replay(InitialState(), commands))
  {
    if commands != [] {
      var n := |commands| - 1;
      var before := commands[..n];
      forall k | 0 <= k < n ensures KeepsMillId(Replay(InitialState(), before[..k]), before[k]) {
        assert before[..k] == commands[..k];
      }
      RunKeepsRegistered(before);
      StepKeepsRegistered(Replay(InitialState(), before), commands[n]);
    }
  }

  /**
   Exactly when a registration leaves every allocation's node registered: no allocation
   names the id's previous node, or the name is kept, or another id carries it too.
   */
  lemma RegisterKeepsRegisteredIff(s: FsmState, c: Command)
    requires AllocsRegistered(s) && c.NodeRegister? && c.id in s.nodes
    ensures AllocsRegistered(Apply(s, c).0) <==>
            || s.nodes[c.id].millId == c.millId
            || (exists n | n in s.nodes :: n != c.id && s.nodes[n].millId == s.nodes[c.id].millId)
            || (forall a | a in s.allocs :: s.allocs[a].node != s.nodes[c.id].millId)
  {
    var s' := Apply(s, c).0;
    var was := s.nodes[c.id].millId;
    assert forall n | n in s'.nodes && n != c.id :: n in s.nodes && s'.nodes[n] == s.nodes[n];
    if exists n | n in s.nodes :: n != c.id && s.nodes[n].millId == was {
      var n :| n in s.nodes && n != c.id && s.nodes[n].millId == was;
      assert s'.nodes[n].millId == was;
    }
    forall a | a in s.allocs && s.allocs[a].node != was ensures Registered(s', s.allocs[a].node) {
      var n :| n in s.nodes && s.nodes[n].millId == s.allocs[a].node;
      assert s'.nodes[n].millId == s.allocs[a].node;
    }
    if s.nodes[c.id].millId == c.millId {
      assert s'.nodes[c.id].millId == was;
    }
  }

  // ----- Lookups -----

  ghost predicate UniqueMills(s: FsmState) {
    forall m, n | m in s.nodes && n in s.nodes :: s.nodes[m].millId == s.nodes[n].millId ==> m == n
  }

  /** The registered nodes, in some order. */
  ghost predicate Lists(s: FsmState, nodes: seq<FsmNode>) {
    && (forall n | n in nodes :: n.raftId in s.nodes && s.nodes[n.raftId] == n)
    && (forall id | id in s.nodes :: s.nodes[id] in nodes)
  }

  /** `raft_id_for`: the first listed node with that name. */
  function FindByMill(nodes: seq<FsmNode>, mill: NodeId): (found: Option<FsmNode>)
    ensures found.Some? ==> found.value in nodes && found.value.millId == mill
    ensures found.None? ==> forall n | n in nodes :: n.millId != mill
  {
    if nodes == [] then None
    else if nodes[0].millId == mill then Some(nodes[0])
    else FindByMill(nodes[1..], mill)
  }

  /** With unique names the order of the nodes does not matter to the lookup. */
  lemma FindByMillAnyOrder(s: FsmState, nodes: seq<FsmNode>, others: seq<FsmNode>, mill: NodeId)
    requires UniqueMills(s) && Lists(s, nodes) && Lists(s, others)
    ensures FindByMill(nodes, mill) == FindByMill(others, mill)
    ensures FindByMill(nodes, mill).Some? <==> Registered(s, mill)
  {
    var a, b := FindByMill(nodes, mill), FindByMill(others, mill);
    if a.Some? {
      assert s.nodes[a.value.raftId] in others;
    }
    assert b.Some? ==> s.nodes[b.value.raftId] in nodes;
  }
}
