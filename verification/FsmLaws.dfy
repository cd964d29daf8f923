/**
 What the commands mean to those who read the state: on every run of commands, whatever is read of a
 volume, a secret, the configuration, a node or an allocation was put there by the last command that
 could, and by no other.
 */
module FsmLaws {
  import opened Types
  import Fsm

  // ----- Responses -----

  /** Something that has not stopped or failed is on the node. */
  ghost predicate IsBusy(s: FsmState, id: RaftId)
    requires id in s.nodes
  {
    exists a | a in s.allocs :: s.allocs[a].node == s.nodes[id].millId && !s.allocs[a].status.IsTerminal()
  }

  /** What the command names is there, and a node to be removed is idle. */
  ghost predicate Feasible(s: FsmState, c: Command) {
    match c
    case NodeHeartbeat(id, _) => id in s.nodes
    case NodeDown(id) => id in s.nodes
    case NodeDrain(id) => id in s.nodes
    case NodeRemove(id) => id in s.nodes && !IsBusy(s, id)
    case AllocScheduled(_, node, _, _, _, _) => node in s.nodes
    case SetAllocStatus(id, _) => id in s.allocs
    case AllocRunning(id, _, _) => id in s.allocs
    case SecretDelete(name) => name in s.secrets
    case VolumeAttached(name, node) => name in s.volumes && node in s.nodes
    case VolumeDetached(name) => name in s.volumes
    case _ => true
  }

  /** The reason is a true one. */
  ghost predicate IsTrue(s: FsmState, why: Rejection) {
    match why
    case UnknownNode(id) => id !in s.nodes
    case UnknownAlloc(id) => id !in s.allocs
    case UnknownSecret(name) => name !in s.secrets
    case UnknownVolume(name) => name !in s.volumes
    case NodeBusy(id) => id in s.nodes && IsBusy(s, id)
  }

  /** A command is accepted exactly if it is feasible; it is rejected for a true reason and changes nothing. */
  lemma AcceptedIff(s: FsmState, c: Command)
    ensures var (after, response) := Fsm.Apply(s, c);
            && (response.Accepted? <==> Feasible(s, c))
            && (response.Rejected? ==> after == s && IsTrue(s, response.why))
  {
  }

  // ----- Runs -----

  ghost predicate IsHistory(states: seq<FsmState>, commands: seq<Command>) {
    && |states| == |commands| + 1
    && forall k | 0 <= k < |commands| :: Follows(states, commands, k)
  }

  ghost predicate Follows(states: seq<FsmState>, commands: seq<Command>, k: nat)
    requires k < |commands| < |states|
  {
    states[k + 1] == Fsm.Apply(states[k], commands[k]).0
  }

  /** What no step changes is at the end what it was. */
  lemma {:induction false} Unchanged<T>(states: seq<FsmState>, read: FsmState -> T, lo: nat, hi: nat)
    requires lo <= hi < |states| && forall k | lo <= k < hi :: read(states[k + 1]) == read(states[k])
    ensures read(states[hi]) == read(states[lo])
    decreases hi
  {
    if lo < hi {
      Unchanged(states, read, lo, hi - 1);
      assert read(states[hi - 1 + 1]) == read(states[hi - 1]);
    }
  }

  function Get<K, V>(m: map<K, V>, key: K): Option<V> {
    if key in m then Some(m[key]) else None
  }

  // ----- Volumes and secrets -----

  predicate NamesVolume(c: Command, name: string) {
    (c.VolumeCreated? || c.VolumeAttached? || c.VolumeDetached? || c.VolumeDestroyed?) && c.name == name
  }

  predicate NamesSecret(c: Command, name: string) {
    (c.SecretSet? || c.SecretDelete?) && c.name == name
  }

  lemma VolumesFrame(s: FsmState, c: Command, name: string)
    requires !NamesVolume(c, name) || !Feasible(s, c)
    ensures Get(Fsm.Apply(s, c).0.volumes, name) == Get(s.volumes, name)
  {
  }

  lemma SecretsFrame(s: FsmState, c: Command, name: string)
    requires !NamesSecret(c, name) || !Feasible(s, c)
    ensures Get(Fsm.Apply(s, c).0.secrets, name) == Get(s.secrets, name)
  {
  }

  /** From `lo` on no command that names the volume is accepted. */
  ghost predicate VolumeLeft(states: seq<FsmState>, commands: seq<Command>, name: string, lo: nat)
    requires |commands| < |states|
  {
    forall k | lo <= k < |commands| :: !NamesVolume(commands[k], name) || !Feasible(states[k], commands[k])
  }

  ghost predicate SecretLeft(states: seq<FsmState>, commands: seq<Command>, name: string, lo: nat)
    requires |commands| < |states|
  {
    forall k | lo <= k < |commands| :: !NamesSecret(commands[k], name) || !Feasible(states[k], commands[k])
  }

  lemma VolumeStays(states: seq<FsmState>, commands: seq<Command>, name: string, lo: nat)
    requires IsHistory(states, commands) && lo <= |commands| && VolumeLeft(states, commands, name, lo)
    ensures Get(states[|commands|].volumes, name) == Get(states[lo].volumes, name)
  {
    var read := (s: FsmState) => Get(s.volumes, name);
    forall k | lo <= k < |commands| ensures read(states[k + 1]) == read(states[k]) {
      assert Follows(states, commands, k);
      VolumesFrame(states[k], commands[k], name);
    }
    Unchanged(states, read, lo, |commands|);
  }

  lemma SecretStays(states: seq<FsmState>, commands: seq<Command>, name: string, lo: nat)
    requires IsHistory(states, commands) && lo <= |commands| && SecretLeft(states, commands, name, lo)
    ensures Get(states[|commands|].secrets, name) == Get(states[lo].secrets, name)
  {
    var read := (s: FsmState) => Get(s.secrets, name);
    forall k | lo <= k < |commands| ensures read(states[k + 1]) == read(states[k]) {
      assert Follows(states, commands, k);
      SecretsFrame(states[k], commands[k], name);
    }
    Unchanged(states, read, lo, |commands|);
  }

  /** What the last accepted command about a volume says of it; `s` is the state it was applied to. */
  ghost predicate VolumeIs(s: FsmState, c: Command, volume: Option<FsmVolume>) {
    match c
    case VolumeCreated(_, cloudId) => volume == Some(FsmVolume(cloudId, Unattached))
    case VolumeAttached(name, node) =>
      && node in s.nodes && name in s.volumes
      && volume == Some(FsmVolume(s.volumes[name].cloudId, Attached(s.nodes[node].millId)))
    case VolumeDetached(name) => name in s.volumes && volume == Some(FsmVolume(s.volumes[name].cloudId, Unattached))
    case VolumeDestroyed(_) => volume.None?
    case _ => false
  }

  /**
   On every run a volume is as the last accepted command that names it says: on the attached node,
   unattached, or gone; and if there is none, it is as it was.
   */
  lemma VolumeIsLast(states: seq<FsmState>, commands: seq<Command>, name: string, k: nat)
    requires IsHistory(states, commands) && k < |commands| && VolumeLeft(states, commands, name, k + 1)
    requires NamesVolume(commands[k], name) && Feasible(states[k], commands[k])
    ensures VolumeIs(states[k], commands[k], Get(states[|commands|].volumes, name))
  {
    assert Follows(states, commands, k);
    VolumeStays(states, commands, name, k + 1);
  }

  /** The same of a secret: what was set last is found, and what was deleted last is not. */
  lemma SecretIsLast(states: seq<FsmState>, commands: seq<Command>, name: string, k: nat)
    requires IsHistory(states, commands) && k < |commands| && SecretLeft(states, commands, name, k + 1)
    requires NamesSecret(commands[k], name) && Feasible(states[k], commands[k])
    ensures Get(states[|commands|].secrets, name) == if commands[k].SecretSet? then Some(commands[k].secret) else None
  {
    assert Follows(states, commands, k);
    SecretStays(states, commands, name, k + 1);
  }

  // ----- The configuration -----

  lemma ConfigIsLast(states: seq<FsmState>, commands: seq<Command>, k: nat)
    requires IsHistory(states, commands) && k < |commands| && commands[k].Deploy?
    requires forall j | k < j < |commands| :: !commands[j].Deploy?
    ensures states[|commands|].config == Some(commands[k].config)
  {
    var read := (s: FsmState) => s.config;
    assert Follows(states, commands, k);
    forall j | k < j < |commands| ensures read(states[j + 1]) == read(states[j]) {
      assert Follows(states, commands, j);
      Fsm.ConfigFrame(states[j], commands[j]);
    }
    Unchanged(states, read, k + 1, |commands|);
  }

  // ----- Nodes -----

  /** What is registered of a node, besides its status. */
  function Identity(s: FsmState, id: RaftId): Option<FsmNode> {
    if id in s.nodes then Some(s.nodes[id].(status := Ready)) else None
  }

  predicate ChangesNode(c: Command, id: RaftId) {
    (c.NodeRegister? || c.NodeRemove?) && c.id == id
  }

  ghost predicate NodeLeft(states: seq<FsmState>, commands: seq<Command>, id: RaftId, lo: nat)
    requires |commands| < |states|
  {
    forall k | lo <= k < |commands| :: !ChangesNode(commands[k], id) || !Feasible(states[k], commands[k])
  }

  lemma IdentityFrame(s: FsmState, c: Command, id: RaftId)
    requires !ChangesNode(c, id) || !Feasible(s, c)
    ensures Identity(Fsm.Apply(s, c).0, id) == Identity(s, id)
  {
    Fsm.NodesAfter(s, c);
  }

  /**
   On every run a node is registered as its last accepted registration says, with every field of it,
   and is not registered if it was removed since.
   */
  lemma NodeIsLast(states: seq<FsmState>, commands: seq<Command>, id: RaftId, k: nat)
    requires IsHistory(states, commands) && k < |commands| && NodeLeft(states, commands, id, k + 1)
    requires ChangesNode(commands[k], id) && Feasible(states[k], commands[k])
    ensures var c, s := commands[k], states[|commands|];
            if c.NodeRemove? then id !in s.nodes
            else
              && id in s.nodes && s.nodes[id].raftId == id && s.nodes[id].millId == c.millId
              && s.nodes[id].address == c.address && s.nodes[id].resources == c.resources
              && s.nodes[id].wireguardPubkey == c.wireguardPubkey && s.nodes[id].instanceId == c.instanceId
              && s.nodes[id].rpcAddress == c.rpcAddress && s.nodes[id].advertiseAddr == c.advertiseAddr
  {
    var read := (s: FsmState) => Identity(s, id);
    assert Follows(states, commands, k);
    forall j | k < j < |commands| ensures read(states[j + 1]) == read(states[j]) {
      assert Follows(states, commands, j);
      IdentityFrame(states[j], commands[j], id);
    }
    Unchanged(states, read, k + 1, |commands|);
  }

  /** The command gives the node this status: a heartbeat only brings back one that is down. */
  function StatusGiven(s: FsmState, c: Command, id: RaftId): Option<NodeStatus> {
    if c.NodeRegister? && c.id == id then Some(Ready)
    else if c.NodeDown? && c.id == id then Some(Down)
    else if c.NodeDrain? && c.id == id then Some(Draining)
    else if c.NodeHeartbeat? && c.id == id && id in s.nodes && s.nodes[id].status == Down then Some(Ready)
    else None
  }

  lemma NodeStatusStep(s: FsmState, c: Command, id: RaftId)
    requires id in Fsm.Apply(s, c).0.nodes
    ensures var given, after := StatusGiven(s, c, id), Fsm.Apply(s, c).0.nodes[id].status;
            if given.Some? then after == given.value else id in s.nodes && after == s.nodes[id].status
  {
    Fsm.NodesAfter(s, c);
  }

  /** On every run the status of a node that stays registered is the one it was given last. */
  lemma {:induction false} NodeStatusIsLast(states: seq<FsmState>, commands: seq<Command>, id: RaftId, k: nat, hi: nat)
    requires IsHistory(states, commands) && k < hi <= |commands| && StatusGiven(states[k], commands[k], id).Some?
    requires forall j | k < j < hi :: StatusGiven(states[j], commands[j], id).None?
    requires id in states[hi].nodes
    ensures states[hi].nodes[id].status == StatusGiven(states[k], commands[k], id).value
    decreases hi
  {
    assert Follows(states, commands, hi - 1);
    NodeStatusStep(states[hi - 1], commands[hi - 1], id);
    if k < hi - 1 {
      NodeStatusIsLast(states, commands, id, k, hi - 1);
    }
  }

  // ----- Allocations -----

  /** The command takes the allocation away: it removes the idle node that it is on. */
  ghost predicate Removes(s: FsmState, c: Command, id: AllocId) {
    && c.NodeRemove? && Feasible(s, c)
    && id in s.allocs && s.allocs[id].node == s.nodes[c.id].millId
  }

  predicate Records(s: FsmState, c: Command, id: AllocId) {
    c.AllocScheduled? && c.allocId == id && c.nodeId in s.nodes
  }

  /** What an allocation is, besides its status, address and start time. */
  function Kernel(s: FsmState, id: AllocId): Option<Alloc> {
    if id in s.allocs then Some(s.allocs[id].(status := Pulling, address := None, startedAt := None)) else None
  }

  lemma KernelFrame(s: FsmState, c: Command, id: AllocId)
    requires !Removes(s, c, id) && !Records(s, c, id)
    ensures Kernel(Fsm.Apply(s, c).0, id) == Kernel(s, id)
  {
  }

  ghost predicate AllocLeft(states: seq<FsmState>, commands: seq<Command>, id: AllocId, lo: nat)
    requires |commands| < |states|
  {
    forall k | lo <= k < |commands| :: !Removes(states[k], commands[k], id) && !Records(states[k], commands[k], id)
  }

  /** On every run an allocation is what it was recorded as last, on the node that was named then. */
  lemma AllocIsLast(states: seq<FsmState>, commands: seq<Command>, id: AllocId, k: nat)
    requires IsHistory(states, commands) && k < |commands| && AllocLeft(states, commands, id, k + 1)
    requires Removes(states[k], commands[k], id) || Records(states[k], commands[k], id)
    ensures var c, s := commands[k], states[|commands|];
            if c.NodeRemove? then id !in s.allocs
            else
              && id in s.allocs && s.allocs[id].id == id && s.allocs[id].node == states[k].nodes[c.nodeId].millId
              && s.allocs[id].name == c.name && s.allocs[id].kind == c.kind && s.allocs[id].resources == c.need
  {
    var read := (s: FsmState) => Kernel(s, id);
    assert Follows(states, commands, k);
    forall j | k < j < |commands| ensures read(states[j + 1]) == read(states[j]) {
      assert Follows(states, commands, j);
      KernelFrame(states[j], commands[j], id);
    }
    Unchanged(states, read, k + 1, |commands|);
  }

  /** An allocation's status, address and start time. */
  datatype Stage = Stage(status: AllocStatus, address: Option<SocketAddr>, startedAt: Option<Time>)

  function StageOf(s: FsmState, id: AllocId): Option<Stage> {
    if id in s.allocs then Some(Stage(s.allocs[id].status, s.allocs[id].address, s.allocs[id].startedAt)) else None
  }

  /** What the command makes of the allocation's stage, if anything. */
  function StageGiven(s: FsmState, c: Command, id: AllocId): Option<Stage> {
    if Records(s, c, id) then Some(Stage(Pulling, c.allocAddress, None))
    else if id !in s.allocs then None
    else
      var a := s.allocs[id];
      if c.SetAllocStatus? && c.allocId == id then Some(Stage(c.status, a.address, a.startedAt))
      else if c.AllocRunning? && c.allocId == id && a.status in {Pulling, Starting} then
        Some(Stage(Running, c.allocAddress, c.startedAt))
      else if c.NodeHeartbeat? && c.id in s.nodes && id in c.statuses then
        Some(Stage(if a.status == Healthy && c.statuses[id] == Running then Healthy else c.statuses[id],
                   a.address, a.startedAt))
      else None
  }

  lemma StageStep(s: FsmState, c: Command, id: AllocId)
    requires id in Fsm.Apply(s, c).0.allocs
    ensures var given := StageGiven(s, c, id);
            StageOf(Fsm.Apply(s, c).0, id) == if given.Some? then given else StageOf(s, id)
    ensures StageGiven(s, c, id).None? ==> id in s.allocs
  {
  }

  /**
   On every run the status, address and start time of an allocation are those it was given last: a
   report of a start counts only before it runs, and a heartbeat does not undo a promotion.
   */
  lemma {:induction false} StageIsLast(states: seq<FsmState>, commands: seq<Command>, id: AllocId, k: nat, hi: nat)
    requires IsHistory(states, commands) && k < hi <= |commands| && StageGiven(states[k], commands[k], id).Some?
    requires forall j | k < j < hi :: StageGiven(states[j], commands[j], id).None?
    requires id in states[hi].allocs
    ensures StageOf(states[hi], id) == StageGiven(states[k], commands[k], id)
    decreases hi
  {
    assert Follows(states, commands, hi - 1);
    StageStep(states[hi - 1], commands[hi - 1], id);
    if k < hi - 1 {
      StageIsLast(states, commands, id, k, hi - 1);
    }
  }
}
