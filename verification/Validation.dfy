/** What the two checks before a deploy mean: which configurations they let through. */
module Validation {
  import opened Types
  import opened Cluster
  import Capacity
  import EnvParse
  import RunDeploy

  // ----- Secrets -----

  /** Every environment value of the configuration has a value. */
  ghost predicate AllResolve(config: ClusterConfig, env: EnvParse.Environment) {
    && (forall name, key | name in config.services && key in config.services[name].env ::
          EnvParse.Value(config.services[name].env[key], env).Some?)
    && (forall name, key | name in config.tasks && key in config.tasks[name].env ::
          EnvParse.Value(config.tasks[name].env[key], env).Some?)
  }

  lemma {:induction false} PartsResolveIff(parts: seq<EnvPart>, env: EnvParse.Environment)
    ensures EnvParse.PartsValue(parts, env).Some? <==> forall part | part in parts :: EnvParse.PartValue(part, env).Some?
  {
    if parts != [] {
      var n := |parts| - 1;
      PartsResolveIff(parts[..n], env);
      assert parts == parts[..n] + [parts[n]];
    }
  }

  lemma EnvResolvesIff(s: FsmState, values: map<string, EnvValue>, env: EnvParse.Environment)
    requires forall name :: env.address(name).Some?
    requires forall name :: env.secret(name).Some? <==> name in s.secrets
    ensures SecretsIn(values, s) <==> forall key | key in values :: EnvParse.Value(values[key], env).Some?
  {
    forall key | key in values && values[key].Interpolated?
      ensures EnvParse.Value(values[key], env).Some? <==>
              forall part | part in values[key].parts && part.Secret? :: part.name in s.secrets
    {
      PartsResolveIff(values[key].parts, env);
    }
  }

  /**
   The check of secrets passes exactly if every environment value can be resolved as soon as all
   services have addresses.
   */
  lemma SecretsPassIff(s: FsmState, config: ClusterConfig, env: EnvParse.Environment)
    requires forall name :: env.address(name).Some?
    requires forall name :: env.secret(name).Some? <==> name in s.secrets
    ensures Sees(s, SecretsChecked(config, true)) <==> AllResolve(config, env)
  {
    forall name | name in config.services
      ensures SecretsIn(config.services[name].env, s) <==>
              forall key | key in config.services[name].env :: EnvParse.Value(config.services[name].env[key], env).Some?
    {
      EnvResolvesIff(s, config.services[name].env, env);
    }
    forall name | name in config.tasks
      ensures SecretsIn(config.tasks[name].env, s) <==>
              forall key | key in config.tasks[name].env :: EnvParse.Value(config.tasks[name].env[key], env).Some?
    {
      EnvResolvesIff(s, config.tasks[name].env, env);
    }
  }

  // ----- Capacity -----

  /** The nodes with nothing running on them. */
  function Idle(s: FsmState): FsmState {
    s.(allocs := map[])
  }

  /** Some ready node has the resources to spare. */
  ghost predicate HasRoom(s: FsmState, need: Resources) {
    exists n | n in s.nodes ::
      && s.nodes[n].status == Ready
      && var free := Capacity.Available(s, n).value;
      need.cpu <= free.cpuAvailable && need.memory <= free.memoryAvailable
  }

  /** Some node has the CPU and some node the memory. */
  ghost predicate HasEach(s: FsmState, need: Resources) {
    HasRoom(s, need.(memory := 0)) && HasRoom(s, need.(cpu := 0.0))
  }

  ghost predicate TotalsArePositive(s: FsmState) {
    forall n | n in s.nodes :: s.nodes[n].resources.cpuTotal >= 0.0
  }

  lemma IdleIsTotal(s: FsmState, n: RaftId)
    requires n in s.nodes
    ensures var free := Capacity.Available(Idle(s), n).value;
            && free.cpuAvailable == s.nodes[n].resources.cpuTotal
            && free.memoryAvailable == s.nodes[n].resources.memoryTotal
  {
  }

  /** What a node without allocations has room for. */
  lemma IdleRoomIff(s: FsmState, need: Resources)
    ensures HasRoom(Idle(s), need) <==>
            exists n | n in s.nodes ::
              && s.nodes[n].status == Ready
              && need.cpu <= s.nodes[n].resources.cpuTotal && need.memory <= s.nodes[n].resources.memoryTotal
  {
    forall n | n in s.nodes
      ensures var free := Capacity.Available(Idle(s), n).value;
              && free.cpuAvailable == s.nodes[n].resources.cpuTotal
              && free.memoryAvailable == s.nodes[n].resources.memoryTotal
    {
      IdleIsTotal(s, n);
    }
  }

  lemma FitsLargestIff(s: FsmState, need: Resources)
    requires TotalsArePositive(s)
    ensures FitsLargest(s, need) <==> HasEach(Idle(s), need)
  {
    IdleRoomIff(s, need.(memory := 0));
    IdleRoomIff(s, need.(cpu := 0.0));
  }

  /** Some node is ready and, for everything configured, some idle node has its CPU and some its memory. */
  ghost predicate EachHasRoom(s: FsmState, config: ClusterConfig) {
    && (exists n | n in s.nodes :: s.nodes[n].status == Ready)
    && (forall name | name in config.services :: HasEach(Idle(s), config.services[name].resources))
    && (forall name | name in config.tasks :: HasEach(Idle(s), config.tasks[name].resources))
  }

  lemma ServicesFitIff(s: FsmState, services: map<string, ServiceDef>)
    requires TotalsArePositive(s)
    ensures (forall name | name in services :: FitsLargest(s, services[name].resources)) <==>
            (forall name | name in services :: HasEach(Idle(s), services[name].resources))
  {
    forall name | name in services
      ensures FitsLargest(s, services[name].resources) <==> HasEach(Idle(s), services[name].resources)
    {
      FitsLargestIff(s, services[name].resources);
    }
  }

  lemma TasksFitIff(s: FsmState, tasks: map<string, TaskDef>)
    requires TotalsArePositive(s)
    ensures (forall name | name in tasks :: FitsLargest(s, tasks[name].resources)) <==>
            (forall name | name in tasks :: HasEach(Idle(s), tasks[name].resources))
  {
    forall name | name in tasks
      ensures FitsLargest(s, tasks[name].resources) <==> HasEach(Idle(s), tasks[name].resources)
    {
      FitsLargestIff(s, tasks[name].resources);
    }
  }

  /** The check of capacity passes exactly then. */
  lemma CapacityPassesIff(s: FsmState, config: ClusterConfig)
    requires TotalsArePositive(s)
    ensures Sees(s, CapacityChecked(config, true)) <==> EachHasRoom(s, config)
  {
    ServicesFitIff(s, config.services);
    TasksFitIff(s, config.tasks);
  }

  /** Nothing that has room is rejected, whatever runs. */
  lemma RoomIsNotRejected(s: FsmState, need: Resources)
    requires TotalsArePositive(s) && Capacity.NonNegative(s.allocs) && HasRoom(s, need)
    ensures HasEach(Idle(s), need)
  {
    var n :| n in s.nodes && s.nodes[n].status == Ready
             && need.cpu <= Capacity.Available(s, n).value.cpuAvailable
             && need.memory <= Capacity.Available(s, n).value.memoryAvailable;
    Capacity.LoadShrinks(s.allocs, map[], s.nodes[n].millId);
    IdleIsTotal(s, n);
    IdleRoomIff(s, need.(memory := 0));
    IdleRoomIff(s, need.(cpu := 0.0));
  }

  function NodeWith(id: RaftId, name: string, cpu: real, memory: nat): FsmNode {
    FsmNode(id, NodeId(name), SocketAddr(V4(id), 4400), NodeResources(cpu, cpu, memory, memory), Ready,
            None, None, None, None)
  }

  /** One node has the CPU and another the memory. */
  function Lopsided(): FsmState {
    InitialState().(nodes := map[1 := NodeWith(1, "a", 4.0, 1), 2 := NodeWith(2, "b", 1.0, 4)])
  }

  /** What passes need not have room, even on idle nodes: the two largest totals may be on different nodes. */
  lemma PassesWithoutRoom()
    ensures HasEach(Lopsided(), Resources(4.0, 4)) && !HasRoom(Lopsided(), Resources(4.0, 4))
  {
    var s := Lopsided();
    assert Idle(s) == s;
    IdleRoomIff(s, Resources(4.0, 4));
    IdleRoomIff(s, Resources(4.0, 0));
    IdleRoomIff(s, Resources(0.0, 4));
    assert s.nodes[1].resources.cpuTotal == 4.0 && s.nodes[2].resources.memoryTotal == 4;
  }

  // ----- Deploys -----

  /** The configuration passes both checks in the state. */
  ghost predicate IsFit(s: FsmState, config: ClusterConfig, env: EnvParse.Environment) {
    AllResolve(config, env) && EachHasRoom(s, config)
  }

  lemma LastIsRejection(
    trace: seq<Event>, lo: nat, config: ClusterConfig, ids: (string, nat) -> AllocId, d: RunDeploy.DeployRun)
    requires RunDeploy.DeploysAs(trace, lo, config, ids, RunDeploy.Invalid, d)
    ensures trace != []
    ensures trace[|trace| - 1] == SecretsChecked(config, false) || trace[|trace| - 1] == CapacityChecked(config, false)
  {
  }

  lemma RejectionIsSeen(states: seq<FsmState>, trace: seq<Event>, config: ClusterConfig)
    requires IsRun(states, trace) && trace != []
    requires trace[|trace| - 1] == SecretsChecked(config, false) || trace[|trace| - 1] == CapacityChecked(config, false)
    ensures var s := states[|trace| - 1];
            if trace[|trace| - 1].SecretsChecked? then !Sees(s, SecretsChecked(config, true))
            else !Sees(s, CapacityChecked(config, true))
  {
    assert Happens(states, trace, |trace| - 1);
  }

  /** A deploy is rejected only in a state in which the configuration is not fit. */
  lemma RejectedIsUnfit(
    states: seq<FsmState>, trace: seq<Event>, lo: nat, config: ClusterConfig, ids: (string, nat) -> AllocId,
    d: RunDeploy.DeployRun, env: EnvParse.Environment)
    requires IsRun(states, trace) && trace != [] && RunDeploy.DeploysAs(trace, lo, config, ids, RunDeploy.Invalid, d)
    requires TotalsArePositive(states[|trace| - 1]) && forall name :: env.address(name).Some?
    requires forall name :: env.secret(name).Some? <==> name in states[|trace| - 1].secrets
    ensures !IsFit(states[|trace| - 1], config, env)
  {
    LastIsRejection(trace, lo, config, ids, d);
    RejectionIsSeen(states, trace, config);
    if trace[|trace| - 1].SecretsChecked? {
      SecretsPassIff(states[|trace| - 1], config, env);
    } else {
      CapacityPassesIff(states[|trace| - 1], config);
    }
  }
}
