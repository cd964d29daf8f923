/**
 Resource accounting: what a node's running allocations use, what is still available,
 and why placements never overcommit a node on any run.
 */
module Capacity {
  import opened Types
  import opened Scheduler
  import Fsm

  datatype Load = Load(cpu: real, memory: int)

  function Nothing(): Load {
    Load(0.0, 0)
  }

  function Plus(a: Load, b: Load): Load {
    Load(a.cpu + b.cpu, a.memory + b.memory)
  }

  predicate AtMost(a: Load, b: Load) {
    a.cpu <= b.cpu && a.memory <= b.memory
  }

  function Demand(need: Resources): Load {
    Load(need.cpu, need.memory)
  }

  /** What one allocation uses on the named node: nothing once it is terminal. */
  function AllocLoad(a: Alloc, mill: NodeId): Load {
    if a.node == mill && !a.status.IsTerminal() then Demand(a.resources) else Nothing()
  }

  ghost function Pick(ids: set<AllocId>): (id: AllocId)
    requires ids != {}
    ensures id in ids
  {
    var id :| id in ids; id
  }

  ghost function SumLoads(allocs: map<AllocId, Alloc>, ids: set<AllocId>, mill: NodeId): Load
    requires ids <= allocs.Keys
    decreases |ids|
  {
    if ids == {} then Nothing()
    else
      var id := Pick(ids);
      Plus(AllocLoad(allocs[id], mill), SumLoads(allocs, ids - {id}, mill))
  }

  /** The sum of all allocations' use of the node. */
  ghost function NodeLoad(allocs: map<AllocId, Alloc>, mill: NodeId): Load {
    SumLoads(allocs, allocs.Keys, mill)
  }

  lemma SumGrows(allocs: map<AllocId, Alloc>, ids: set<AllocId>, mill: NodeId, id: AllocId)
    requires ids <= allocs.Keys && id in allocs && id !in ids
    ensures SumLoads(allocs, ids + {id}, mill)
            == Plus(AllocLoad(allocs[id], mill), SumLoads(allocs, ids, mill))
  {
    SumSplit(allocs, ids + {id}, mill, id);
    assert ids + {id} - {id} == ids;
  }

  lemma PlusSwap(a: Load, b: Load, c: Load)
    ensures Plus(a, Plus(b, c)) == Plus(b, Plus(a, c))
  {
  }

  /** Any allocation can be split off a sum. */
  lemma {:induction false} SumSplit(
    allocs: map<AllocId, Alloc>, ids: set<AllocId>, mill: NodeId, id: AllocId)
    requires ids <= allocs.Keys && id in ids
    ensures SumLoads(allocs, ids, mill)
            == Plus(AllocLoad(allocs[id], mill), SumLoads(allocs, ids - {id}, mill))
    decreases |ids|
  {
    var first := Pick(ids);
    if first != id {
      SumSplit(allocs, ids - {first}, mill, id);
      SumSplit(allocs, ids - {id}, mill, first);
      assert ids - {first} - {id} == ids - {id} - {first};
      PlusSwap(AllocLoad(allocs[first], mill), AllocLoad(allocs[id], mill),
               SumLoads(allocs, ids - {id} - {first}, mill));
    }
  }

  ghost predicate NonNegative(allocs: map<AllocId, Alloc>) {
    forall id | id in allocs :: allocs[id].resources.cpu >= 0.0
  }

  /** With fewer allocations, each using no more, the sum is no more. */
  lemma {:induction false} SumShrinks(
    from: map<AllocId, Alloc>, more: set<AllocId>, to: map<AllocId, Alloc>, fewer: set<AllocId>, mill: NodeId)
    requires NonNegative(from) && fewer <= more <= from.Keys && fewer <= to.Keys
    requires forall id | id in fewer :: AtMost(AllocLoad(to[id], mill), AllocLoad(from[id], mill))
    ensures AtMost(SumLoads(to, fewer, mill), SumLoads(from, more, mill))
    decreases |more|
  {
    if more != {} {
      var id := Pick(more);
      if id in fewer {
        SumSplit(to, fewer, mill, id);
        SumShrinks(from, more - {id}, to, fewer - {id}, mill);
      } else {
        SumShrinks(from, more - {id}, to, fewer, mill);
      }
    }
  }

  /** Sums over maps that agree on the ids are equal. */
  lemma {:induction false} SumSame(
    a: map<AllocId, Alloc>, b: map<AllocId, Alloc>, ids: set<AllocId>, mill: NodeId)
    requires ids <= a.Keys && ids <= b.Keys && forall id | id in ids :: a[id] == b[id]
    ensures SumLoads(a, ids, mill) == SumLoads(b, ids, mill)
    decreases |ids|
  {
    if ids != {} {
      SumSame(a, b, ids - {Pick(ids)}, mill);
    }
  }

  lemma LoadShrinks(from: map<AllocId, Alloc>, to: map<AllocId, Alloc>, mill: NodeId)
    requires NonNegative(from) && to.Keys <= from.Keys
    requires forall id | id in to :: AtMost(AllocLoad(to[id], mill), AllocLoad(from[id], mill))
    ensures AtMost(NodeLoad(to, mill), NodeLoad(from, mill))
  {
    SumShrinks(from, from.Keys, to, to.Keys, mill);
  }

  lemma LoadUpdate(allocs: map<AllocId, Alloc>, mill: NodeId, id: AllocId, a: Alloc)
    ensures NodeLoad(allocs[id := a], mill) == Plus(AllocLoad(a, mill), NodeLoad(allocs - {id}, mill))
  {
    var new' := allocs[id := a];
    SumSplit(new', new'.Keys, mill, id);
    assert new'.Keys - {id} == (allocs - {id}).Keys;
    SumSame(new', allocs - {id}, new'.Keys - {id}, mill);
  }

  lemma LoadSplit(allocs: map<AllocId, Alloc>, mill: NodeId, id: AllocId)
    requires id in allocs
    ensures NodeLoad(allocs, mill) == Plus(AllocLoad(allocs[id], mill), NodeLoad(allocs - {id}, mill))
  {
    SumSplit(allocs, allocs.Keys, mill, id);
    assert allocs.Keys - {id} == (allocs - {id}).Keys;
    SumSame(allocs, allocs - {id}, allocs.Keys - {id}, mill);
  }

  lemma LoadRest(allocs: map<AllocId, Alloc>, mill: NodeId, id: AllocId)
    requires NonNegative(allocs)
    ensures AtMost(NodeLoad(allocs - {id}, mill), NodeLoad(allocs, mill))
  {
    LoadShrinks(allocs, allocs - {id}, mill);
  }

  // ----- What is available -----

  function SaturatingSub(a: nat, b: nat): nat {
    if a < b then 0 else a - b
  }

  /** Totals minus use; the used memory is a 64-bit sum that wraps. */
  ghost function Available(s: FsmState, id: RaftId): Option<NodeResources> {
    if id !in s.nodes then None
    else
      var n := s.nodes[id];
      var used := NodeLoad(s.allocs, n.millId);
      Some(NodeResources(
             n.resources.cpuTotal, n.resources.cpuTotal - used.cpu,
             n.resources.memoryTotal, SaturatingSub(n.resources.memoryTotal, Wrap(used.memory))))
  }

  method NodeAvailableResources(s: FsmState, id: RaftId) returns (available: Option<NodeResources>)
    ensures available == Available(s, id)
  {
    if id !in s.nodes { return None; }
    var node := s.nodes[id];
    var cpuUsed, memUsed := UsedOn(s.allocs, node.millId);
    available := Some(NodeResources(
                        node.resources.cpuTotal, node.resources.cpuTotal - cpuUsed,
                        node.resources.memoryTotal, SaturatingSub(node.resources.memoryTotal, memUsed)));
  }

  /** The accumulating loop, in any order of the allocations. */
  method UsedOn(allocs: map<AllocId, Alloc>, mill: NodeId) returns (cpuUsed: real, memUsed: nat)
    ensures cpuUsed == NodeLoad(allocs, mill).cpu && memUsed == Wrap(NodeLoad(allocs, mill).memory)
  {
    cpuUsed, memUsed := 0.0, 0;
    var todo := allocs.Keys;
    ghost var used := Nothing();
    assert allocs.Keys - todo == {};
    while todo != {}
      invariant todo <= allocs.Keys
      invariant used == SumLoads(allocs, allocs.Keys - todo, mill)
      invariant cpuUsed == used.cpu && memUsed == Wrap(used.memory)
      decreases |todo|
    {
      var k :| k in todo;
      var alloc := allocs[k];
      CountNext(allocs, todo, mill, k);
      CountStep(used, alloc, mill);
      used := Plus(AllocLoad(alloc, mill), used);
      todo := todo - {k};
      if alloc.node == mill && !alloc.status.IsTerminal() {
        cpuUsed := cpuUsed + alloc.resources.cpu;
        memUsed := Wrap(memUsed + alloc.resources.memory);
      }
    }
    assert allocs.Keys - todo == allocs.Keys;
  }

  lemma CountNext(allocs: map<AllocId, Alloc>, todo: set<AllocId>, mill: NodeId, id: AllocId)
    requires id in todo && todo <= allocs.Keys
    ensures SumLoads(allocs, allocs.Keys - (todo - {id}), mill)
            == Plus(AllocLoad(allocs[id], mill), SumLoads(allocs, allocs.Keys - todo, mill))
  {
    SumGrows(allocs, allocs.Keys - todo, mill, id);
    assert allocs.Keys - (todo - {id}) == allocs.Keys - todo + {id};
  }

  /** A 64-bit unsigned sum keeps the low 64 bits. */
  function Wrap(x: int): nat {
    x % U64
  }

  lemma CountStep(used: Load, a: Alloc, mill: NodeId)
    ensures var next := Plus(AllocLoad(a, mill), used);
            if a.node == mill && !a.status.IsTerminal() then
              next.cpu == used.cpu + a.resources.cpu
              && Wrap(next.memory) == Wrap(Wrap(used.memory) + a.resources.memory)
            else next == used
  {
  }

  lemma WrapsAround(x: int, more: nat)
    requires more < U64
    ensures Wrap(x) < 0x1_0000_0000_0000_0000
    ensures Wrap(x + more) == if Wrap(x) + more < U64 then Wrap(x) + more else Wrap(x) + more - U64
  {
  }

  /** What is used grows by the memory of a new allocation, up to where 64 bits begin again at zero. */
  lemma UseWrapsAround(allocs: map<AllocId, Alloc>, mill: NodeId, id: AllocId, a: Alloc)
    requires id !in allocs && a.node == mill && !a.status.IsTerminal() && a.resources.memory < U64
    ensures Wrap(NodeLoad(map[], mill).memory) == 0
    ensures var used, more := Wrap(NodeLoad(allocs, mill).memory), a.resources.memory;
            Wrap(NodeLoad(allocs[id := a], mill).memory)
            == if used + more < 0x1_0000_0000_0000_0000 then used + more else used + more - 0x1_0000_0000_0000_0000
  {
    LoadUpdate(allocs, mill, id, a);
    assert allocs - {id} == allocs;
    WrapsAround(NodeLoad(allocs, mill).memory, a.resources.memory);
  }

  // ----- The invariant -----

  function Total(n: FsmNode): Load {
    Load(n.resources.cpuTotal, n.resources.memoryTotal)
  }

  /** Nothing is overcommitted. */
  ghost predicate WithinTotals(s: FsmState) {
    forall n | n in s.nodes :: AtMost(NodeLoad(s.allocs, s.nodes[n].millId), Total(s.nodes[n]))
  }

  ghost predicate Sound(s: FsmState) {
    && Fsm.KeysMatch(s) && Fsm.AllocsRegistered(s)
    && Fsm.UniqueMills(s) && NonNegative(s.allocs)
    && (forall n | n in s.nodes :: s.nodes[n].resources.memoryTotal < U64)
    && WithinTotals(s)
  }

  lemma {:induction false} NoAllocsNoLoad(allocs: map<AllocId, Alloc>, ids: set<AllocId>, mill: NodeId)
    requires ids <= allocs.Keys && forall id | id in ids :: allocs[id].node != mill
    ensures SumLoads(allocs, ids, mill) == Nothing()
    decreases |ids|
  {
    if ids != {} {
      NoAllocsNoLoad(allocs, ids - {Pick(ids)}, mill);
    }
  }

  /** In a sound state the available resources are the exact differences: no wrap, no saturation. */
  lemma AvailableIsExact(s: FsmState, id: RaftId)
    requires Sound(s) && id in s.nodes
    ensures var n := s.nodes[id];
            var used := NodeLoad(s.allocs, n.millId);
            && 0 <= used.memory <= n.resources.memoryTotal < U64
            && Available(s, id).value.memoryAvailable == n.resources.memoryTotal - used.memory
            && Available(s, id).value.cpuAvailable == n.resources.cpuTotal - used.cpu >= 0.0
  {
    LoadShrinks(s.allocs, map[], s.nodes[id].millId);
  }

  /** A node that is full, or more than full, has no memory to spare. */
  lemma FullHasNone(s: FsmState, id: RaftId)
    requires id in s.nodes
    ensures var total, used := s.nodes[id].resources.memoryTotal, NodeLoad(s.allocs, s.nodes[id].millId).memory;
            used < U64 ==> (total <= used <==> Available(s, id).value.memoryAvailable == 0)
  {
    MemoryIsNatural(s.allocs, s.allocs.Keys, s.nodes[id].millId);
  }

  lemma {:induction false} MemoryIsNatural(allocs: map<AllocId, Alloc>, ids: set<AllocId>, mill: NodeId)
    requires ids <= allocs.Keys
    ensures SumLoads(allocs, ids, mill).memory >= 0
    decreases |ids|
  {
    if ids != {} {
      MemoryIsNatural(allocs, ids - {Pick(ids)}, mill);
    }
  }

  /** Nor does any partial sum of the loop overflow, whatever allocations it has seen so far. */
  lemma PartialSumsFit(s: FsmState, id: RaftId, seen: set<AllocId>)
    requires Sound(s) && id in s.nodes && seen <= s.allocs.Keys
    ensures 0 <= SumLoads(s.allocs, seen, s.nodes[id].millId).memory < U64
  {
    SumShrinks(s.allocs, s.allocs.Keys, s.allocs, seen, s.nodes[id].millId);
    SumShrinks(s.allocs, seen, s.allocs, {}, s.nodes[id].millId);
  }

  // ----- Steps -----

  datatype Step =
    /** A scheduling read and its proposal, with nothing in between. */
    | Place(id: AllocId, request: ScheduleRequest, nodes: seq<FsmNode>, allocs: seq<PlacedAlloc>,
            volumes: seq<NamedVolume>)
    | Other(command: Command)

  /** No terminal allocation is given a live status. */
  ghost predicate NoRevival(s: FsmState, c: Command) {
    && (c.SetAllocStatus? && c.allocId in s.allocs && s.allocs[c.allocId].status.IsTerminal() ==>
          c.status.IsTerminal())
    && (c.NodeHeartbeat? ==>
          forall id | id in c.statuses && id in s.allocs && s.allocs[id].status.IsTerminal() ::
            c.statuses[id].IsTerminal())
  }

  /** A registration brings a new name, or keeps its id's name without shrinking the node. */
  ghost predicate CleanRegistration(s: FsmState, c: Command) {
    c.NodeRegister? ==>
      && c.resources.cpuTotal >= 0.0 && c.resources.memoryTotal < U64
      && (forall n | n in s.nodes && n != c.id :: s.nodes[n].millId != c.millId)
      && (c.id in s.nodes ==>
            c.millId == s.nodes[c.id].millId && AtMost(Total(s.nodes[c.id]), Total(Fsm.MakeNode(c))))
  }

  ghost predicate Admissible(s: FsmState, step: Step) {
    match step
    case Place(_, request, nodes, _, _) => request.need.cpu >= 0.0 && Fsm.Lists(s, nodes)
    case Other(c) => !c.AllocScheduled? && NoRevival(s, c) && CleanRegistration(s, c)
  }

  /** What placing does: schedule, look up the raft id, and record the allocation. */
  ghost function Placed(s: FsmState, step: Step): FsmState
    requires step.Place?
  {
    var chosen := Schedule(step.request, step.nodes, step.allocs, step.volumes, (id: RaftId) => Available(s, id));
    if chosen.None? then s
    else
      match Fsm.FindByMill(step.nodes, chosen.value)
      case None => s
      case Some(n) =>
        Fsm.Apply(s, AllocScheduled(step.id, n.raftId, step.request.name, step.request.kind, None,
                                    step.request.need)).0
  }

  ghost function After(s: FsmState, step: Step): FsmState {
    if step.Place? then Placed(s, step) else Fsm.Apply(s, step.command).0
  }

  /**
   Exactly when recording an allocation on a node, from however old a read, keeps the
   state sound: the node's total covers the request on top of everything but the
   allocation being replaced.
   */
  lemma ScheduledKeepsSoundIff(s: FsmState, c: Command)
    requires Sound(s) && c.AllocScheduled? && c.nodeId in s.nodes && c.need.cpu >= 0.0
    ensures var n := s.nodes[c.nodeId];
            Sound(Fsm.Apply(s, c).0) <==>
            AtMost(Plus(Demand(c.need), NodeLoad(s.allocs - {c.allocId}, n.millId)), Total(n))
  {
    Fsm.StepKeepsRegistered(s, c);
    Fsm.StepKeepsKeys(s, c);
    ScheduledWithinTotalsIff(s, c);
  }

  lemma ScheduledWithinTotalsIff(s: FsmState, c: Command)
    requires Sound(s) && c.AllocScheduled? && c.nodeId in s.nodes
    ensures var n := s.nodes[c.nodeId];
            WithinTotals(Fsm.Apply(s, c).0) <==>
            AtMost(Plus(Demand(c.need), NodeLoad(s.allocs - {c.allocId}, n.millId)), Total(n))
  {
    var s' := Fsm.Apply(s, c).0;
    assert s'.nodes == s.nodes;
    forall n | n in s.nodes
      ensures NodeLoad(s'.allocs, s.nodes[n].millId)
              == Plus(if n == c.nodeId then Demand(c.need) else Nothing(),
                      NodeLoad(s.allocs - {c.allocId}, s.nodes[n].millId))
      ensures AtMost(NodeLoad(s.allocs - {c.allocId}, s.nodes[n].millId), Total(s.nodes[n]))
    {
      ScheduledLoad(s, c, s.nodes[n].millId);
      LoadRest(s.allocs, s.nodes[n].millId, c.allocId);
    }
  }

  /** A recorded allocation adds its need to its node, in place of what it replaces. */
  lemma ScheduledLoad(s: FsmState, c: Command, mill: NodeId)
    requires c.AllocScheduled? && c.nodeId in s.nodes
    ensures NodeLoad(Fsm.Apply(s, c).0.allocs, mill)
            == Plus(if mill == s.nodes[c.nodeId].millId then Demand(c.need) else Nothing(),
                    NodeLoad(s.allocs - {c.allocId}, mill))
  {
    var a := Fsm.MakeAlloc(c, s.nodes[c.nodeId].millId);
    assert Fsm.Apply(s, c).0.allocs == s.allocs[c.allocId := a];
    LoadUpdate(s.allocs, mill, c.allocId, a);
  }

  /** A node the scheduler picks has room for the request. */
  lemma ChosenHasRoom(s: FsmState, step: Step)
    requires Sound(s) && step.Place? && Admissible(s, step)
    ensures var chosen := Schedule(step.request, step.nodes, step.allocs, step.volumes, (id: RaftId) => Available(s, id));
            chosen.Some? ==>
              var found := Fsm.FindByMill(step.nodes, chosen.value);
              && found.Some? && found.value.raftId in s.nodes && found.value == s.nodes[found.value.raftId]
              && found.value.status == Ready
              && AtMost(Plus(Demand(step.request.need), NodeLoad(s.allocs, chosen.value)), Total(found.value))
  {
    var available: AvailableFn := (id: RaftId) => Available(s, id);
    var chosen := Schedule(step.request, step.nodes, step.allocs, step.volumes, available);
    ScheduleChoosesBest(step.request, step.nodes, step.allocs, step.volumes, available);
    if chosen.Some? {
      assert exists n :: n in step.nodes && n.millId == chosen.value && Fits(n, available, step.request.need);
      var n :| n in step.nodes && n.millId == chosen.value && Fits(n, available, step.request.need);
      AvailableIsExact(s, n.raftId);
    }
  }

  lemma PlaceKeepsSound(s: FsmState, step: Step)
    requires Sound(s) && step.Place? && Admissible(s, step)
    ensures Sound(Placed(s, step))
  {
    ChosenHasRoom(s, step);
    var chosen := Schedule(step.request, step.nodes, step.allocs, step.volumes, (id: RaftId) => Available(s, id));
    if chosen.Some? {
      var n := Fsm.FindByMill(step.nodes, chosen.value).value;
      LoadRest(s.allocs, chosen.value, step.id);
      ScheduledKeepsSoundIff(s, AllocScheduled(step.id, n.raftId, step.request.name, step.request.kind,
                                               None, step.request.need));
    }
  }

  lemma RegisterKeepsTotals(s: FsmState, c: Command)
    requires Sound(s) && c.NodeRegister? && CleanRegistration(s, c)
    ensures WithinTotals(Fsm.Apply(s, c).0)
  {
    if c.id !in s.nodes {
      forall id | id in s.allocs ensures s.allocs[id].node != c.millId {
        assert Fsm.Registered(s, s.allocs[id].node);
      }
      NoAllocsNoLoad(s.allocs, s.allocs.Keys, c.millId);
    }
  }

  /** Every command but a placement lets no node's load grow. */
  lemma LoadsShrink(s: FsmState, c: Command, mill: NodeId)
    requires Sound(s) && !c.AllocScheduled? && NoRevival(s, c)
    ensures AtMost(NodeLoad(Fsm.Apply(s, c).0.allocs, mill), NodeLoad(s.allocs, mill))
  {
    var allocs := Fsm.Apply(s, c).0.allocs;
    Fsm.AllocsFrame(s, c);
    forall id | id in allocs ensures AtMost(AllocLoad(allocs[id], mill), AllocLoad(s.allocs[id], mill)) {
      if s.allocs[id].status.IsTerminal() { StaysTerminal(s, c, id); }
      assert s.allocs[id].resources.cpu >= 0.0;
    }
    LoadShrinks(s.allocs, allocs, mill);
  }

  lemma StaysTerminal(s: FsmState, c: Command, id: AllocId)
    requires !c.AllocScheduled? && NoRevival(s, c)
    requires id in s.allocs && id in Fsm.Apply(s, c).0.allocs && s.allocs[id].status.IsTerminal()
    ensures Fsm.Apply(s, c).0.allocs[id].status.IsTerminal()
  {
  }

  lemma OtherKeepsTotals(s: FsmState, c: Command)
    requires Sound(s) && !c.AllocScheduled? && !c.NodeRegister? && NoRevival(s, c)
    ensures WithinTotals(Fsm.Apply(s, c).0)
  {
    var s' := Fsm.Apply(s, c).0;
    Fsm.NodesFrame(s, c);
    forall n | n in s'.nodes ensures AtMost(NodeLoad(s'.allocs, s'.nodes[n].millId), Total(s'.nodes[n])) {
      LoadsShrink(s, c, s.nodes[n].millId);
    }
  }

  lemma OtherKeepsSound(s: FsmState, c: Command)
    requires Sound(s) && !c.AllocScheduled? && NoRevival(s, c) && CleanRegistration(s, c)
    ensures Sound(Fsm.Apply(s, c).0)
  {
    Fsm.StepKeepsKeys(s, c);
    Fsm.StepKeepsRegistered(s, c);
    if c.NodeRegister? {
      RegisterKeepsTotals(s, c);
    } else {
      OtherKeepsTotals(s, c);
      OtherKeepsRest(s, c);
    }
  }

  lemma OtherKeepsRest(s: FsmState, c: Command)
    requires Sound(s) && !c.AllocScheduled? && !c.NodeRegister?
    ensures var s' := Fsm.Apply(s, c).0;
            && Fsm.UniqueMills(s') && NonNegative(s'.allocs)
            && (forall n | n in s'.nodes :: s'.nodes[n].resources.memoryTotal < U64)
  {
    Fsm.NodesFrame(s, c);
    Fsm.AllocsFrame(s, c);
  }

  ghost predicate IsRun(states: seq<FsmState>, steps: seq<Step>) {
    && |states| == |steps| + 1
    && states[0] == InitialState()
    && forall k {:trigger steps[k]} | 0 <= k < |steps| ::
         Admissible(states[k], steps[k]) && states[k + 1] == After(states[k], steps[k])
  }

  /** No overcommit: on every admissible run no node's running allocations exceed its totals. */
  lemma {:induction false} RunNeverOvercommits(states: seq<FsmState>, steps: seq<Step>, k: nat)
    requires IsRun(states, steps) && k < |states|
    ensures Sound(states[k])
  {
    if k > 0 {
      RunNeverOvercommits(states, steps, k - 1);
      var step := steps[k - 1];
      if step.Place? {
        PlaceKeepsSound(states[k - 1], step);
      } else {
        OtherKeepsSound(states[k - 1], step.command);
      }
    }
  }

  /**
   Exactly when giving a terminal allocation a live status again keeps the state sound:
   its node still has capacity for it. Nothing in the state machine checks this.
   */
  lemma RevivalKeepsSoundIff(s: FsmState, c: Command, n: RaftId)
    requires Sound(s) && c.SetAllocStatus? && c.allocId in s.allocs && n in s.nodes
    requires s.allocs[c.allocId].status.IsTerminal() && !c.status.IsTerminal()
    requires s.nodes[n].millId == s.allocs[c.allocId].node
    ensures Sound(Fsm.Apply(s, c).0) <==> HasCapacity(Available(s, n), s.allocs[c.allocId].resources)
  {
    Fsm.StepKeepsRegistered(s, c);
    Fsm.StepKeepsKeys(s, c);
    OtherKeepsRest(s, c);
    RevivalWithinTotalsIff(s, c, n);
  }

  lemma RevivalWithinTotalsIff(s: FsmState, c: Command, n: RaftId)
    requires Sound(s) && c.SetAllocStatus? && c.allocId in s.allocs && n in s.nodes
    requires s.allocs[c.allocId].status.IsTerminal() && !c.status.IsTerminal()
    requires s.nodes[n].millId == s.allocs[c.allocId].node
    ensures WithinTotals(Fsm.Apply(s, c).0) <==> HasCapacity(Available(s, n), s.allocs[c.allocId].resources)
  {
    var s' := Fsm.Apply(s, c).0;
    AvailableIsExact(s, n);
    forall m | m in s.nodes
      ensures NodeLoad(s'.allocs, s.nodes[m].millId)
              == if m == n then Plus(Demand(s.allocs[c.allocId].resources), NodeLoad(s.allocs, s.nodes[m].millId))
                 else NodeLoad(s.allocs, s.nodes[m].millId)
    {
      RevivedLoad(s.allocs, s.nodes[m].millId, c.allocId, c.status);
    }
  }

  lemma RevivedLoad(allocs: map<AllocId, Alloc>, mill: NodeId, id: AllocId, status: AllocStatus)
    requires id in allocs && allocs[id].status.IsTerminal() && !status.IsTerminal()
    ensures var a := allocs[id].(status := status);
            NodeLoad(allocs[id := a], mill) == Plus(AllocLoad(a, mill), NodeLoad(allocs, mill))
  {
    LoadUpdate(allocs, mill, id, allocs[id].(status := status));
    LoadSplit(allocs, mill, id);
  }
}
