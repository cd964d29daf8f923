/**
 The two ways in which a node can be overcommitted after all: placements that read the same state,
 and heartbeats that bring back what had been given up. Each has its exact condition and a run.
 */
module Overcommit {
  import opened Types
  import opened Scheduler
  import opened Capacity
  import opened Cluster
  import Deploy
  import Fsm

  // ----- Heartbeats -----

  /** What the allocation uses on the node if it runs. */
  function Claim(a: Alloc, mill: NodeId): Load {
    if a.node == mill then Demand(a.resources) else Nothing()
  }

  /** What the allocations use on the node if all of them run. */
  ghost function Demands(allocs: map<AllocId, Alloc>, ids: set<AllocId>, mill: NodeId): Load
    requires ids <= allocs.Keys
    decreases |ids|
  {
    if ids == {} then Nothing()
    else
      var id := Pick(ids);
      Plus(Claim(allocs[id], mill), Demands(allocs, ids - {id}, mill))
  }

  lemma {:induction false} DemandSplit(allocs: map<AllocId, Alloc>, ids: set<AllocId>, mill: NodeId, id: AllocId)
    requires ids <= allocs.Keys && id in ids
    ensures Demands(allocs, ids, mill) == Plus(Claim(allocs[id], mill), Demands(allocs, ids - {id}, mill))
    decreases |ids|
  {
    var first := Pick(ids);
    if first != id {
      DemandSplit(allocs, ids - {first}, mill, id);
      DemandSplit(allocs, ids - {id}, mill, first);
      assert ids - {first} - {id} == ids - {id} - {first};
      PlusSwap(Claim(allocs[first], mill), Claim(allocs[id], mill), Demands(allocs, ids - {id} - {first}, mill));
    }
  }

  lemma PlusAssociates(a: Load, b: Load, c: Load)
    ensures Plus(Plus(a, b), c) == Plus(a, Plus(b, c))
  {
  }

  /** Allocations that run and are not reported to have ended. */
  function KeptIds(allocs: map<AllocId, Alloc>, statuses: map<AllocId, AllocStatus>): set<AllocId> {
    set id | id in allocs && !allocs[id].status.IsTerminal() && !(id in statuses && statuses[id].IsTerminal())
  }

  /** Allocations that have ended and are reported to run. */
  function RevivedIds(allocs: map<AllocId, Alloc>, statuses: map<AllocId, AllocStatus>): set<AllocId> {
    set id | id in allocs && allocs[id].status.IsTerminal() && id in statuses && !statuses[id].IsTerminal()
  }

  lemma {:induction false} DemandUnion(allocs: map<AllocId, Alloc>, a: set<AllocId>, b: set<AllocId>, mill: NodeId)
    requires a <= allocs.Keys && b <= allocs.Keys && a !! b
    ensures Demands(allocs, a + b, mill) == Plus(Demands(allocs, a, mill), Demands(allocs, b, mill))
    decreases |a|
  {
    if a == {} {
      assert a + b == b;
    } else {
      var id := Pick(a);
      DemandUnion(allocs, a - {id}, b, mill);
      DemandSplit(allocs, a + b, mill, id);
      assert a + b - {id} == (a - {id}) + b;
      PlusAssociates(Claim(allocs[id], mill), Demands(allocs, a - {id}, mill), Demands(allocs, b, mill));
    }
  }

  /** A sum counts exactly the allocations that run, with what they claim. */
  lemma {:induction false} SumOfRunning(
    allocs: map<AllocId, Alloc>, merged: map<AllocId, Alloc>, ids: set<AllocId>, running: set<AllocId>, mill: NodeId)
    requires running <= ids <= allocs.Keys && ids <= merged.Keys
    requires forall id | id in ids ::
               && (id in running <==> !merged[id].status.IsTerminal())
               && merged[id].node == allocs[id].node && merged[id].resources == allocs[id].resources
    ensures SumLoads(merged, ids, mill) == Demands(allocs, running, mill)
    decreases |ids|
  {
    if ids != {} {
      var id := Pick(ids);
      SumOfRunning(allocs, merged, ids - {id}, running - {id}, mill);
      OneOfRunning(allocs, merged[id], running, mill, id);
    }
  }

  lemma OneOfRunning(allocs: map<AllocId, Alloc>, a: Alloc, running: set<AllocId>, mill: NodeId, id: AllocId)
    requires running <= allocs.Keys && id in allocs && (id in running <==> !a.status.IsTerminal())
    requires a.node == allocs[id].node && a.resources == allocs[id].resources
    ensures Demands(allocs, running, mill) == Plus(AllocLoad(a, mill), Demands(allocs, running - {id}, mill))
  {
    if id in running {
      DemandSplit(allocs, running, mill, id);
    } else {
      assert running - {id} == running;
    }
  }

  /** After a heartbeat a node carries what it kept and what was revived. */
  lemma HeartbeatLoad(allocs: map<AllocId, Alloc>, statuses: map<AllocId, AllocStatus>, mill: NodeId)
    ensures NodeLoad(Fsm.MergeStatuses(allocs, statuses), mill)
            == Plus(Demands(allocs, KeptIds(allocs, statuses), mill), Demands(allocs, RevivedIds(allocs, statuses), mill))
  {
    var merged, kept, revived := Fsm.MergeStatuses(allocs, statuses), KeptIds(allocs, statuses), RevivedIds(allocs, statuses);
    assert merged.Keys == allocs.Keys;
    SumOfRunning(allocs, merged, merged.Keys, kept + revived, mill);
    DemandUnion(allocs, kept, revived, mill);
  }

  /** What is kept on the node and what is revived there fit together into its totals. */
  ghost predicate HeartbeatFits(s: FsmState, statuses: map<AllocId, AllocStatus>, n: FsmNode) {
    AtMost(Plus(Demands(s.allocs, KeptIds(s.allocs, statuses), n.millId),
                Demands(s.allocs, RevivedIds(s.allocs, statuses), n.millId)),
           Total(n))
  }

  /**
   Exactly when a heartbeat keeps the state sound: on every node, what is kept and what is revived
   fit together into the totals. Nothing in the state machine checks this.
   */
  lemma HeartbeatKeepsSoundIff(s: FsmState, c: Command)
    requires Sound(s) && c.NodeHeartbeat? && c.id in s.nodes
    ensures Sound(Fsm.Apply(s, c).0) <==>
              forall n | n in s.nodes :: HeartbeatFits(s, c.statuses, s.nodes[n])
  {
    Fsm.StepKeepsRegistered(s, c);
    Fsm.StepKeepsKeys(s, c);
    OtherKeepsRest(s, c);
    HeartbeatWithinTotalsIff(s, c);
  }

  lemma HeartbeatWithinTotalsIff(s: FsmState, c: Command)
    requires c.NodeHeartbeat? && c.id in s.nodes
    ensures WithinTotals(Fsm.Apply(s, c).0) <==>
              forall n | n in s.nodes :: HeartbeatFits(s, c.statuses, s.nodes[n])
  {
    var s' := Fsm.Apply(s, c).0;
    Fsm.NodesFrame(s, c);
    assert s'.nodes.Keys == s.nodes.Keys;
    forall n | n in s.nodes
      ensures AtMost(NodeLoad(s'.allocs, s'.nodes[n].millId), Total(s'.nodes[n])) <==> HeartbeatFits(s, c.statuses, s.nodes[n])
    {
      HeartbeatLoad(s.allocs, c.statuses, s.nodes[n].millId);
    }
  }

  // ----- Placements from the same read -----

  function Together(a: Resources, b: Resources): Resources {
    Resources(a.cpu + b.cpu, a.memory + b.memory)
  }

  /**
   Two placements that each found room on the node in one and the same state keep it sound exactly
   if there was room for both together.
   */
  lemma SameReadKeepsSoundIff(s: FsmState, a: Command, b: Command)
    requires Sound(s) && a.AllocScheduled? && b.AllocScheduled? && a.nodeId == b.nodeId && a.nodeId in s.nodes
    requires a.allocId != b.allocId && a.allocId !in s.allocs && b.allocId !in s.allocs
    requires a.need.cpu >= 0.0 && b.need.cpu >= 0.0
    requires HasCapacity(Available(s, a.nodeId), a.need) && HasCapacity(Available(s, a.nodeId), b.need)
    ensures Sound(Fsm.Apply(Fsm.Apply(s, a).0, b).0) <==> HasCapacity(Available(s, a.nodeId), Together(a.need, b.need))
    ensures WithinTotals(Fsm.Apply(Fsm.Apply(s, a).0, b).0) <==>
              HasCapacity(Available(s, a.nodeId), Together(a.need, b.need))
  {
    FirstIsRecorded(s, a);
    FirstAddsItsNeed(s, a);
    var s' := Fsm.Apply(s, a).0;
    assert s'.allocs - {b.allocId} == s'.allocs;
    ScheduledKeepsSoundIff(s', b);
    ScheduledWithinTotalsIff(s', b);
    BothFitIff(s, a.nodeId, a.need, b.need);
  }

  lemma FirstIsRecorded(s: FsmState, a: Command)
    requires Sound(s) && a.AllocScheduled? && a.nodeId in s.nodes && a.allocId !in s.allocs && a.need.cpu >= 0.0
    requires HasCapacity(Available(s, a.nodeId), a.need)
    ensures Sound(Fsm.Apply(s, a).0)
  {
    Untouched(s.allocs, a.allocId);
    RoomIsLeft(s, a.nodeId, a.need);
    ScheduledKeepsSoundIff(s, a);
  }

  lemma FirstAddsItsNeed(s: FsmState, a: Command)
    requires a.AllocScheduled? && a.nodeId in s.nodes && a.allocId !in s.allocs
    ensures var mill := s.nodes[a.nodeId].millId;
            NodeLoad(Fsm.Apply(s, a).0.allocs, mill) == Plus(Demand(a.need), NodeLoad(s.allocs, mill))
  {
    var mill := s.nodes[a.nodeId].millId;
    var made := Fsm.MakeAlloc(a, mill);
    assert Fsm.Apply(s, a).0.allocs == s.allocs[a.allocId := made];
    assert AllocLoad(made, mill) == Demand(a.need);
    NewAddsItsLoad(s.allocs, a.allocId, made, mill);
  }

  lemma NewAddsItsLoad(allocs: map<AllocId, Alloc>, id: AllocId, a: Alloc, mill: NodeId)
    requires id !in allocs
    ensures NodeLoad(allocs[id := a], mill) == Plus(AllocLoad(a, mill), NodeLoad(allocs, mill))
  {
    var more := allocs[id := a];
    SumSplit(more, more.Keys, mill, id);
    assert more.Keys - {id} == allocs.Keys;
    SumSame(more, allocs, allocs.Keys, mill);
  }

  lemma Untouched(allocs: map<AllocId, Alloc>, id: AllocId)
    requires id !in allocs
    ensures allocs - {id} == allocs
  {
  }

  lemma RoomIsLeft(s: FsmState, id: RaftId, need: Resources)
    requires Sound(s) && id in s.nodes && HasCapacity(Available(s, id), need)
    ensures AtMost(Plus(Demand(need), NodeLoad(s.allocs, s.nodes[id].millId)), Total(s.nodes[id]))
  {
    AvailableIsExact(s, id);
  }

  lemma BothFitIff(s: FsmState, id: RaftId, a: Resources, b: Resources)
    requires Sound(s) && id in s.nodes
    ensures var n := s.nodes[id];
            AtMost(Plus(Demand(b), Plus(Demand(a), NodeLoad(s.allocs, n.millId))), Total(n)) <==>
            HasCapacity(Available(s, id), Together(a, b))
  {
    AvailableIsExact(s, id);
  }

  // ----- Runs that overcommit -----

  function Mill(): NodeId { NodeId("a") }

  function Register(): Command {
    NodeRegister(1, Mill(), SocketAddr(V4(1), 4400), NodeResources(1.0, 1.0, 1, 1), None, None, None, None)
  }

  /** All that the only node has. */
  function Need(): Resources { Resources(1.0, 1) }

  function Start(id: string): Command {
    AllocScheduled(AllocId(id), 1, "web", Service, None, Need())
  }

  /** Only the node is there. */
  function Fresh(): FsmState {
    Fsm.Apply(InitialState(), Register()).0
  }

  lemma FreshIsSound()
    ensures Sound(Fresh()) && Fresh().nodes.Keys == {1} && Fresh().nodes[1].millId == Mill() && Fresh().allocs == map[]
    ensures Total(Fresh().nodes[1]) == Load(1.0, 1) && Fresh().nodes[1].status == Ready
    ensures Available(Fresh(), 1) == Some(NodeResources(1.0, 1.0, 1, 1))
  {
    assert NodeLoad(map[], Mill()) == Nothing();
  }

  function Web(): ServiceDef {
    ServiceDef("web", 2, Need(), map[], [], [])
  }

  /** A start chooses the node and records its allocation there; another one comes in between. */
  function SameRead(): seq<Event> {
    [Picked(Deploy.RequestFor("web", Web()), Mill(), 1), Entry(Mill(), Some(1)), Event.Other(Start("x")),
     Proposed(Start("y"), true)]
  }

  /** The same run as the other start sees it: it has chosen the node in the same state. */
  function SameReadOther(): seq<Event> {
    [Picked(Deploy.RequestFor("web", Web()), Mill(), 1), Entry(Mill(), Some(1)), Proposed(Start("x"), true),
     Event.Other(Start("y"))]
  }

  function SameReadStates(): seq<FsmState> {
    var one := Fsm.Apply(Fresh(), Start("x")).0;
    [Fresh(), Fresh(), Fresh(), one, Fsm.Apply(one, Start("y")).0]
  }

  lemma FreshIsRead()
    ensures Sees(Fresh(), Picked(Deploy.RequestFor("web", Web()), Mill(), 1)) && Sees(Fresh(), Entry(Mill(), Some(1)))
  {
    FreshIsSound();
  }

  lemma SameReadRuns()
    ensures Cluster.IsRun(SameReadStates(), SameRead()) && Cluster.IsRun(SameReadStates(), SameReadOther())
  {
    FreshIsRead();
    var states, trace, other := SameReadStates(), SameRead(), SameReadOther();
    forall k | 0 <= k < 4 ensures Happens(states, trace, k) && Happens(states, other, k) {
    }
  }

  /**
   Two starts choose from the same state, and both get the node that has room for one of them: both
   placements are ones that the code makes, and the node is overcommitted.
   */
  lemma SameReadOvercommits()
    ensures Cluster.IsRun(SameReadStates(), SameRead()) && Cluster.IsRun(SameReadStates(), SameReadOther())
    ensures Deploy.Placed(SameRead(), 0, "web", Web(), AllocId("y"), Mill(), 0, 1)
    ensures Deploy.Placed(SameReadOther()[..3], 0, "web", Web(), AllocId("x"), Mill(), 0, 1)
    ensures Sound(SameReadStates()[0]) && !WithinTotals(SameReadStates()[4])
  {
    SameReadRuns();
    FreshIsSound();
    IdsDiffer();
    SameReadKeepsSoundIff(Fresh(), Start("x"), Start("y"));
  }

  lemma IdsDiffer()
    ensures AllocId("x") != AllocId("y")
  {
    assert "x"[0] != "y"[0];
  }

  /** The first start timed out and was given up, and a second one has taken its place. */
  function GivenUp(): FsmState {
    var first := Fsm.Apply(Fresh(), Start("x")).0;
    Fsm.Apply(Fsm.Apply(first, SetAllocStatus(AllocId("x"), Failed("timeout"))).0, Start("y")).0
  }

  lemma GivenUpAllocs()
    ensures GivenUp().nodes == Fresh().nodes
    ensures var started := Alloc(AllocId("x"), Mill(), "web", Service, Pulling, None, Need(), None);
            GivenUp().allocs == map[AllocId("x") := started.(status := Failed("timeout")),
                                    AllocId("y") := started.(id := AllocId("y"))]
  {
    FreshIsSound();
    IdsDiffer();
  }

  /** The container that was given up runs after all, and the next heartbeat says so. */
  lemma HeartbeatOvercommits()
    ensures Sound(GivenUp())
    ensures !WithinTotals(Fsm.Apply(GivenUp(), NodeHeartbeat(1, map[AllocId("x") := Running])).0)
  {
    GivenUpIsSound();
    GivenUpAllocs();
    FreshIsSound();
    IdsDiffer();
    var s, x, y := GivenUp(), AllocId("x"), AllocId("y");
    var c := NodeHeartbeat(1, map[x := Running]);
    HeartbeatWithinTotalsIff(s, c);
    KeptAndRevived(s.allocs, x, y);
    OneDemand(s.allocs, x, Mill());
    OneDemand(s.allocs, y, Mill());
    assert !HeartbeatFits(s, c.statuses, s.nodes[1]);
  }

  lemma KeptAndRevived(allocs: map<AllocId, Alloc>, x: AllocId, y: AllocId)
    requires x != y && allocs.Keys == {x, y} && allocs[x].status.IsTerminal() && !allocs[y].status.IsTerminal()
    ensures KeptIds(allocs, map[x := Running]) == {y} && RevivedIds(allocs, map[x := Running]) == {x}
  {
  }

  lemma OneDemand(allocs: map<AllocId, Alloc>, id: AllocId, mill: NodeId)
    requires id in allocs && allocs[id].node == mill
    ensures Demands(allocs, {id}, mill) == Demand(allocs[id].resources)
  {
    DemandSplit(allocs, {id}, mill, id);
    assert {id} - {id} == {};
  }

  lemma GivenUpIsSound()
    ensures Sound(GivenUp())
  {
    FreshIsSound();
    IdsDiffer();
    var s := Fresh();
    assert s.allocs - {AllocId("x")} == map[];
    ScheduledKeepsSoundIff(s, Start("x"));
    var first := Fsm.Apply(s, Start("x")).0;
    OtherKeepsSound(first, SetAllocStatus(AllocId("x"), Failed("timeout")));
    var failed := Fsm.Apply(first, SetAllocStatus(AllocId("x"), Failed("timeout"))).0;
    NothingRuns(failed);
    ScheduledKeepsSoundIff(failed, Start("y"));
  }

  /** What was given up uses nothing. */
  lemma NothingRuns(s: FsmState)
    requires s == Fsm.Apply(Fsm.Apply(Fresh(), Start("x")).0, SetAllocStatus(AllocId("x"), Failed("timeout"))).0
    ensures s.nodes == Fresh().nodes && NodeLoad(s.allocs - {AllocId("y")}, Mill()) == Nothing()
  {
    FreshIsSound();
    IdsDiffer();
    var x := AllocId("x");
    assert (s.allocs - {AllocId("y")}).Keys == {x};
    SumSplit(s.allocs - {AllocId("y")}, {x}, Mill(), x);
    assert {x} - {x} == {};
  }
}
