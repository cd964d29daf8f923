/** Drains of a node with one service: one that goes well, and two that stop the service for nothing. */
module DrainRuns {
  import opened Types
  import opened Cluster
  import opened Deploy
  import opened Scheduler
  import opened Detachments
  import opened Rolling
  import opened Drain
  import opened DrainSafety
  import Capacity
  import Fsm

  // ----- The stage -----

  function A(): NodeId { NodeId("a") }

  function B(): NodeId { NodeId("b") }

  function Old(): AllocId { AllocId("old") }

  function New(): AllocId { AllocId("new") }

  lemma NamesDiffer()
    ensures A() != B() && Old() != New()
  {
    assert A().name[0] != B().name[0] && Old().name[0] != New().name[0];
  }

  function Web(): ServiceDef {
    ServiceDef("web", 1, Resources(1.0, 1), map[], [], [])
  }

  function At(): SocketAddr { SocketAddr(V4(2), 20000) }

  function Node(id: RaftId, mill: NodeId, status: NodeStatus): FsmNode {
    FsmNode(id, mill, SocketAddr(V4(id), 4400), NodeResources(4.0, 4.0, 8, 8), status, None, None, None, None)
  }

  function OldAlloc(status: AllocStatus): Alloc {
    Alloc(Old(), A(), "web", Service, status, None, Resources(1.0, 1), None)
  }

  /** The replacement as it is recorded, and later, when it has an address. */
  function NewAlloc(status: AllocStatus, address: Option<SocketAddr>): Alloc {
    Alloc(New(), B(), "web", Service, status, address, Resources(1.0, 1), None)
  }

  /** Two nodes and the service: the first node is about to be drained, the second may take over. */
  function Stage(a: NodeStatus, former: AllocStatus, later: Option<Alloc>): FsmState {
    FsmState(
      Some(ClusterConfig(map["web" := Web()], map[])),
      map[1 := Node(1, A(), a), 2 := Node(2, B(), Ready)],
      if later.Some? then map[Old() := OldAlloc(former), New() := later.value] else map[Old() := OldAlloc(former)],
      map[], map[])
  }

  // ----- The steps -----

  /** The drain is committed, and a node is chosen for the replacement. */
  function Choosing(): seq<Event> {
    [Proposed(NodeDrain(1), true), NameOf(1, Some(A())), AttachedAt(A(), {}),
     RunningOn(1, A(), [Active(Old(), "web", Service)]), Defined("web", Some(Web())),
     Picked(RequestFor("web", Web()), B(), 2), Entry(B(), Some(2))]
  }

  /** The replacement is recorded and run; it is reported with the given status, and answers. */
  function Launching(status: AllocStatus): seq<Event> {
    [Proposed(Scheduling(New(), 2, "web", Web()), true), Resolved(New(), true), Sent(B(), Run(New(), Web()), true),
     Other(AllocRunning(New(), Some(At()), None)), Other(SetAllocStatus(New(), status)), Saw(New(), Some(status)),
     Bound(New(), Some(At())), Probed(At(), true)]
  }

  function Head(status: AllocStatus): seq<Event> {
    Choosing() + Launching(status)
  }

  function Tail(): seq<Event> {
    [Proposed(SetAllocStatus(New(), Healthy), true), Sent(A(), Stop(Old()), true)]
  }

  /** The whole drain; others commit something before the promotion. */
  function Whole(status: AllocStatus, others: seq<Event>): seq<Event> {
    Head(status) + others + Tail()
  }

  function Course(n: nat): DrainCourse {
    DrainCourse(0, Detachment(None, 1, 2, [], 3), 3, A(), [Active(Old(), "web", Service)],
                [Replaced(4, Launch(5, 6, 7, 8, 9, 12, 13, 14, 15 + n), 16 + n)])
  }

  function NewIds(id: AllocId): AllocId { New() }

  /** Whatever others do meanwhile, and whether the replacement is seen running or stopped, this is a drain. */
  lemma WholeIsDrain(status: AllocStatus, others: seq<Event>)
    requires Runs(Some(status)) && forall e | e in others :: e.Other?
    ensures IsDrain(Whole(status, others), 0, 1, NewIds, Course(|others|))
  {
    var trace, c := Whole(status, others), Course(|others|);
    WholeDraws(status, others);
    WholeStops(status, others);
    WholeMoves(status, others);
    WholeAt(status, others);
  }

  lemma WholeMoves(status: AllocStatus, others: seq<Event>)
    requires Runs(Some(status)) && forall e | e in others :: e.Other?
    ensures var c := Course(|others|);
            AllMoved(Whole(status, others), 4, A(), c.listed, NewIds, c.moves)
  {
    var trace, m := Whole(status, others), Course(|others|).moves[0];
    WholeAt(status, others);
    assert Answered(trace, 7, Web(), New(), B(), m.launch);
    assert Started(trace, 5, "web", Web(), New(), m.launch);
  }

  /** The steps that matter, and where they are. */
  lemma WholeAt(status: AllocStatus, others: seq<Event>)
    requires forall e | e in others :: e.Other?
    ensures var trace, n := Whole(status, others), |others|;
            && |trace| == 17 + n && trace[..15] == Head(status) && (forall k | 15 <= k < 15 + n :: trace[k].Other?)
            && trace[15 + n] == Tail()[0] && trace[16 + n] == Tail()[1]
            && forall k | 0 <= k < 15 :: trace[k] == Head(status)[k]
  {
    var trace := Whole(status, others);
    forall k | 15 <= k < 15 + |others| ensures trace[k].Other? {
      assert trace[k] == others[k - 15];
    }
  }

  lemma WholeDraws(status: AllocStatus, others: seq<Event>)
    requires forall e | e in others :: e.Other?
    ensures Draws(Whole(status, others), 4)
  {
    var trace := Whole(status, others);
    WholeAt(status, others);
    assert ChosenFor(trace, 4, 5, 6, 7, 2);
    assert Schedules(trace[7], New());
    forall k | 4 <= k < |trace| ensures DrainEvent(trace[k]) && Justified(trace, 4, k) {
      if k < 15 {
        assert trace[k] == Head(status)[k];
      }
    }
  }

  lemma WholeStops(status: AllocStatus, others: seq<Event>)
    requires forall e | e in others :: e.Other?
    ensures var trace := Whole(status, others);
            Stops(trace, 4, |trace|) == [(Old(), A())] == StopList(A(), Course(|others|).listed, Course(|others|).moves)
  {
    var trace, c := Whole(status, others), Course(|others|);
    WholeAt(status, others);
    NoStops(trace, 4, 4, |trace| - 1);
    LastStop(trace, 4, |trace|);
    assert StopList(A(), c.listed, c.moves[..0]) == [];
  }

  // ----- The states -----

  function ChoosingStates(): seq<FsmState> {
    var begun := Stage(Draining, Healthy, None);
    [Stage(Ready, Healthy, None), begun, begun, begun, begun, begun, begun, begun]
  }

  function LaunchingStates(status: AllocStatus): seq<FsmState> {
    var recorded := Stage(Draining, Healthy, Some(NewAlloc(Pulling, None)));
    var running := Stage(Draining, Healthy, Some(NewAlloc(Running, Some(At()))));
    var reported := Stage(Draining, Healthy, Some(NewAlloc(status, Some(At()))));
    [Stage(Draining, Healthy, None), recorded, recorded, recorded, running, reported, reported, reported, reported]
  }

  function HeadStates(status: AllocStatus): seq<FsmState> {
    ChoosingStates() + LaunchingStates(status)[1..]
  }

  lemma OneElsewhere(allocs: map<AllocId, Alloc>, id: AllocId, mill: NodeId)
    requires allocs.Keys == {id} && allocs[id].node != mill
    ensures Capacity.NodeLoad(allocs, mill) == Capacity.Nothing()
  {
    Capacity.SumSplit(allocs, {id}, mill, id);
    assert {id} - {id} == {};
  }

  /** A ready node of this size on which nothing runs has room for a request that is bound to no volume. */
  lemma RoomIsLeft(s: FsmState, request: ScheduleRequest)
    requires 2 in s.nodes && s.nodes[2].status == Ready && s.nodes[2].resources == NodeResources(4.0, 4.0, 8, 8)
    requires Capacity.NodeLoad(s.allocs, s.nodes[2].millId) == Capacity.Nothing()
    requires request.need == Resources(1.0, 1) && request.volume.None?
    ensures MayTake(s, request, 2)
  {
  }

  lemma OnlyReady(s: FsmState, request: ScheduleRequest)
    requires MayTake(s, request, 2) && forall n | n in s.nodes && s.nodes[n].status == Ready :: n == 2
    ensures IsBest(s, request, 2)
  {
  }

  lemma StageIsLoaded(s: FsmState)
    requires s == Stage(Draining, Healthy, None)
    ensures 2 in s.nodes && s.nodes[2].status == Ready && s.nodes[2].resources == NodeResources(4.0, 4.0, 8, 8)
    ensures s.nodes[2].millId == B() && Capacity.NodeLoad(s.allocs, B()) == Capacity.Nothing()
    ensures forall n | n in s.nodes && s.nodes[n].status == Ready :: n == 2
  {
    NamesDiffer();
    OneElsewhere(s.allocs, Old(), B());
  }

  /** The second node has room for the service, and no other. */
  lemma HasRoom(s: FsmState, request: ScheduleRequest)
    requires s == Stage(Draining, Healthy, None) && request.need == Resources(1.0, 1) && request.volume.None?
    ensures Sees(s, Picked(request, B(), 2))
  {
    StageIsLoaded(s);
    RoomIsLeft(s, request);
    OnlyReady(s, request);
  }

  lemma OldRuns(s: FsmState)
    requires s == Stage(Draining, Healthy, None)
    ensures Sees(s, RunningOn(1, A(), [Active(Old(), "web", Service)]))
  {
    var listed := [Active(Old(), "web", Service)];
    assert AsActive(s, Old()) == listed[0];
    forall id | RunsOn(s, id, A()) ensures AsActive(s, id) in listed {
      assert id == Old();
    }
  }

  lemma WebIsDefined(s: FsmState)
    requires s == Stage(Draining, Healthy, None)
    ensures Sees(s, Defined("web", Some(Web()))) && Sees(s, Entry(B(), Some(2)))
  {
  }

  lemma DrainStep()
    ensures Effect(Stage(Ready, Healthy, None), Proposed(NodeDrain(1), true)) == Stage(Draining, Healthy, None)
  {
  }

  /** What the commands about the replacement do. */
  lemma HeadSteps(status: AllocStatus)
    ensures var begun, recorded := Stage(Draining, Healthy, None), Stage(Draining, Healthy, Some(NewAlloc(Pulling, None)));
            var running := Stage(Draining, Healthy, Some(NewAlloc(Running, Some(At()))));
            && Fsm.Apply(begun, Scheduling(New(), 2, "web", Web())).0 == recorded
            && Fsm.Apply(recorded, AllocRunning(New(), Some(At()), None)).0 == running
            && Fsm.Apply(running, SetAllocStatus(New(), status)).0
               == Stage(Draining, Healthy, Some(NewAlloc(status, Some(At()))))
  {
  }

  /** A command followed by reads. */
  lemma CommandAndReads(s: FsmState, later: FsmState, e: Event, seen: seq<Event>)
    requires !IsRead(e) && Effect(s, e) == later
    requires forall k | 0 <= k < |seen| :: IsRead(seen[k]) && Sees(later, seen[k])
    ensures IsRun([s] + seq(|seen| + 1, _ => later), [e] + seen)
  {
    var states, trace := [s] + seq(|seen| + 1, _ => later), [e] + seen;
    forall k | 0 <= k < |trace| ensures Happens(states, trace, k) {
      if 0 < k {
        assert trace[k] == seen[k - 1];
      }
    }
  }

  lemma SixReads(s: FsmState, a: Event, b: Event, c: Event, d: Event, e: Event, f: Event)
    requires a.NameOf? && b.AttachedAt? && c.RunningOn? && d.Defined? && e.Picked? && f.Entry?
    requires Sees(s, a) && Sees(s, b) && Sees(s, c) && Sees(s, d) && Sees(s, e) && Sees(s, f)
    ensures forall k | 0 <= k < 6 :: IsRead([a, b, c, d, e, f][k]) && Sees(s, [a, b, c, d, e, f][k])
  {
    forall k | 0 <= k < 6 ensures IsRead([a, b, c, d, e, f][k]) && Sees(s, [a, b, c, d, e, f][k]) {
      assert k == 0 || k == 1 || k == 2 || k == 3 || k == 4 || k == 5;
    }
  }

  lemma VolumesAreRead(s: FsmState)
    requires s == Stage(Draining, Healthy, None)
    ensures Sees(s, NameOf(1, Some(A()))) && Sees(s, AttachedAt(A(), {}))
  {
  }

  lemma ChoosingRuns()
    ensures IsRun(ChoosingStates(), Choosing())
  {
    ChoosingFrom(Stage(Draining, Healthy, None), RequestFor("web", Web()), [Active(Old(), "web", Service)]);
  }

  lemma ChoosingFrom(s: FsmState, request: ScheduleRequest, listed: seq<Active>)
    requires s == Stage(Draining, Healthy, None) && request == RequestFor("web", Web())
    requires listed == [Active(Old(), "web", Service)]
    ensures IsRun([Stage(Ready, Healthy, None), s, s, s, s, s, s, s],
                  [Proposed(NodeDrain(1), true), NameOf(1, Some(A())), AttachedAt(A(), {}), RunningOn(1, A(), listed),
                   Defined("web", Some(Web())), Picked(request, B(), 2), Entry(B(), Some(2))])
  {
    DrainStep();
    VolumesAreRead(s);
    OldRuns(s);
    WebIsDefined(s);
    HasRoom(s, request);
    SixReads(s, NameOf(1, Some(A())), AttachedAt(A(), {}), RunningOn(1, A(), listed), Defined("web", Some(Web())),
             Picked(request, B(), 2), Entry(B(), Some(2)));
    DrainAndReads(Stage(Ready, Healthy, None), s, [NameOf(1, Some(A())), AttachedAt(A(), {}), RunningOn(1, A(), listed),
                                                   Defined("web", Some(Web())), Picked(request, B(), 2), Entry(B(), Some(2))]);
  }

  lemma DrainAndReads(s: FsmState, later: FsmState, seen: seq<Event>)
    requires |seen| == 6 && Effect(s, Proposed(NodeDrain(1), true)) == later
    requires forall k | 0 <= k < 6 :: IsRead(seen[k]) && Sees(later, seen[k])
    ensures IsRun([s, later, later, later, later, later, later, later],
                  [Proposed(NodeDrain(1), true), seen[0], seen[1], seen[2], seen[3], seen[4], seen[5]])
  {
    var e := Proposed(NodeDrain(1), true);
    CommandAndReads(s, later, e, seen);
    assert [s] + seq(7, _ => later) == [s, later, later, later, later, later, later, later];
    assert [e] + seen == [e, seen[0], seen[1], seen[2], seen[3], seen[4], seen[5]];
  }

  lemma LaunchingRuns(status: AllocStatus)
    ensures IsRun(LaunchingStates(status), Launching(status))
  {
    var states, trace := LaunchingStates(status), Launching(status);
    HeadSteps(status);
    forall k | 0 <= k < |trace| ensures Happens(states, trace, k) {
    }
  }

  lemma HeadRuns(status: AllocStatus)
    ensures IsRun(HeadStates(status), Head(status))
  {
    ChoosingRuns();
    LaunchingRuns(status);
    RunsJoin(ChoosingStates(), Choosing(), LaunchingStates(status), Launching(status));
  }

  // ----- A drain that goes well -----

  function Report(): Event {
    Other(SetAllocStatus(Old(), Stopped(0)))
  }

  /** The promotion, the stop and its report. */
  function TailStates(status: AllocStatus): seq<FsmState> {
    var promoted := Some(NewAlloc(Healthy, Some(At())));
    [Stage(Draining, Healthy, Some(NewAlloc(status, Some(At())))), Stage(Draining, Healthy, promoted),
     Stage(Draining, Healthy, promoted), Stage(Draining, Stopped(0), promoted)]
  }

  lemma TailRuns(status: AllocStatus)
    ensures IsRun(TailStates(status), Tail() + [Report()])
  {
    var states, trace := TailStates(status), Tail() + [Report()];
    assert Fsm.Apply(states[0], SetAllocStatus(New(), Healthy)).0 == states[1];
    assert Fsm.Apply(states[2], SetAllocStatus(Old(), Stopped(0))).0 == states[3];
    forall k | 0 <= k < |trace| ensures Happens(states, trace, k) {
    }
  }

  function WebStates(status: AllocStatus): seq<FsmState> {
    HeadStates(status) + TailStates(status)[1..]
  }

  lemma WebRuns(status: AllocStatus)
    ensures IsRun(WebStates(status), Whole(status, []) + [Report()])
  {
    HeadRuns(status);
    TailRuns(status);
    RunsJoin(HeadStates(status), Head(status), TailStates(status), Tail() + [Report()]);
    assert Head(status) + (Tail() + [Report()]) == Whole(status, []) + [Report()];
  }

  /** There are drains as the guarantees suppose them: the only service of a node is replaced, stopped and reported. */
  lemma DrainOfOneService()
    ensures CompletedDrain(WebStates(Running), Whole(Running, []) + [Report()], Whole(Running, []), 0, 1, NewIds, Course(0))
    ensures Course(0).moves[0].Replaced?
  {
    WebEnded();
    OthersAreCalm(Whole(Running, []) + [Report()]);
    WebEnds();
  }

  lemma WebEnded()
    ensures AllEnded(WebStates(Running), Whole(Running, []) + [Report()], Whole(Running, []), 0, 1, NewIds, Course(0))
  {
    WebRuns(Running);
    WholeIsDrain(Running, []);
    WebAnswers(Whole(Running, []) + [Report()]);
    WebEnds();
  }

  lemma WebEnds()
    ensures var states := WebStates(Running);
            && 1 in states[0].nodes && states[0].nodes[1].millId == A() && 1 in states[18].nodes
  {
    assert WebStates(Running)[0] == Stage(Ready, Healthy, None);
    assert WebStates(Running)[18] == TailStates(Running)[3];
  }

  lemma WebAnswers(trace: seq<Event>)
    requires trace == Whole(Running, []) + [Report()]
    ensures StopsAnswered(trace, 4, 17) && Quiet(trace, 17, 18)
  {
    WholeAt(Running, []);
    assert Reports(trace[17], Old());
    assert forall k | 4 <= k < 15 :: !IsStop(Head(Running)[k]);
  }

  lemma OthersAreCalm(trace: seq<Event>)
    requires trace == Whole(Running, []) + [Report()]
    ensures LeftAlone(WebStates(Running), trace, 1, A(), Course(0))
  {
    OthersOfWeb(trace);
    WebAtFirst();
  }

  /** At first there is no replacement, and when its status is reported, it runs. */
  lemma WebAtFirst()
    ensures var states := WebStates(Running);
            && |states| == 19 && Fsm.UniqueMills(states[0]) && New() !in states[4].allocs
            && New() in states[11].allocs && states[11].allocs[New()].status == Running
  {
    NamesDiffer();
    var states := WebStates(Running);
    assert states[0] == Stage(Ready, Healthy, None) && states[4] == Stage(Draining, Healthy, None);
    assert states[11] == Stage(Draining, Healthy, Some(NewAlloc(Running, Some(At()))));
  }

  /** What others commit, and what the drain records. */
  lemma OthersOfWeb(trace: seq<Event>)
    requires trace == Whole(Running, []) + [Report()]
    ensures |trace| == 18 && trace[10].command.AllocRunning? && trace[11] == Other(SetAllocStatus(New(), Running))
    ensures trace[17] == Report()
    ensures forall k | 0 <= k < |trace| && trace[k].Other? :: k == 10 || k == 11 || k == 17
    ensures forall k | 0 <= k < |trace| && trace[k].Proposed? && trace[k].command.AllocScheduled? ::
              trace[k].command.allocId == New()
  {
    WholeAt(Running, []);
    assert trace[10] == Head(Running)[10] && trace[11] == Head(Running)[11];
    forall k | 0 <= k < |trace|
      ensures trace[k].Other? ==> k == 10 || k == 11 || k == 17
      ensures trace[k].Proposed? && trace[k].command.AllocScheduled? ==> trace[k].command.allocId == New()
    {
      if k < 15 {
        assert trace[k] == Head(Running)[k];
      }
    }
  }

  // ----- Drains that stop the service for nothing -----

  /** The wait for a replacement takes a stopped one for running: it is promoted, and the service is stopped. */
  lemma StoppedIsPromoted()
    ensures var states, trace := WebStates(Stopped(0)), Whole(Stopped(0), []);
            && IsRun(states, trace + [Report()]) && IsDrain(trace, 0, 1, NewIds, Course(0))
            && Course(0).moves[0].launch.seen == 12 && trace[12] == Saw(New(), Some(Stopped(0)))
            && StatusOf(states[15], New()) == Some(Stopped(0)) && StatusOf(states[16], New()) == Some(Healthy)
  {
    WebRuns(Stopped(0));
    WholeIsDrain(Stopped(0), []);
    PromotionOfWeb(Stopped(0));
    SeenOfWeb(Stopped(0));
  }

  lemma SeenOfWeb(status: AllocStatus)
    ensures Whole(status, [])[12] == Saw(New(), Some(status))
  {
    WholeAt(status, []);
  }

  lemma PromotionOfWeb(status: AllocStatus)
    ensures StatusOf(WebStates(status)[15], New()) == Some(status) && StatusOf(WebStates(status)[16], New()) == Some(Healthy)
  {
    assert WebStates(status)[15] == TailStates(status)[0] && WebStates(status)[16] == TailStates(status)[1];
    NewIsThere(status);
    NewIsThere(Healthy);
  }

  lemma NewIsThere(status: AllocStatus)
    ensures StatusOf(Stage(Draining, Healthy, Some(NewAlloc(status, Some(At())))), New()) == Some(status)
  {
  }

  /** The replacement ends after it has answered, and its node is removed. */
  function Loss(): seq<Event> {
    [Other(SetAllocStatus(New(), Stopped(0))), Other(NodeRemove(2))]
  }

  /** Without the second node. */
  function Gone(): FsmState {
    Stage(Draining, Healthy, None).(nodes := map[1 := Node(1, A(), Draining)])
  }

  function LossStates(): seq<FsmState> {
    [Stage(Draining, Healthy, Some(NewAlloc(Running, Some(At())))),
     Stage(Draining, Healthy, Some(NewAlloc(Stopped(0), Some(At())))), Gone(), Gone(), Gone()]
  }

  lemma NodeIsRemoved()
    ensures Fsm.Apply(LossStates()[1], NodeRemove(2)).0 == Gone()
  {
    var s := LossStates()[1];
    NamesDiffer();
    assert !Fsm.HasActive(s.allocs, B());
    assert Fsm.WithoutNode(s.allocs, B()) == Gone().allocs;
    assert s.nodes - {2} == Gone().nodes;
  }

  lemma PromotionIsRejected()
    ensures Fsm.Apply(Gone(), SetAllocStatus(New(), Healthy)) == (Gone(), Rejected(UnknownAlloc(New())))
  {
    NamesDiffer();
  }

  lemma LossRuns()
    ensures IsRun(LossStates(), Loss() + Tail())
  {
    var states, trace := LossStates(), Loss() + Tail();
    assert Fsm.Apply(states[0], SetAllocStatus(New(), Stopped(0))).0 == states[1];
    NodeIsRemoved();
    PromotionIsRejected();
    forall k | 0 <= k < |trace| ensures Happens(states, trace, k) {
    }
  }

  /**
   The promotion of a replacement that is gone is committed and rejected; the drain does not notice
   and tells the only allocation of the service to stop.
   */
  lemma LostIsPromoted()
    ensures var states, trace := HeadStates(Running) + LossStates()[1..], Whole(Running, Loss());
            && IsRun(states, trace) && IsDrain(trace, 0, 1, NewIds, Course(2))
            && Course(2).moves[0].stop == 18 && trace[18] == Sent(A(), Stop(Old()), true)
            && states[18].allocs.Keys == {Old()}
  {
    HeadRuns(Running);
    LossRuns();
    RunsJoin(HeadStates(Running), Head(Running), LossStates(), Loss() + Tail());
    assert Head(Running) + (Loss() + Tail()) == Whole(Running, Loss());
    WholeAt(Running, Loss());
    WholeIsDrain(Running, Loss());
    assert (HeadStates(Running) + LossStates()[1..])[18] == Gone();
  }
}
