/** A deploy that goes back to the former configuration while the new replica runs. */
module DeployRuns {
  import opened Types
  import opened Cluster
  import opened Deploy
  import opened Scheduler
  import opened Volumes
  import opened Rolling
  import opened RunDeploy
  import opened DeploySafety
  import Capacity
  import Fsm

  // ----- The stage -----

  function A(): NodeId { NodeId("a") }

  function Old(): AllocId { AllocId("old") }

  function New(): AllocId { AllocId("new") }

  function Def(image: string): ServiceDef {
    ServiceDef(image, 1, Resources(1.0, 1), map[], [], [])
  }

  function Before(): ClusterConfig { ClusterConfig(map["web" := Def("v1")], map[]) }

  function After(): ClusterConfig { ClusterConfig(map["web" := Def("v2")], map[]) }

  lemma NamesDiffer()
    ensures Old() != New() && Def("v1") != Def("v2")
  {
    assert Old().name[0] != New().name[0] && "v1"[1] != "v2"[1];
  }

  function At(): SocketAddr { SocketAddr(V4(1), 20000) }

  function OldAlloc(): Alloc {
    Alloc(Old(), A(), "web", Service, Healthy, None, Resources(1.0, 1), None)
  }

  function NewAlloc(status: AllocStatus, address: Option<SocketAddr>): Alloc {
    Alloc(New(), A(), "web", Service, status, address, Resources(1.0, 1), None)
  }

  /** One ready node, on which the service runs, and later its new replica too. */
  function Stage(config: ClusterConfig, later: Option<Alloc>): FsmState {
    var node := FsmNode(1, A(), SocketAddr(V4(1), 4400), NodeResources(4.0, 4.0, 8, 8), Ready, None, None, None, None);
    FsmState(
      Some(config), map[1 := node],
      if later.Some? then map[Old() := OldAlloc(), New() := later.value] else map[Old() := OldAlloc()],
      map[], map[])
  }

  /** The new replica is recorded. */
  function Pulled(): FsmState {
    Stage(After(), Some(NewAlloc(Pulling, None)))
  }

  /** It has an address. */
  function Grown(config: ClusterConfig, status: AllocStatus): FsmState {
    Stage(config, Some(NewAlloc(status, Some(At()))))
  }

  // ----- The events -----

  function Checks(): seq<Event> {
    [Current(Some(Before())), SecretsChecked(After(), true), CapacityChecked(After(), true),
     Proposed(Command.Deploy(After()), true)]
  }

  function Choosing(): seq<Event> {
    [FirstReady(Some(1)), Listed("web", [(Old(), A())]), Picked(RequestFor("web", Def("v2")), A(), 1),
     Entry(A(), Some(1)), Proposed(Scheduling(New(), 1, "web", Def("v2")), true)]
  }

  function Launching(): seq<Event> {
    [Resolved(New(), true), Sent(A(), Run(New(), Def("v2")), true), Event.Other(AllocRunning(New(), Some(At()), None))]
  }

  function Promoting(): seq<Event> {
    [Saw(New(), Some(Running)), Bound(New(), Some(At())), Probed(At(), true),
     Proposed(SetAllocStatus(New(), Healthy), true)]
  }

  /** The new replica is found, the node cannot be told to stop the old one, and the deploy goes back. */
  function GoingBack(): seq<Event> {
    [Found(New(), Some(A())), Sent(A(), Stop(Old()), false), Proposed(Command.Deploy(Before()), true)]
  }

  function Rolled(): seq<Event> {
    Checks() + Choosing() + Launching() + Promoting() + GoingBack()
  }

  // ----- The states -----

  /** There is a run with these events from one state to the other. */
  ghost predicate Leads(s: FsmState, trace: seq<Event>, t: FsmState) {
    exists states :: IsRun(states, trace) && states[0] == s && states[|trace|] == t
  }

  lemma LeadsOn(s: FsmState, trace: seq<Event>, t: FsmState, more: seq<Event>, u: FsmState)
    requires Leads(s, trace, t) && Leads(t, more, u)
    ensures Leads(s, trace + more, u)
  {
    var states :| IsRun(states, trace) && states[0] == s && states[|trace|] == t;
    var later :| IsRun(later, more) && later[0] == t && later[|more|] == u;
    RunsJoin(states, trace, later, more);
    assert (states + later[1..])[|trace + more|] == u;
  }

  /** Events that leave the state alone, and then a command. */
  lemma LeadsBy(s: FsmState, trace: seq<Event>, t: FsmState)
    requires trace != [] && Commits(trace[|trace| - 1]) && Effect(s, trace[|trace| - 1]) == t
    requires forall k | 0 <= k < |trace| - 1 :: !Commits(trace[k]) && Sees(s, trace[k])
    ensures Leads(s, trace, t)
  {
    var states := seq(|trace|, _ => s) + [t];
    forall k | 0 <= k < |trace| ensures Happens(states, trace, k) {
    }
    assert IsRun(states, trace) && states[0] == s && states[|trace|] == t;
  }

  lemma LeadsByThree(s: FsmState, a: Event, b: Event, c: Event, e: Event, t: FsmState)
    requires !Commits(a) && !Commits(b) && !Commits(c) && Commits(e) && Effect(s, e) == t
    requires Sees(s, a) && Sees(s, b) && Sees(s, c)
    ensures Leads(s, [a, b, c, e], t)
  {
    LeadsBy(s, [a, b, c, e], t);
  }

  lemma LeadsByFour(s: FsmState, a: Event, b: Event, c: Event, d: Event, e: Event, t: FsmState)
    requires !Commits(a) && !Commits(b) && !Commits(c) && !Commits(d) && Commits(e) && Effect(s, e) == t
    requires Sees(s, a) && Sees(s, b) && Sees(s, c) && Sees(s, d)
    ensures Leads(s, [a, b, c, d, e], t)
  {
    LeadsBy(s, [a, b, c, d, e], t);
  }

  lemma AfterIsFit(s: FsmState)
    requires s == Stage(Before(), None)
    ensures SecretsKnown(s, After()) && LargestFits(s, After())
  {
    assert s.nodes[1].status == Ready;
  }

  lemma Checked()
    ensures Leads(Stage(Before(), None), Checks(), Stage(After(), None))
  {
    CheckedFrom(Stage(Before(), None), Before(), After());
  }

  lemma CheckedFrom(s: FsmState, former: ClusterConfig, config: ClusterConfig)
    requires former == Before() && config == After() && s == Stage(former, None)
    ensures Leads(s, [Current(Some(former)), SecretsChecked(config, true), CapacityChecked(config, true),
                      Proposed(Command.Deploy(config), true)],
                  Stage(config, None))
  {
    AfterIsFit(s);
    LeadsByThree(s, Current(Some(former)), SecretsChecked(config, true), CapacityChecked(config, true),
                 Proposed(Command.Deploy(config), true), Stage(config, None));
  }

  lemma OneHere(allocs: map<AllocId, Alloc>, id: AllocId, mill: NodeId)
    requires allocs.Keys == {id}
    ensures Capacity.NodeLoad(allocs, mill) == Capacity.AllocLoad(allocs[id], mill)
  {
    Capacity.SumSplit(allocs, {id}, mill, id);
    assert {id} - {id} == {};
  }

  /** A ready node of this size with this load has room for a request that is bound to no volume. */
  lemma RoomIsLeft(s: FsmState, request: ScheduleRequest)
    requires 1 in s.nodes && s.nodes[1].status == Ready && s.nodes[1].resources == NodeResources(4.0, 4.0, 8, 8)
    requires Capacity.NodeLoad(s.allocs, s.nodes[1].millId) == Capacity.Load(1.0, 1)
    requires request.need == Resources(1.0, 1) && request.volume.None?
    ensures MayTake(s, request, 1)
  {
    assert Capacity.Wrap(1) == 1;
  }

  lemma StageIsLoaded(s: FsmState)
    requires s == Stage(After(), None)
    ensures 1 in s.nodes && s.nodes[1].status == Ready && s.nodes[1].resources == NodeResources(4.0, 4.0, 8, 8)
    ensures s.nodes[1].millId == A() && Capacity.NodeLoad(s.allocs, A()) == Capacity.Load(1.0, 1)
    ensures s.nodes.Keys == {1}
  {
    OneHere(s.allocs, Old(), A());
  }

  lemma HasRoom(s: FsmState, request: ScheduleRequest)
    requires s == Stage(After(), None) && request.need == Resources(1.0, 1) && request.volume.None?
    ensures Sees(s, Picked(request, A(), 1))
  {
    StageIsLoaded(s);
    RoomIsLeft(s, request);
    OnlyNode(s, request);
  }

  lemma OnlyNode(s: FsmState, request: ScheduleRequest)
    requires MayTake(s, request, 1) && s.nodes.Keys == {1}
    ensures IsBest(s, request, 1)
  {
  }

  lemma OldIsListed(s: FsmState)
    requires s == Stage(After(), None)
    ensures Sees(s, Listed("web", [(Old(), A())]))
  {
    assert (Old(), A()) in [(Old(), A())];
  }

  lemma NodeIsSeen(s: FsmState)
    requires s == Stage(After(), None)
    ensures Sees(s, FirstReady(Some(1))) && Sees(s, Entry(A(), Some(1)))
  {
  }

  lemma NewIsRecorded(s: FsmState)
    requires s == Stage(After(), None)
    ensures Fsm.Apply(s, Scheduling(New(), 1, "web", Def("v2"))).0 == Pulled()
  {
  }

  lemma Recorded()
    ensures Leads(Stage(After(), None), Choosing(), Pulled())
  {
    RecordedFrom(Stage(After(), None), RequestFor("web", Def("v2")));
  }

  lemma RecordedFrom(s: FsmState, request: ScheduleRequest)
    requires s == Stage(After(), None) && request == RequestFor("web", Def("v2"))
    ensures Leads(s, [FirstReady(Some(1)), Listed("web", [(Old(), A())]), Picked(request, A(), 1), Entry(A(), Some(1)),
                      Proposed(Scheduling(New(), 1, "web", Def("v2")), true)],
                  Pulled())
  {
    NodeIsSeen(s);
    OldIsListed(s);
    HasRoom(s, request);
    NewIsRecorded(s);
    LeadsByFour(s, FirstReady(Some(1)), Listed("web", [(Old(), A())]), Picked(request, A(), 1), Entry(A(), Some(1)),
                Proposed(Scheduling(New(), 1, "web", Def("v2")), true), Pulled());
  }

  lemma Launched()
    ensures Leads(Pulled(), Launching(), Grown(After(), Running))
  {
    var s, t := Pulled(), Grown(After(), Running);
    assert Fsm.Apply(s, AllocRunning(New(), Some(At()), None)).0 == t;
    LeadsBy(s, Launching(), t);
  }

  lemma Raised()
    ensures Leads(Grown(After(), Running), Promoting(), Grown(After(), Healthy))
  {
    var s, t := Grown(After(), Running), Grown(After(), Healthy);
    assert Fsm.Apply(s, SetAllocStatus(New(), Healthy)).0 == t;
    LeadsBy(s, Promoting(), t);
  }

  lemma Returned()
    ensures Leads(Grown(After(), Healthy), GoingBack(), Grown(Before(), Healthy))
  {
    LeadsBy(Grown(After(), Healthy), GoingBack(), Grown(Before(), Healthy));
  }

  lemma RolledRuns()
    ensures Leads(Stage(Before(), None), Rolled(), Grown(Before(), Healthy))
  {
    Checked();
    Recorded();
    Launched();
    Raised();
    Returned();
    var s, recorded := Stage(Before(), None), Pulled();
    var running, healthy := Grown(After(), Running), Grown(After(), Healthy);
    LeadsOn(s, Checks(), Stage(After(), None), Choosing(), recorded);
    LeadsOn(s, Checks() + Choosing(), recorded, Launching(), running);
    LeadsOn(s, Checks() + Choosing() + Launching(), running, Promoting(), healthy);
    LeadsOn(s, Checks() + Choosing() + Launching() + Promoting(), healthy, GoingBack(), Grown(Before(), Healthy));
  }

  // ----- What the deploy did -----

  function NewIds(name: string, i: nat): AllocId { New() }

  function Up(): Replica {
    Replica(Launch(6, 7, 8, 9, 10, 12, 13, 14, 15), 16, Some(A()))
  }

  function WebRun(): ServiceRun {
    var prep := Preparation(None, 4, 1, [], 5);
    ServiceRun("web", true, 4, StopFailed, Course(prep, 5, 0, Unrecorded, 17, [(Old(), A())], [Up()]))
  }

  function RolledRun(): DeployRun {
    DeployRun(Some(Before()), Plan([], ["web"], []), 3, [], 4, [], 4, [WebRun()], 18)
  }

  lemma RolledIsPlan()
    ensures IsPlan(Some(Before()), After(), RolledRun().plan)
  {
    NamesDiffer();
  }

  /** The events up to the deploy's last proposal. */
  function Updating(): (trace: seq<Event>)
    ensures |trace| == 18
  {
    Checks() + Choosing() + Launching() + Promoting() + GoingBack()[..2]
  }

  lemma NewIsUp()
    ensures ReplicaUp(Updating(), 6, "web", Def("v2"), New(), Up())
  {
    var trace, w := Updating(), Up().launch;
    assert Chosen(trace, 6, "web", Def("v2"), 6, 7);
    assert Answered(trace, 8, Def("v2"), New(), A(), w);
  }

  lemma OldIsTold()
    ensures Stops(Updating(), 17, 18) == [(Old(), A())] && !AllSent(Updating(), 17) && OnlyStops(Updating(), 17)
  {
    var trace := Updating();
    LastStop(trace, 17, 18);
    assert IsStop(trace[17]) && !trace[17].ok;
  }

  lemma WebIsUpdated()
    ensures AllOrNothing(Updating(), 4, "web", Def("v2"), [New()], StopFailed, WebRun().o)
  {
    NewIsUp();
    OldIsTold();
    assert Updating()[4] == FirstReady(Some(1)) && Updating()[5] == Listed("web", [(Old(), A())]);
    assert Harmless(Updating(), 6, 17);
  }

  lemma WebRanAs()
    ensures RanAs(Updating(), After(), NewIds, WebRun())
  {
    WebIsUpdated();
    assert IdsFor(NewIds, "web", Def("v2")) == [New()];
  }

  lemma RolledIsCarriedOut()
    ensures CarriedOut(Updating(), 4, After(), NewIds, RolledRun())
  {
    var trace, d := Updating(), RolledRun();
    WebRanAs();
    assert |trace[..4]| == 4 && trace[..4][..4] == trace[..4];
    assert d.changed[..0] == [];
  }

  lemma RolledIsChecked()
    ensures Proposes(Rolled(), 0, After(), RolledRun())
  {
    var trace := Rolled();
    RolledIsPlan();
    assert trace[0] == Current(Some(Before()));
    assert trace[1] == SecretsChecked(After(), true) && trace[2] == CapacityChecked(After(), true);
  }

  lemma RolledIsDeploy()
    ensures DeploysAs(Rolled(), 0, After(), NewIds, Finished(true, true), RolledRun())
  {
    RolledIsChecked();
    RolledIsCarriedOut();
    assert Rolled()[..18] == Updating();
    assert !RolledRun().changed[0].r.Updated?;
  }

  /**
   The new replica is up and the old one cannot be told to stop: the deploy goes back to the former
   configuration, while the new replica, of another definition, is healthy.
   */
  lemma UnsentStopLeavesReplica() returns (states: seq<FsmState>)
    ensures IsRun(states, Rolled()) && DeploysAs(Rolled(), 0, After(), NewIds, Finished(true, true), RolledRun())
    ensures RolledRun().changed[0].r.StopFailed? && After().services["web"] != Before().services["web"]
    ensures states[0].config == Some(Before()) == states[19].config
    ensures StatusOf(states[19], New()) == Some(Healthy) == StatusOf(states[19], Old())
  {
    RolledRuns();
    RolledIsDeploy();
    BothAreHealthy();
    states := RunOf(Stage(Before(), None), Rolled(), Grown(Before(), Healthy));
  }

  lemma RunOf(s: FsmState, trace: seq<Event>, t: FsmState) returns (states: seq<FsmState>)
    requires Leads(s, trace, t)
    ensures IsRun(states, trace) && states[0] == s && states[|trace|] == t
  {
    states :| IsRun(states, trace) && states[0] == s && states[|trace|] == t;
  }

  lemma BothAreHealthy()
    ensures |Rolled()| == 19 && After().services["web"] != Before().services["web"]
    ensures var t := Grown(Before(), Healthy);
            StatusOf(t, New()) == Some(Healthy) == StatusOf(t, Old())
  {
    NamesDiffer();
  }
}
