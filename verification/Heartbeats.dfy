/**
 Runs of the heartbeat checks: the watchdog reads the nodes and then takes them one by one, while
 the report processor notes heartbeats and anyone commits commands, in any interleaving.
 */
module Heartbeats {
  import opened Types
  import Fsm
  import opened Watchdog

  /** A tick under way: when it began, the nodes as it read them, and those it has not yet taken. */
  datatype Tick = Tick(now: Time, seen: map<RaftId, FsmNode>, todo: set<RaftId>)

  /** A monitor, the time of the last tick or heartbeat, and the tick under way. */
  datatype State = State(monitor: Monitor, clock: Time, tick: Option<Tick>)

  datatype Step =
    | Read(now: Time)                  // a tick begins and reads the nodes
    | Check(id: RaftId, ok: bool)      // it takes the next node; `ok` if consensus takes a proposal
    | Finish                           // it is done
    | Record(node: RaftId, now: Time)  // a heartbeat is noted
    | Commit(command: Command)         // anyone else's command is committed

  /** A tick proposes a node down that was ready when read, and is silent for the timeout by now. */
  predicate Downs(s: State, id: RaftId, timeout: nat) {
    && s.tick.Some? && id in s.tick.value.seen && s.tick.value.seen[id].status == Ready
    && var v := s.monitor;
    var since := if id in v.tracker then v.tracker[id] else if id in v.discovered then v.discovered[id] else s.tick.value.now;
    Elapsed(since, s.tick.value.now) >= timeout
  }

  ghost function After(s: State, step: Step, timeout: nat): State {
    match step
    case Read(now) =>
      var v := s.monitor;
      State(Monitor(v.fsm, Track(v.fsm, v.tracker, v.discovered), Discover(v.fsm, v.discovered, now)), now,
            Some(Tick(now, v.fsm.nodes, v.fsm.nodes.Keys)))
    case Check(id, ok) =>
      if s.tick.None? then s
      else
        var v := s.monitor;
        s.(monitor := if ok && Downs(s, id, timeout) then v.(fsm := Fsm.Apply(v.fsm, NodeDown(id)).0) else v,
           tick := Some(s.tick.value.(todo := s.tick.value.todo - {id})))
    case Finish => s.(tick := None)
    case Record(id, now) => s.(monitor := s.monitor.(tracker := s.monitor.tracker[id := now]), clock := now)
    case Commit(c) => s.(monitor := s.monitor.(fsm := Fsm.Apply(s.monitor.fsm, c).0))
  }

  /** Only the watchdog proposes nodes down. */
  ghost predicate Enabled(s: State, step: Step) {
    match step
    case Read(now) => s.tick.None? && s.clock <= now
    case Check(id, _) => s.tick.Some? && id in s.tick.value.todo
    case Finish => s.tick.Some? && s.tick.value.todo == {}
    case Record(_, now) => s.clock <= now
    case Commit(c) => !c.NodeDown?
  }

  ghost predicate IsRun(states: seq<State>, steps: seq<Step>, timeout: nat) {
    && |states| == |steps| + 1
    && states[0].tick.None?
    && forall k {:trigger steps[k]} | 0 <= k < |steps| ::
         Enabled(states[k], steps[k]) && states[k + 1] == After(states[k], steps[k], timeout)
  }

  /** What a tick proposes when nothing comes in between is what the atomic tick proposes. */
  lemma UninterruptedTick(s: State, now: Time, timeout: nat, id: RaftId)
    requires id in s.monitor.fsm.nodes
    ensures Downs(After(s, Read(now), timeout), id, timeout) <==> id in Proposed(s.monitor, now, timeout)
  {
  }

  // ----- A heartbeat keeps a node up -----

  /** The tick under way began by now, and all it read has been discovered. */
  ghost predicate TickIsPast(s: State) {
    s.tick.Some? ==> s.tick.value.now <= s.clock && s.tick.value.seen.Keys <= s.monitor.discovered.Keys
  }

  /** The node was heard of, or newly discovered, no earlier than `t`. */
  ghost predicate HeardSince(s: State, id: RaftId, t: Time) {
    && t <= s.clock && TickIsPast(s)
    && (id in s.monitor.tracker ==> t <= s.monitor.tracker[id])
    && (id !in s.monitor.tracker && id in s.monitor.discovered ==> t <= s.monitor.discovered[id])
  }

  lemma {:induction false} TicksArePast(states: seq<State>, steps: seq<Step>, timeout: nat, k: nat)
    requires IsRun(states, steps, timeout) && k <= |steps|
    ensures TickIsPast(states[k])
  {
    if k > 0 {
      TicksArePast(states, steps, timeout, k - 1);
      assert Enabled(states[k - 1], steps[k - 1]) && states[k] == After(states[k - 1], steps[k - 1], timeout);
    }
  }

  lemma StepKeepsHeard(s: State, step: Step, timeout: nat, id: RaftId, t: Time)
    requires Enabled(s, step) && HeardSince(s, id, t)
    ensures HeardSince(After(s, step, timeout), id, t)
  {
  }

  lemma {:induction false} HeardUntil(states: seq<State>, steps: seq<Step>, timeout: nat, id: RaftId, t: Time, i: nat, j: nat)
    requires IsRun(states, steps, timeout) && i <= j <= |steps| && HeardSince(states[i], id, t)
    ensures HeardSince(states[j], id, t)
    decreases j
  {
    if i < j {
      HeardUntil(states, steps, timeout, id, t, i, j - 1);
      assert Enabled(states[j - 1], steps[j - 1]) && states[j] == After(states[j - 1], steps[j - 1], timeout);
      StepKeepsHeard(states[j - 1], steps[j - 1], timeout, id, t);
    }
  }

  lemma ProposedIsLate(s: State, timeout: nat, id: RaftId, t: Time)
    requires HeardSince(s, id, t) && Downs(s, id, timeout)
    ensures s.clock >= t + timeout && (timeout > 0 ==> s.tick.value.now >= t + timeout)
  {
  }

  /**
   No node is proposed down within the timeout of a recorded heartbeat of it, even one noted during
   the tick: the tick itself began at least the timeout after the heartbeat.
   */
  lemma HeartbeatKeepsUp(states: seq<State>, steps: seq<Step>, timeout: nat, id: RaftId, i: nat, j: nat)
    requires IsRun(states, steps, timeout) && i < j < |steps|
    requires steps[i].Record? && steps[i].node == id && Downs(states[j], id, timeout)
    ensures states[j].clock >= steps[i].now + timeout
    ensures timeout > 0 ==> states[j].tick.value.now >= steps[i].now + timeout
  {
    TicksArePast(states, steps, timeout, i);
    assert states[i + 1] == After(states[i], steps[i], timeout);
    HeardUntil(states, steps, timeout, id, steps[i].now, i + 1, j);
    ProposedIsLate(states[j], timeout, id, steps[i].now);
  }

  ghost predicate NoRecord(steps: seq<Step>, id: RaftId, j: nat)
    requires j <= |steps|
  {
    forall k | 0 <= k < j :: !(steps[k].Record? && steps[k].node == id)
  }

  lemma {:induction false} NeverHeard(states: seq<State>, steps: seq<Step>, timeout: nat, id: RaftId, j: nat)
    requires IsRun(states, steps, timeout) && j <= |steps| && NoRecord(steps, id, j)
    requires id !in states[0].monitor.tracker
    ensures id !in states[j].monitor.tracker
  {
    if j > 0 {
      NeverHeard(states, steps, timeout, id, j - 1);
      assert states[j] == After(states[j - 1], steps[j - 1], timeout);
    }
  }

  /** Nor, if no heartbeat of it was ever recorded, within the timeout of a tick that first saw it. */
  lemma DiscoveryKeepsUp(states: seq<State>, steps: seq<Step>, timeout: nat, id: RaftId, i: nat, j: nat)
    requires IsRun(states, steps, timeout) && i < j < |steps|
    requires id !in states[0].monitor.tracker && NoRecord(steps, id, j)
    requires steps[i].Read? && id !in states[i].monitor.discovered && Downs(states[j], id, timeout)
    ensures states[j].clock >= steps[i].now + timeout
    ensures timeout > 0 ==> states[j].tick.value.now >= steps[i].now + timeout
  {
    NeverHeard(states, steps, timeout, id, i);
    assert states[i + 1] == After(states[i], steps[i], timeout);
    HeardUntil(states, steps, timeout, id, steps[i].now, i + 1, j);
    ProposedIsLate(states[j], timeout, id, steps[i].now);
  }

  // ----- A silent node is proposed down -----

  /** Every tick between the two steps found the node registered. */
  ghost predicate StaysRegistered(states: seq<State>, steps: seq<Step>, id: RaftId, i: nat, j: nat)
    requires j <= |steps| < |states|
  {
    forall k | i < k < j && steps[k].Read? :: id in states[k].monitor.fsm.nodes
  }

  /** No heartbeat of the node is noted between the two steps. */
  ghost predicate IsSilent(steps: seq<Step>, id: RaftId, i: nat, j: nat)
    requires j <= |steps|
  {
    forall k | i < k < j :: !(steps[k].Record? && steps[k].node == id)
  }

  lemma {:induction false} HeartbeatIsKept(
    states: seq<State>, steps: seq<Step>, timeout: nat, id: RaftId, i: nat, j: nat)
    requires IsRun(states, steps, timeout) && i < j <= |steps| && steps[i].Record? && steps[i].node == id
    requires IsSilent(steps, id, i, j) && StaysRegistered(states, steps, id, i, j)
    ensures id in states[j].monitor.tracker && states[j].monitor.tracker[id] == steps[i].now
    decreases j
  {
    assert states[j] == After(states[j - 1], steps[j - 1], timeout);
    if i + 1 < j {
      HeartbeatIsKept(states, steps, timeout, id, i, j - 1);
    }
  }

  /**
   After its last heartbeat, a tick that has read a node proposes it down exactly if it was read as ready
   and the tick began no earlier than the timeout after that heartbeat.
   */
  lemma SilentIsDownedIff(states: seq<State>, steps: seq<Step>, timeout: nat, id: RaftId, i: nat, j: nat)
    requires IsRun(states, steps, timeout) && i < j <= |steps| && steps[i].Record? && steps[i].node == id
    requires IsSilent(steps, id, i, j) && StaysRegistered(states, steps, id, i, j)
    requires timeout > 0 && states[j].tick.Some? && id in states[j].tick.value.seen
    ensures Downs(states[j], id, timeout) <==>
            && states[j].tick.value.seen[id].status == Ready
            && states[j].tick.value.now >= steps[i].now + timeout
  {
    HeartbeatIsKept(states, steps, timeout, id, i, j);
  }

  lemma {:induction false} DiscoveryIsKept(
    states: seq<State>, steps: seq<Step>, timeout: nat, id: RaftId, i: nat, j: nat)
    requires IsRun(states, steps, timeout) && i < j <= |steps| && steps[i].Read?
    requires id in states[i].monitor.fsm.nodes && id !in states[i].monitor.discovered && id !in states[i].monitor.tracker
    requires IsSilent(steps, id, i, j) && StaysRegistered(states, steps, id, i, j)
    ensures id !in states[j].monitor.tracker
    ensures id in states[j].monitor.discovered && states[j].monitor.discovered[id] == steps[i].now
    decreases j
  {
    assert states[j] == After(states[j - 1], steps[j - 1], timeout);
    if i + 1 < j {
      DiscoveryIsKept(states, steps, timeout, id, i, j - 1);
    }
  }

  /** A node never heard of is proposed down exactly if the tick began the timeout after the one that first saw it. */
  lemma UnheardIsDownedIff(states: seq<State>, steps: seq<Step>, timeout: nat, id: RaftId, i: nat, j: nat)
    requires IsRun(states, steps, timeout) && i < j <= |steps| && steps[i].Read?
    requires id in states[i].monitor.fsm.nodes && id !in states[i].monitor.discovered && id !in states[i].monitor.tracker
    requires IsSilent(steps, id, i, j) && StaysRegistered(states, steps, id, i, j)
    requires timeout > 0 && states[j].tick.Some? && id in states[j].tick.value.seen
    ensures Downs(states[j], id, timeout) <==>
            && states[j].tick.value.seen[id].status == Ready
            && states[j].tick.value.now >= steps[i].now + timeout
  {
    DiscoveryIsKept(states, steps, timeout, id, i, j);
  }

  /**
   The heartbeats of a node that a tick finds gone are forgotten, so that one registered again under its
   id is given the timeout anew.
   */
  lemma {:induction false} RemovedIsForgotten(
    states: seq<State>, steps: seq<Step>, timeout: nat, id: RaftId, i: nat, j: nat)
    requires IsRun(states, steps, timeout) && i < j <= |steps| && steps[i].Read? && IsSilent(steps, id, i, j)
    requires id !in states[i].monitor.fsm.nodes && id in states[i].monitor.discovered
    ensures id !in states[i + 1].monitor.discovered && id !in states[j].monitor.tracker
    decreases j
  {
    assert states[i + 1] == After(states[i], steps[i], timeout);
    if i + 1 < j {
      assert states[j] == After(states[j - 1], steps[j - 1], timeout);
      RemovedIsForgotten(states, steps, timeout, id, i, j - 1);
    }
  }

  /** Registered nodes with this id do not have the status. */
  predicate NotIn(s: FsmState, id: RaftId, status: NodeStatus) {
    id in s.nodes ==> s.nodes[id].status != status
  }

  lemma CommandDowns(s: FsmState, c: Command, id: RaftId)
    requires NotIn(s, id, Down) && c != NodeDown(id)
    ensures NotIn(Fsm.Apply(s, c).0, id, Down)
  {
  }

  /**
   A node that is up after a recorded heartbeat, in particular one the heartbeat recovered, is not
   marked down for the timeout.
   */
  lemma {:induction false} RecoveredStaysUp(
    states: seq<State>, steps: seq<Step>, timeout: nat, id: RaftId, i: nat, m: nat, j: nat)
    requires IsRun(states, steps, timeout) && i < m <= j <= |steps|
    requires steps[i].Record? && steps[i].node == id && NotIn(states[m].monitor.fsm, id, Down)
    requires states[j].clock < steps[i].now + timeout
    ensures NotIn(states[j].monitor.fsm, id, Down)
    decreases j
  {
    if m < j {
      var s, step := states[j - 1], steps[j - 1];
      assert states[j] == After(s, step, timeout) && Enabled(s, step);
      RecoveredStaysUp(states, steps, timeout, id, i, m, j - 1);
      if step.Check? && Downs(s, step.id, timeout) {
        if step.id == id {
          HeartbeatKeepsUp(states, steps, timeout, id, i, j - 1);
        }
        CommandDowns(s.monitor.fsm, NodeDown(step.id), id);
      } else if step.Commit? {
        CommandDowns(s.monitor.fsm, step.command, id);
      }
    }
  }

  // ----- Draining -----

  /** A node that is registered under this id is draining. */
  predicate Drains(s: FsmState, id: RaftId) {
    id in s.nodes ==> s.nodes[id].status == Draining
  }

  predicate Registers(c: Command, id: RaftId) {
    c.NodeRegister? && c.id == id
  }

  /** The step registers the node anew, or marks it down. */
  predicate EndsDraining(s: State, step: Step, id: RaftId, timeout: nat) {
    || (step.Commit? && Registers(step.command, id))
    || (step == Check(id, true) && Downs(s, id, timeout) && id in s.monitor.fsm.nodes)
  }

  lemma CommandDrains(s: FsmState, c: Command, id: RaftId)
    requires Drains(s, id)
    ensures Drains(Fsm.Apply(s, c).0, id) <==> !Registers(c, id) && !(c == NodeDown(id) && id in s.nodes)
  {
  }

  lemma StepDrainsIff(s: State, step: Step, timeout: nat, id: RaftId)
    requires Drains(s.monitor.fsm, id) && Enabled(s, step)
    ensures Drains(After(s, step, timeout).monitor.fsm, id) <==> !EndsDraining(s, step, id, timeout)
  {
    if step.Commit? {
      CommandDrains(s.monitor.fsm, step.command, id);
    } else if step.Check? {
      CommandDrains(s.monitor.fsm, NodeDown(step.id), id);
    }
  }

  ghost predicate DrainsThrough(states: seq<State>, i: nat, j: nat, id: RaftId)
    requires j < |states|
  {
    forall k | i <= k <= j :: Drains(states[k].monitor.fsm, id)
  }

  ghost predicate NoneEnds(states: seq<State>, steps: seq<Step>, timeout: nat, id: RaftId, i: nat, j: nat)
    requires j <= |steps| <= |states|
  {
    forall k | i <= k < j :: !EndsDraining(states[k], steps[k], id, timeout)
  }

  lemma OneMoreStep(states: seq<State>, steps: seq<Step>, timeout: nat, id: RaftId, i: nat, j: nat)
    requires i < j <= |steps| < |states|
    ensures DrainsThrough(states, i, j, id) <==> DrainsThrough(states, i, j - 1, id) && Drains(states[j].monitor.fsm, id)
    ensures NoneEnds(states, steps, timeout, id, i, j) <==>
              NoneEnds(states, steps, timeout, id, i, j - 1) && !EndsDraining(states[j - 1], steps[j - 1], id, timeout)
  {
  }

  /** On every run, draining lasts exactly until a step registers the node anew or marks it down. */
  lemma {:induction false} DrainingLastsIff(
    states: seq<State>, steps: seq<Step>, timeout: nat, id: RaftId, i: nat, j: nat)
    requires IsRun(states, steps, timeout) && i <= j <= |steps| && Drains(states[i].monitor.fsm, id)
    ensures DrainsThrough(states, i, j, id) <==> NoneEnds(states, steps, timeout, id, i, j)
    decreases j
  {
    if i < j {
      DrainingLastsIff(states, steps, timeout, id, i, j - 1);
      OneMoreStep(states, steps, timeout, id, i, j);
      if DrainsThrough(states, i, j - 1, id) {
        assert states[j] == After(states[j - 1], steps[j - 1], timeout) && Enabled(states[j - 1], steps[j - 1]);
        StepDrainsIff(states[j - 1], steps[j - 1], timeout, id);
      }
    }
  }

  /** While a node drains, a tick that has read it as ready is one that was under way before. */
  lemma {:induction false} ReadBefore(
    states: seq<State>, steps: seq<Step>, timeout: nat, id: RaftId, i: nat, k: nat)
    requires IsRun(states, steps, timeout) && i <= k <= |steps| && DrainsThrough(states, i, k, id)
    requires states[k].tick.Some? && id in states[k].tick.value.seen && states[k].tick.value.seen[id].status == Ready
    ensures states[i].tick.Some? && states[i].tick.value.seen == states[k].tick.value.seen
    ensures forall r | i <= r < k :: !steps[r].Read? && !steps[r].Finish?
    decreases k
  {
    if i < k {
      assert states[k] == After(states[k - 1], steps[k - 1], timeout) && Drains(states[k - 1].monitor.fsm, id);
      ReadBefore(states, steps, timeout, id, i, k - 1);
    }
  }

  /**
   A draining node, unless it is registered anew, stops draining only by the proposal of a tick that
   had read it as ready before it was drained.
   */
  lemma DrainingEndsByOlderRead(states: seq<State>, steps: seq<Step>, timeout: nat, id: RaftId, i: nat, k: nat)
    requires IsRun(states, steps, timeout) && i <= k < |steps| && DrainsThrough(states, i, k, id)
    requires !Drains(states[k + 1].monitor.fsm, id) && !(steps[k].Commit? && Registers(steps[k].command, id))
    ensures steps[k] == Check(id, true)
    ensures states[i].tick.Some? && id in states[i].tick.value.seen && states[i].tick.value.seen[id].status == Ready
    ensures forall r | i <= r < k :: !steps[r].Read?
  {
    assert states[k + 1] == After(states[k], steps[k], timeout) && Enabled(states[k], steps[k]);
    StepDrainsIff(states[k], steps[k], timeout, id);
    ReadBefore(states, steps, timeout, id, i, k);
  }

  // ----- A drain between a tick's read and its proposal -----

  function SilentNode(status: NodeStatus): FsmNode {
    FsmNode(1, NodeId("a"), SocketAddr(V4(1), 4400), NodeResources(1.0, 1.0, 1, 1), status, None, None, None, None)
  }

  function Silent(status: NodeStatus): Monitor {
    Monitor(FsmState(None, map[1 := SilentNode(status)], map[], map[], map[]), map[1 := 0], map[1 := 0])
  }

  /** The node is read as ready, drained, marked down, and then heard of again. */
  function DrainIsLost(): seq<Step> {
    [Read(10), Commit(NodeDrain(1)), Check(1, true), Commit(NodeHeartbeat(1, map[]))]
  }

  function LostStates(): seq<State> {
    var under := Some(Tick(10, map[1 := SilentNode(Ready)], {1}));
    [State(Silent(Ready), 0, None), State(Silent(Ready), 10, under), State(Silent(Draining), 10, under),
     State(Silent(Down), 10, under.(value := under.value.(todo := {}))),
     State(Silent(Ready), 10, under.(value := under.value.(todo := {})))]
  }

  /** The draining node is ready again, and nobody has registered it. */
  lemma DrainCanBeLost()
    ensures IsRun(LostStates(), DrainIsLost(), 10)
    ensures LostStates()[2].monitor.fsm.nodes[1].status == Draining && LostStates()[4].monitor.fsm.nodes[1].status == Ready
  {
    var states, steps := LostStates(), DrainIsLost();
    assert Fsm.Apply(Silent(Ready).fsm, NodeDrain(1)).0 == Silent(Draining).fsm;
    assert Fsm.Apply(Silent(Draining).fsm, NodeDown(1)).0 == Silent(Down).fsm;
    assert Fsm.Apply(Silent(Down).fsm, NodeHeartbeat(1, map[])).0 == Silent(Ready).fsm by {
      assert Fsm.MergeStatuses(map[], map[]) == map[];
    }
    assert {1} - {1} == {};
    assert After(states[0], steps[0], 10) == states[1] by {
      var v := Silent(Ready);
      assert Track(v.fsm, v.tracker, v.discovered) == v.tracker && Discover(v.fsm, v.discovered, 10) == v.discovered;
      assert v.fsm.nodes.Keys == {1};
    }
    assert After(states[2], steps[2], 10) == states[3];
    forall k | 0 <= k < |steps| ensures Enabled(states[k], steps[k]) && states[k + 1] == After(states[k], steps[k], 10) {
    }
  }

  // ----- What a tick changes -----

  /** The tick takes down a registered node of this name. */
  ghost predicate TakesDown(m: Monitor, now: Time, timeout: nat, accepted: Command -> bool, mill: NodeId) {
    exists n | n in Proposed(m, now, timeout) :: m.fsm.nodes[n].millId == mill && accepted(NodeDown(n))
  }

  /** A tick marks down the nodes it proposes, where accepted, and changes no other. */
  lemma NodeAfterTick(m: Monitor, now: Time, timeout: nat, accepted: Command -> bool, id: RaftId)
    ensures var after := Ticked(m, now, timeout, accepted).fsm;
            && after.config == m.fsm.config && after.secrets == m.fsm.secrets && after.volumes == m.fsm.volumes
            && (id in after.nodes <==> id in m.fsm.nodes)
            && (id in m.fsm.nodes ==>
                  after.nodes[id] == if id in Proposed(m, now, timeout) && accepted(NodeDown(id))
                                     then m.fsm.nodes[id].(status := Down) else m.fsm.nodes[id])
  {
  }

  /** It fails what runs on the nodes it takes down, where accepted, and changes no other allocation. */
  lemma AllocAfterTick(m: Monitor, now: Time, timeout: nat, accepted: Command -> bool, id: AllocId)
    ensures var after := Ticked(m, now, timeout, accepted).fsm;
            && (id in after.allocs <==> id in m.fsm.allocs)
            && (id in m.fsm.allocs ==>
                  var a := m.fsm.allocs[id];
                  if !a.status.IsTerminal() && TakesDown(m, now, timeout, accepted, a.node)
                     && accepted(SetAllocStatus(id, Failed("node down")))
                  then after.allocs[id] == a.(status := Failed("node down")) else after.allocs[id] == a)
  {
    if id in m.fsm.allocs {
      var a := m.fsm.allocs[id];
      var down := set n | n in Proposed(m, now, timeout) && accepted(NodeDown(n));
      assert OnDowned(m.fsm, down, a) <==> !a.status.IsTerminal() && TakesDown(m, now, timeout, accepted, a.node);
    }
  }

  /** The services whose backoff a tick resets: those with something running on a node it takes down. */
  lemma ResetIff(m: Monitor, now: Time, timeout: nat, accepted: Command -> bool, name: string)
    ensures var down := set n | n in Proposed(m, now, timeout) && accepted(NodeDown(n));
            name in ServicesOn(m.fsm, down) <==>
            exists id | id in m.fsm.allocs ::
              && m.fsm.allocs[id].name == name && m.fsm.allocs[id].kind == Service
              && !m.fsm.allocs[id].status.IsTerminal()
              && TakesDown(m, now, timeout, accepted, m.fsm.allocs[id].node)
  {
    var down := set n | n in Proposed(m, now, timeout) && accepted(NodeDown(n));
    forall id | id in m.fsm.allocs
      ensures OnDowned(m.fsm, down, m.fsm.allocs[id]) <==>
              !m.fsm.allocs[id].status.IsTerminal() && TakesDown(m, now, timeout, accepted, m.fsm.allocs[id].node)
    {
    }
  }

  /** A tick leaves nothing running on the nodes it takes down, where consensus accepts its proposals. */
  lemma DownedNodesAreEmpty(m: Monitor, now: Time, timeout: nat, accepted: Command -> bool, id: RaftId)
    requires id in Proposed(m, now, timeout) && accepted(NodeDown(id))
    requires forall a | a in m.fsm.allocs :: accepted(SetAllocStatus(a, NodeIsDown()))
    ensures var after := Ticked(m, now, timeout, accepted).fsm;
            && id in after.nodes && after.nodes[id] == m.fsm.nodes[id].(status := Down)
            && !Fsm.HasActive(after.allocs, m.fsm.nodes[id].millId)
  {
  }
}
