/**
 What a drain guarantees on every run: replacements are elsewhere, and the emptied node can be
 removed. Others may commit anything that leaves the draining node alone.
 */
module DrainSafety {
  import opened Types
  import opened Cluster
  import opened Deploy
  import opened Detachments
  import opened Rolling
  import opened Drain
  import Capacity
  import Fsm

  /** The name belongs to this node only, which is draining. */
  ghost predicate Isolated(s: FsmState, node: RaftId, mill: NodeId) {
    && (node in s.nodes ==> s.nodes[node].millId == mill && s.nodes[node].status == Draining)
    && forall n | n in s.nodes && s.nodes[n].millId == mill :: n == node
  }

  /** The command does not take the draining node's id or name, or mark it down. */
  predicate LeavesAlone(c: Command, node: RaftId, mill: NodeId) {
    && !(c.NodeRegister? && (c.id == node || c.millId == mill))
    && c != NodeDown(node)
  }

  ghost predicate Undisturbed(trace: seq<Event>, lo: nat, node: RaftId, mill: NodeId) {
    forall k | lo <= k < |trace| && trace[k].Other? :: LeavesAlone(trace[k].command, node, mill)
  }

  ghost predicate OnlyDrains(trace: seq<Event>, lo: nat) {
    forall k | lo <= k < |trace| :: DrainEvent(trace[k])
  }

  lemma KeepsIsolated(s: FsmState, c: Command, node: RaftId, mill: NodeId)
    requires Isolated(s, node, mill) && LeavesAlone(c, node, mill)
    ensures Isolated(Fsm.Apply(s, c).0, node, mill)
  {
    Fsm.NodesAfter(s, c);
  }

  lemma EventKeepsIsolated(s: FsmState, e: Event, node: RaftId, mill: NodeId)
    requires Isolated(s, node, mill) && DrainEvent(e) && (e.Other? ==> LeavesAlone(e.command, node, mill))
    ensures Isolated(Effect(s, e), node, mill)
  {
    if e.Other? || (e.Proposed? && e.ok) {
      KeepsIsolated(s, e.command, node, mill);
    }
  }

  lemma {:induction false} IsolatedUntil(
    states: seq<FsmState>, trace: seq<Event>, lo: nat, node: RaftId, mill: NodeId, k: nat)
    requires IsRun(states, trace) && OnlyDrains(trace, lo) && Undisturbed(trace, lo, node, mill)
    requires lo <= k <= |trace| && Isolated(states[lo], node, mill)
    ensures Isolated(states[k], node, mill)
    decreases k
  {
    if lo < k {
      IsolatedUntil(states, trace, lo, node, mill, k - 1);
      assert Happens(states, trace, k - 1);
      EventKeepsIsolated(states[k - 1], trace[k - 1], node, mill);
    }
  }

  /** The drained node's name is its own, so that draining isolates it. */
  lemma DrainIsolates(states: seq<FsmState>, trace: seq<Event>, node: RaftId, k: nat)
    requires IsRun(states, trace) && k < |trace| && trace[k] == Proposed(NodeDrain(node), true)
    requires node in states[k].nodes && Fsm.UniqueMills(states[k])
    ensures Isolated(states[k + 1], node, states[k].nodes[node].millId)
  {
    assert Happens(states, trace, k);
  }

  /** What is chosen during a drain is ready, and so is not the draining node. */
  lemma ChoiceIsElsewhere(
    states: seq<FsmState>, trace: seq<Event>, lo: nat, node: RaftId, mill: NodeId, picked: nat, entered: nat, k: nat,
    id: RaftId)
    requires IsRun(states, trace) && OnlyDrains(trace, lo) && Undisturbed(trace, lo, node, mill)
    requires lo <= |trace| && Isolated(states[lo], node, mill) && ChosenFor(trace, lo, picked, entered, k, id)
    ensures trace[picked].node != mill && id != node
    ensures var s, n := states[picked], trace[picked].offered;
            n in s.nodes && s.nodes[n].status == Ready && s.nodes[n].millId == trace[picked].node
  {
    IsolatedUntil(states, trace, lo, node, mill, picked);
    IsolatedUntil(states, trace, lo, node, mill, entered);
    assert Happens(states, trace, picked) && Happens(states, trace, entered);
  }

  // ----- The draining node takes nothing in -----

  /** From `lo` on, the node is isolated, the drain goes on in order, and others place nothing on the node. */
  ghost predicate Secluded(states: seq<FsmState>, trace: seq<Event>, lo: nat, node: RaftId, mill: NodeId) {
    && IsRun(states, trace) && lo <= |trace| && Draws(trace, lo)
    && Undisturbed(trace, lo, node, mill) && Isolated(states[lo], node, mill)
    && forall k | lo <= k < |trace| && trace[k].Other? ::
         !(trace[k].command.AllocScheduled? && trace[k].command.nodeId == node)
  }

  ghost predicate NotOn(s: FsmState, id: AllocId, mill: NodeId) {
    id in s.allocs ==> s.allocs[id].node != mill
  }

  /** Nothing at all is placed on the draining node. */
  lemma SchedulesElsewhere(states: seq<FsmState>, trace: seq<Event>, lo: nat, node: RaftId, mill: NodeId, k: nat)
    requires Secluded(states, trace, lo, node, mill) && lo <= k < |trace|
    requires Commits(trace[k]) && trace[k].command.AllocScheduled?
    ensures trace[k].command.nodeId != node
  {
    if trace[k].Proposed? {
      assert Justified(trace, lo, k);
      var a, b :| ChosenFor(trace, lo, a, b, k, trace[k].command.nodeId);
      ChoiceIsElsewhere(states, trace, lo, node, mill, a, b, k, trace[k].command.nodeId);
    }
  }

  lemma KeepsOff(s: FsmState, e: Event, node: RaftId, mill: NodeId, id: AllocId)
    requires Isolated(s, node, mill) && (Commits(e) && e.command.AllocScheduled? ==> e.command.nodeId != node)
    requires NotOn(s, id, mill)
    ensures NotOn(Effect(s, e), id, mill)
  {
    if Commits(e) && !e.command.AllocScheduled? {
      Fsm.AllocsFrame(s, e.command);
    }
  }

  /** What is not on the draining node stays off it. */
  lemma {:induction false} StaysOff(
    states: seq<FsmState>, trace: seq<Event>, lo: nat, node: RaftId, mill: NodeId, id: AllocId, k: nat)
    requires Secluded(states, trace, lo, node, mill) && lo <= k <= |trace| && NotOn(states[lo], id, mill)
    ensures NotOn(states[k], id, mill)
    decreases k
  {
    if lo < k {
      StaysOff(states, trace, lo, node, mill, id, k - 1);
      IsolatedUntil(states, trace, lo, node, mill, k - 1);
      if Commits(trace[k - 1]) && trace[k - 1].command.AllocScheduled? {
        SchedulesElsewhere(states, trace, lo, node, mill, k - 1);
      }
      KeepsOff(states[k - 1], trace[k - 1], node, mill, id);
      assert Happens(states, trace, k - 1);
    }
  }

  // ----- Replacements -----

  ghost predicate HealthyElsewhere(s: FsmState, id: AllocId, mill: NodeId) {
    id in s.allocs && s.allocs[id].status == Healthy && s.allocs[id].node != mill
  }

  /** The command may end the allocation's being healthy. */
  predicate Unsettles(c: Command, id: AllocId) {
    || (c.SetAllocStatus? && c.allocId == id && !c.status.Healthy?)
    || (c.AllocScheduled? && c.allocId == id)
    || (c.NodeHeartbeat? && id in c.statuses && !c.statuses[id].IsActive())
  }

  lemma KeepsHealthy(s: FsmState, c: Command, id: AllocId, mill: NodeId)
    requires HealthyElsewhere(s, id, mill) && !Unsettles(c, id)
    ensures HealthyElsewhere(Fsm.Apply(s, c).0, id, mill)
  {
  }

  lemma {:induction false} StaysHealthy(
    states: seq<FsmState>, trace: seq<Event>, id: AllocId, mill: NodeId, lo: nat, hi: nat)
    requires IsRun(states, trace) && lo <= hi && Quiet(trace, lo, hi) && HealthyElsewhere(states[lo], id, mill)
    requires forall k | lo <= k < hi :: !Unsettles(trace[k].command, id)
    ensures HealthyElsewhere(states[hi], id, mill)
    decreases hi
  {
    if lo < hi {
      StaysHealthy(states, trace, id, mill, lo, hi - 1);
      assert Happens(states, trace, hi - 1);
      KeepsHealthy(states[hi - 1], trace[hi - 1].command, id, mill);
    }
  }

  /** A promotion makes the allocation healthy exactly if the allocation is still recorded. */
  lemma PromotedIff(states: seq<FsmState>, trace: seq<Event>, id: AllocId, mill: NodeId, k: nat)
    requires IsRun(states, trace) && k < |trace| && trace[k] == Proposed(SetAllocStatus(id, Healthy), true)
    requires NotOn(states[k], id, mill)
    ensures HealthyElsewhere(states[k + 1], id, mill) <==> id in states[k].allocs
  {
    assert Happens(states, trace, k);
  }

  /** The replacement was seen to run on a node that was ready, and not the drained one, when it was chosen. */
  ghost predicate RanElsewhere(
    states: seq<FsmState>, trace: seq<Event>, mill: NodeId, def: ServiceDef, id: AllocId, w: Launch)
  {
    && w.picked < w.ran < w.seen < w.bound < w.probed < w.healthy < |trace| == |states| - 1
    && trace[w.picked].Picked?
    && var node, n := trace[w.picked].node, trace[w.picked].offered;
    && node != mill && n in states[w.picked].nodes
    && states[w.picked].nodes[n].millId == node && states[w.picked].nodes[n].status == Ready
    && trace[w.ran] == Sent(node, Run(id, def), true)
    && Runs(StatusOf(states[w.seen], id))
    && AddressOf(states[w.bound], id).Some? && trace[w.probed] == Probed(AddressOf(states[w.bound], id).value, true)
    && trace[w.healthy] == Proposed(SetAllocStatus(id, Healthy), true)
  }

  lemma StartedElsewhere(
    states: seq<FsmState>, trace: seq<Event>, lo: nat, from: nat, node: RaftId, mill: NodeId, name: string,
    def: ServiceDef, id: AllocId, w: Launch)
    requires IsRun(states, trace) && OnlyDrains(trace, lo) && Undisturbed(trace, lo, node, mill)
    requires lo <= from <= |trace| && Isolated(states[lo], node, mill) && Started(trace, from, name, def, id, w)
    ensures RanElsewhere(states, trace, mill, def, id, w)
  {
    assert ChosenFor(trace, lo, w.picked, w.entered, w.scheduled, trace[w.entered].id.value);
    ChoiceIsElsewhere(states, trace, lo, node, mill, w.picked, w.entered, w.scheduled, trace[w.entered].id.value);
    assert Happens(states, trace, w.seen) && Happens(states, trace, w.bound);
  }

  /** A drain of a node whose name is its own, which others leave alone once it is committed. */
  ghost predicate DrainedAlone(
    states: seq<FsmState>, trace: seq<Event>, lo: nat, node: RaftId, ids: AllocId -> AllocId, c: DrainCourse)
  {
    && IsRun(states, trace) && IsDrain(trace, lo, node, ids, c)
    && node in states[c.begun].nodes && Fsm.UniqueMills(states[c.begun])
    && Undisturbed(trace, c.begun + 1, node, states[c.begun].nodes[node].millId)
  }

  lemma DrainsOnly(trace: seq<Event>, lo: nat, node: RaftId, ids: AllocId -> AllocId, c: DrainCourse)
    requires IsDrain(trace, lo, node, ids, c)
    ensures OnlyDrains(trace, c.begun + 1)
  {
    DetachmentIsOnly(trace, c.begun + 1, node, c.d);
  }

  /**
   A drain tells an allocation of a configured service to stop only after a replacement was chosen
   a node other than the drained one, ready at that time, was run there, was seen to run, answered
   on its address and was promoted.
   */
  lemma StopsFollowReplacement(
    states: seq<FsmState>, trace: seq<Event>, lo: nat, node: RaftId, ids: AllocId -> AllocId, c: DrainCourse, i: nat)
    requires DrainedAlone(states, trace, lo, node, ids, c) && i < |c.moves| && !c.moves[i].Kept?
    ensures var m, a, mill := c.moves[i], c.listed[i], states[c.begun].nodes[node].millId;
            && c.seen < m.stop < |trace| && trace[m.stop].Sent? && trace[m.stop].order == Stop(a.id)
            && (a.kind == Service ==> FollowsReplacement(states, trace, c.seen, mill, a, ids(a.id), m))
  {
    var m, a, mill := c.moves[i], c.listed[i], states[c.begun].nodes[node].millId;
    assert IsMove(trace, c.seen + 1, c.mill, a, ids(a.id), m);
    DrainsOnly(trace, lo, node, ids, c);
    DrainIsolates(states, trace, node, c.begun);
    if a.kind == Service {
      MoveFollows(states, trace, c.begun + 1, c.seen, node, mill, c.mill, a, ids(a.id), m);
    }
  }

  lemma DefinitionIsRead(states: seq<FsmState>, trace: seq<Event>, k: nat)
    requires IsRun(states, trace) && k < |trace| && trace[k].Defined?
    ensures var services := ServicesOf(states[k].config);
            trace[k].def == if trace[k].name in services then Some(services[trace[k].name]) else None
  {
    assert Happens(states, trace, k);
  }

  lemma MoveFollows(
    states: seq<FsmState>, trace: seq<Event>, lo: nat, seen: nat, node: RaftId, mill: NodeId, target: NodeId, a: Active,
    newId: AllocId, m: Move)
    requires IsRun(states, trace) && OnlyDrains(trace, lo) && Undisturbed(trace, lo, node, mill)
    requires lo <= seen + 1 && lo <= |trace| && Isolated(states[lo], node, mill)
    requires !m.Kept? && IsMove(trace, seen + 1, target, a, newId, m) && a.kind == Service
    ensures FollowsReplacement(states, trace, seen, mill, a, newId, m)
  {
    DefinitionIsRead(states, trace, m.read);
    if m.Replaced? {
      MoveRanElsewhere(states, trace, lo, seen + 1, node, mill, target, a, newId, m);
    }
  }

  /** The service was looked up, and if it was configured, its replacement ran elsewhere before the stop. */
  ghost predicate FollowsReplacement(
    states: seq<FsmState>, trace: seq<Event>, seen: nat, mill: NodeId, a: Active, newId: AllocId, m: Move)
  {
    && !m.Kept? && !m.Ended? && |trace| == |states| - 1
    && seen < m.read < m.stop < |trace| && trace[m.read].Defined? && trace[m.read].name == a.name
    && var services := ServicesOf(states[m.read].config);
    a.name in services ==>
      m.Replaced? && m.launch.healthy < m.stop && RanElsewhere(states, trace, mill, services[a.name], newId, m.launch)
  }

  lemma MoveRanElsewhere(
    states: seq<FsmState>, trace: seq<Event>, lo: nat, from: nat, node: RaftId, mill: NodeId, target: NodeId, a: Active,
    newId: AllocId, m: Move)
    requires IsRun(states, trace) && OnlyDrains(trace, lo) && Undisturbed(trace, lo, node, mill)
    requires lo <= from && lo <= |trace| && Isolated(states[lo], node, mill)
    requires m.Replaced? && IsMove(trace, from, target, a, newId, m)
    ensures RanElsewhere(states, trace, mill, trace[m.read].def.value, newId, m.launch)
  {
    StartedElsewhere(states, trace, lo, m.read + 1, node, mill, a.name, trace[m.read].def.value, newId, m.launch);
  }

  lemma DrainSecludes(
    states: seq<FsmState>, trace: seq<Event>, lo: nat, node: RaftId, ids: AllocId -> AllocId, c: DrainCourse)
    requires DrainedAlone(states, trace, lo, node, ids, c)
    requires forall k | c.seen < k < |trace| && trace[k].Other? ::
               !(trace[k].command.AllocScheduled? && trace[k].command.nodeId == node)
    ensures Secluded(states, trace, c.seen + 1, node, states[c.begun].nodes[node].millId)
  {
    DrainsOnly(trace, lo, node, ids, c);
    DrainIsolates(states, trace, node, c.begun);
    IsolatedUntil(states, trace, c.begun + 1, node, states[c.begun].nodes[node].millId, c.seen + 1);
  }

  /**
   When the old allocation is told to stop, its replacement, unless somebody ended it since its
   promotion, is healthy on another node exactly if it was still recorded when it was promoted.
   */
  lemma ReplacementIsHealthyIff(
    states: seq<FsmState>, trace: seq<Event>, lo: nat, node: RaftId, ids: AllocId -> AllocId, c: DrainCourse, i: nat)
    requires DrainedAlone(states, trace, lo, node, ids, c) && i < |c.moves| && c.moves[i].Replaced?
    requires forall k | c.seen < k < |trace| && trace[k].Other? ::
               !(trace[k].command.AllocScheduled? && trace[k].command.nodeId == node)
    requires NotOn(states[c.seen], ids(c.listed[i].id), states[c.begun].nodes[node].millId)
    ensures var m := c.moves[i];
            HealthyIff(states, trace, ids(c.listed[i].id), states[c.begun].nodes[node].millId, m.launch.healthy, m.stop)
  {
    var mill := states[c.begun].nodes[node].millId;
    DrainSecludes(states, trace, lo, node, ids, c);
    ReadChangesNothing(states, trace, c.seen);
    ListedHealthyIff(states, trace, c.seen + 1, node, mill, ids, c, i);
  }

  lemma ListedHealthyIff(
    states: seq<FsmState>, trace: seq<Event>, lo: nat, node: RaftId, mill: NodeId, ids: AllocId -> AllocId,
    c: DrainCourse, i: nat)
    requires Secluded(states, trace, lo, node, mill) && AllMoved(trace, lo, c.mill, c.listed, ids, c.moves)
    requires i < |c.moves| && c.moves[i].Replaced? && NotOn(states[lo], ids(c.listed[i].id), mill)
    ensures HealthyIff(states, trace, ids(c.listed[i].id), mill, c.moves[i].launch.healthy, c.moves[i].stop)
  {
    MoveHealthyIff(states, trace, lo, node, mill, c.mill, c.listed[i], ids(c.listed[i].id), c.moves[i]);
  }

  lemma ReadChangesNothing(states: seq<FsmState>, trace: seq<Event>, k: nat)
    requires IsRun(states, trace) && k < |trace| && IsRead(trace[k])
    ensures states[k + 1] == states[k]
  {
    assert Happens(states, trace, k);
  }

  ghost predicate HealthyIff(
    states: seq<FsmState>, trace: seq<Event>, id: AllocId, mill: NodeId, promotion: nat, stop: nat)
  {
    && promotion < stop < |trace| == |states| - 1
    && (HealthyElsewhere(states[promotion + 1], id, mill) <==> id in states[promotion].allocs)
    && (Settled(trace, promotion + 1, stop, id) ==>
          (HealthyElsewhere(states[stop], id, mill) <==> id in states[promotion].allocs))
  }

  lemma MoveHealthyIff(
    states: seq<FsmState>, trace: seq<Event>, lo: nat, node: RaftId, mill: NodeId, target: NodeId, a: Active,
    newId: AllocId, m: Move)
    requires Secluded(states, trace, lo, node, mill) && NotOn(states[lo], newId, mill)
    requires m.Replaced? && IsMove(trace, lo, target, a, newId, m)
    ensures HealthyIff(states, trace, newId, mill, m.launch.healthy, m.stop)
  {
    StaysOff(states, trace, lo, node, mill, newId, m.launch.healthy);
    HealthyUntil(states, trace, newId, mill, m.launch.healthy, m.stop);
  }

  lemma HealthyUntil(states: seq<FsmState>, trace: seq<Event>, id: AllocId, mill: NodeId, promotion: nat, stop: nat)
    requires IsRun(states, trace) && promotion < stop < |trace| && Quiet(trace, promotion + 1, stop)
    requires trace[promotion] == Proposed(SetAllocStatus(id, Healthy), true) && NotOn(states[promotion], id, mill)
    ensures HealthyIff(states, trace, id, mill, promotion, stop)
  {
    PromotedIff(states, trace, id, mill, promotion);
    if Settled(trace, promotion + 1, stop, id) {
      if id in states[promotion].allocs {
        StaysHealthy(states, trace, id, mill, promotion + 1, stop);
      } else {
        assert Happens(states, trace, promotion);
        StaysUnrecorded(states, trace, id, promotion + 1, stop);
      }
    }
  }

  /** Others do not end the allocation, or record it anew, between two positions. */
  ghost predicate Settled(trace: seq<Event>, lo: nat, hi: nat, id: AllocId) {
    hi <= |trace| && forall k | lo <= k < hi && trace[k].Other? :: !Unsettles(trace[k].command, id)
  }

  lemma {:induction false} StaysUnrecorded(states: seq<FsmState>, trace: seq<Event>, id: AllocId, lo: nat, hi: nat)
    requires IsRun(states, trace) && lo <= hi && Quiet(trace, lo, hi) && Settled(trace, lo, hi, id)
    requires id !in states[lo].allocs
    ensures id !in states[hi].allocs
    decreases hi
  {
    if lo < hi {
      StaysUnrecorded(states, trace, id, lo, hi - 1);
      assert Happens(states, trace, hi - 1);
      if !trace[hi - 1].command.AllocScheduled? {
        Fsm.AllocsFrame(states[hi - 1], trace[hi - 1].command);
      }
    }
  }

  // ----- Removal -----

  /** The circumstances of a drain that has read what runs: others revive nothing, and new ids are new to the node. */
  ghost predicate Calm(states: seq<FsmState>, trace: seq<Event>, lo: nat, node: RaftId, mill: NodeId) {
    && Secluded(states, trace, lo, node, mill)
    && NoneRevived(states, trace, lo)
    && FreshIds(states, trace, lo, mill)
  }

  ghost predicate NoneRevived(states: seq<FsmState>, trace: seq<Event>, lo: nat) {
    && |trace| == |states| - 1
    && forall k {:trigger states[k]} | lo <= k < |trace| && trace[k].Other? :: Capacity.NoRevival(states[k], trace[k].command)
  }

  /** The ids of the replacements are new to the draining node. */
  ghost predicate FreshIds(states: seq<FsmState>, trace: seq<Event>, lo: nat, mill: NodeId) {
    && lo < |states|
    && forall k | lo <= k < |trace| && trace[k].Proposed? && trace[k].command.AllocScheduled? ::
         NotOn(states[lo], trace[k].command.allocId, mill)
  }

  lemma NothingAppears(s: FsmState, c: Command, node: RaftId, mill: NodeId, a: AllocId)
    requires Isolated(s, node, mill) && (c.AllocScheduled? ==> c.nodeId != node)
    requires Capacity.NoRevival(s, c) || (c.SetAllocStatus? && NotOn(s, c.allocId, mill))
    requires RunsOn(Fsm.Apply(s, c).0, a, mill)
    ensures RunsOn(s, a, mill)
  {
    if !c.AllocScheduled? {
      Fsm.AllocsFrame(s, c);
      if Capacity.NoRevival(s, c) && s.allocs[a].status.IsTerminal() {
        Capacity.StaysTerminal(s, c, a);
      }
    }
  }

  lemma OwnRevivesNothing(states: seq<FsmState>, trace: seq<Event>, lo: nat, node: RaftId, mill: NodeId, k: nat)
    requires Calm(states, trace, lo, node, mill) && lo <= k < |trace| && trace[k].Proposed?
    ensures Capacity.NoRevival(states[k], trace[k].command)
            || (trace[k].command.SetAllocStatus? && NotOn(states[k], trace[k].command.allocId, mill))
  {
    assert DrainEvent(trace[k]) && Justified(trace, lo, k);
    var c := trace[k].command;
    if c.SetAllocStatus? && c.status.Healthy? {
      var b :| lo <= b < k && Schedules(trace[b], c.allocId);
      StaysOff(states, trace, lo, node, mill, c.allocId, k);
    }
  }

  /** An event of a drain lets nothing new run on the node. */
  lemma EventAddsNothing(states: seq<FsmState>, trace: seq<Event>, lo: nat, node: RaftId, mill: NodeId, k: nat, a: AllocId)
    requires Calm(states, trace, lo, node, mill) && lo <= k < |trace|
    requires RunsOn(states[k + 1], a, mill)
    ensures RunsOn(states[k], a, mill)
  {
    var e := trace[k];
    assert Happens(states, trace, k);
    if Commits(e) {
      IsolatedUntil(states, trace, lo, node, mill, k);
      if e.command.AllocScheduled? {
        SchedulesElsewhere(states, trace, lo, node, mill, k);
      }
      if e.Proposed? {
        OwnRevivesNothing(states, trace, lo, node, mill, k);
      }
      NothingAppears(states[k], e.command, node, mill, a);
    }
  }

  /** The event reports the end of the allocation. */
  predicate Reports(e: Event, a: AllocId) {
    e.Other? && e.command.SetAllocStatus? && e.command.allocId == a && e.command.status.IsTerminal()
  }

  ghost predicate Reported(trace: seq<Event>, lo: nat, hi: nat, a: AllocId) {
    exists k | lo <= k < hi <= |trace| :: Reports(trace[k], a)
  }

  /** What runs on the node ran there before and was not reported to have ended. */
  lemma {:induction false} OnlyUnreportedRun(
    states: seq<FsmState>, trace: seq<Event>, lo: nat, node: RaftId, mill: NodeId, k: nat, a: AllocId)
    requires Calm(states, trace, lo, node, mill) && lo <= k <= |trace| && RunsOn(states[k], a, mill)
    ensures RunsOn(states[lo], a, mill) && !Reported(trace, lo, k, a)
    decreases k
  {
    if lo < k {
      EventAddsNothing(states, trace, lo, node, mill, k - 1, a);
      OnlyUnreportedRun(states, trace, lo, node, mill, k - 1, a);
      assert Happens(states, trace, k - 1);
    }
  }

  lemma {:induction false} StaysRegistered(
    states: seq<FsmState>, trace: seq<Event>, lo: nat, node: RaftId, mill: NodeId, k: nat)
    requires Secluded(states, trace, lo, node, mill) && lo <= k <= |trace| && node in states[k].nodes
    ensures node in states[lo].nodes
    decreases k
  {
    if lo < k {
      assert Happens(states, trace, k - 1);
      NotRegistered(states[k - 1], trace[k - 1], node, mill);
      StaysRegistered(states, trace, lo, node, mill, k - 1);
    }
  }

  lemma NotRegistered(s: FsmState, e: Event, node: RaftId, mill: NodeId)
    requires DrainEvent(e) && (e.Other? ==> LeavesAlone(e.command, node, mill)) && node in Effect(s, e).nodes
    ensures node in s.nodes
  {
    if Commits(e) && !e.command.NodeRegister? {
      Fsm.NodesFrame(s, e.command);
    }
  }

  /** Every order to stop that the drain sent is followed by the report that the allocation stopped. */
  ghost predicate StopsAnswered(trace: seq<Event>, lo: nat, hi: nat) {
    && hi <= |trace|
    && forall k {:trigger IsStop(trace[k])} | lo <= k < hi && IsStop(trace[k]) ::
         Reported(trace, k, |trace|, trace[k].order.allocId)
  }

  /** A listed allocation whose move was completed is reported. */
  lemma MovedIsReported(
    trace: seq<Event>, done: seq<Event>, lo: nat, mill: NodeId, a: Active, newId: AllocId, m: Move)
    requires done <= trace && StopsAnswered(trace, lo, |done|) && !m.Kept? && IsMove(done, lo, mill, a, newId, m)
    ensures Reported(trace, lo, |trace|, a.id)
  {
    assert trace[m.stop] == done[m.stop] && IsStop(trace[m.stop]);
    var k :| m.stop <= k < |trace| && Reports(trace[k], a.id);
  }

  /** Once everything that ran on the node is reported, nothing runs there. */
  lemma NothingRuns(
    states: seq<FsmState>, trace: seq<Event>, lo: nat, node: RaftId, mill: NodeId, target: NodeId, listed: seq<Active>)
    requires Calm(states, trace, lo, node, mill) && node in states[|trace|].nodes
    requires ListsRunning(states[lo], node, target, listed)
    requires forall a | a in listed :: Reported(trace, lo, |trace|, a.id)
    ensures !Fsm.HasActive(states[|trace|].allocs, mill)
  {
    StaysRegistered(states, trace, lo, node, mill, |trace|);
    var end := |trace|;
    forall a | a in states[end].allocs ensures !RunsOn(states[end], a, mill) {
      if RunsOn(states[end], a, mill) {
        OnlyUnreportedRun(states, trace, lo, node, mill, end, a);
      }
    }
  }

  /** The removal is accepted and takes with it every allocation that names the node. */
  ghost predicate Removes(s: FsmState, node: RaftId, mill: NodeId) {
    var (after, response) := Fsm.Apply(s, NodeRemove(node));
    && response == Accepted && node !in after.nodes
    && forall a | a in after.allocs :: after.allocs[a].node != mill
  }

  lemma EmptyNodeIsRemoved(s: FsmState, node: RaftId, mill: NodeId)
    requires Isolated(s, node, mill) && node in s.nodes && !Fsm.HasActive(s.allocs, mill)
    ensures Removes(s, node, mill)
  {
  }

  /** A drain is done after `done`, every allocation it listed was told to stop, and every such order was answered. */
  ghost predicate AllEnded(
    states: seq<FsmState>, trace: seq<Event>, done: seq<Event>, lo: nat, node: RaftId, ids: AllocId -> AllocId,
    c: DrainCourse)
  {
    && done <= trace && Quiet(trace, |done|, |trace|) && IsDrain(done, lo, node, ids, c)
    && (forall i | 0 <= i < |c.moves| :: !c.moves[i].Kept?)
    && StopsAnswered(trace, c.seen + 1, |done|)
    && IsRun(states, trace) && node in states[c.begun].nodes && node in states[|trace|].nodes
  }

  /**
   The node's name is its own, and others leave the node alone; once the running allocations have
   been read, they place nothing on it and revive nothing.
   */
  ghost predicate LeftAlone(states: seq<FsmState>, trace: seq<Event>, node: RaftId, mill: NodeId, c: DrainCourse) {
    && c.begun <= c.seen < |trace| == |states| - 1
    && Fsm.UniqueMills(states[c.begun]) && Undisturbed(trace, c.begun + 1, node, mill)
    && (forall k | c.seen < k < |trace| && trace[k].Other? ::
          !(trace[k].command.AllocScheduled? && trace[k].command.nodeId == node))
    && NoneRevived(states, trace, c.seen + 1) && FreshIds(states, trace, c.seen + 1, mill)
  }

  ghost predicate CompletedDrain(
    states: seq<FsmState>, trace: seq<Event>, done: seq<Event>, lo: nat, node: RaftId, ids: AllocId -> AllocId,
    c: DrainCourse)
  {
    && AllEnded(states, trace, done, lo, node, ids, c)
    && LeftAlone(states, trace, node, states[c.begun].nodes[node].millId, c)
  }

  lemma CompletedIsCalm(
    states: seq<FsmState>, trace: seq<Event>, done: seq<Event>, lo: nat, node: RaftId, ids: AllocId -> AllocId,
    c: DrainCourse)
    requires CompletedDrain(states, trace, done, lo, node, ids, c)
    ensures Calm(states, trace, c.seen + 1, node, states[c.begun].nodes[node].millId)
  {
    StillDraws(trace, done, lo, node, ids, c);
    LeftAloneIsCalm(states, trace, node, c);
  }

  lemma LeftAloneIsCalm(states: seq<FsmState>, trace: seq<Event>, node: RaftId, c: DrainCourse)
    requires IsRun(states, trace) && c.begun <= c.seen < |trace| && node in states[c.begun].nodes
    requires LeftAlone(states, trace, node, states[c.begun].nodes[node].millId, c)
    requires Draws(trace, c.seen + 1) && OnlyDrains(trace, c.begun + 1)
    requires trace[c.begun] == Proposed(NodeDrain(node), true)
    ensures Calm(states, trace, c.seen + 1, node, states[c.begun].nodes[node].millId)
  {
    DrainIsolates(states, trace, node, c.begun);
    IsolatedUntil(states, trace, c.begun + 1, node, states[c.begun].nodes[node].millId, c.seen + 1);
  }

  /** What others do afterwards does not change what the drain did. */
  lemma StillDraws(
    trace: seq<Event>, done: seq<Event>, lo: nat, node: RaftId, ids: AllocId -> AllocId, c: DrainCourse)
    requires done <= trace && Quiet(trace, |done|, |trace|) && IsDrain(done, lo, node, ids, c)
    ensures Draws(trace, c.seen + 1) && OnlyDrains(trace, c.begun + 1)
    ensures trace[c.begun] == Proposed(NodeDrain(node), true)
  {
    assert Draws(trace, |done|);
    DrawsOn(done, trace, c.seen + 1);
    DrainsOnly(done, lo, node, ids, c);
    forall k | c.begun < k < |trace| ensures DrainEvent(trace[k]) {
      assert k < |done| ==> trace[k] == done[k];
    }
  }

  /**
   If every replacement starts, then once the reports of the stopped allocations are applied the
   node can be removed, and with it goes every allocation that names it.
   */
  lemma DrainedNodeIsRemoved(
    states: seq<FsmState>, trace: seq<Event>, done: seq<Event>, lo: nat, node: RaftId, ids: AllocId -> AllocId,
    c: DrainCourse)
    requires CompletedDrain(states, trace, done, lo, node, ids, c)
    ensures Removes(states[|trace|], node, states[c.begun].nodes[node].millId)
  {
    CompletedIsCalm(states, trace, done, lo, node, ids, c);
    AllReported(trace, done, lo, node, ids, c);
    CalmNodeIsRemoved(states, trace, node, states[c.begun].nodes[node].millId, c);
  }

  lemma RunningIsRead(
    states: seq<FsmState>, trace: seq<Event>, node: RaftId, target: NodeId, listed: seq<Active>, k: nat)
    requires IsRun(states, trace) && k < |trace| && trace[k] == RunningOn(node, target, listed)
    ensures ListsRunning(states[k + 1], node, target, listed)
  {
    assert Happens(states, trace, k);
  }

  lemma CalmNodeIsRemoved(states: seq<FsmState>, trace: seq<Event>, node: RaftId, mill: NodeId, c: DrainCourse)
    requires Calm(states, trace, c.seen + 1, node, mill) && node in states[|trace|].nodes
    requires trace[c.seen] == RunningOn(node, c.mill, c.listed)
    requires forall a | a in c.listed :: Reported(trace, c.seen + 1, |trace|, a.id)
    ensures Removes(states[|trace|], node, mill)
  {
    RunningIsRead(states, trace, node, c.mill, c.listed, c.seen);
    NothingRuns(states, trace, c.seen + 1, node, mill, c.mill, c.listed);
    IsolatedUntil(states, trace, c.seen + 1, node, mill, |trace|);
    EmptyNodeIsRemoved(states[|trace|], node, mill);
  }

  lemma AllReported(
    trace: seq<Event>, done: seq<Event>, lo: nat, node: RaftId, ids: AllocId -> AllocId, c: DrainCourse)
    requires done <= trace && IsDrain(done, lo, node, ids, c) && StopsAnswered(trace, c.seen + 1, |done|)
    requires forall i | 0 <= i < |c.moves| :: !c.moves[i].Kept?
    ensures forall a | a in c.listed :: Reported(trace, c.seen + 1, |trace|, a.id)
  {
    forall a | a in c.listed ensures Reported(trace, c.seen + 1, |trace|, a.id) {
      var i :| 0 <= i < |c.listed| && c.listed[i] == a;
      MovedIsReported(trace, done, c.seen + 1, c.mill, a, ids(a.id), c.moves[i]);
    }
  }
}
