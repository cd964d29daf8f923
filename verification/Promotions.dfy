/**
 Whether an allocation that is promoted runs. A start promotes what it has seen to run or to have
 stopped, and the old allocations are stopped in its favour; here is exactly when it ran.
 */
module Promotions {
  import opened Types
  import opened Cluster
  import opened Deploy
  import opened Rolling
  import opened RunDeploy
  import opened Drain
  import opened DrainSafety
  import Fsm

  predicate IsUp(s: FsmState, id: AllocId) {
    id in s.allocs && s.allocs[id].status.IsActive()
  }

  // ----- Running all along -----

  /** The command ends the allocation, or records it anew; removing nodes does not, since one on which it runs stays. */
  predicate FelledBy(s: FsmState, c: Command, id: AllocId) {
    match c
    case SetAllocStatus(a, status) => a == id && !status.IsActive()
    case NodeHeartbeat(n, statuses) => n in s.nodes && id in statuses && !statuses[id].IsActive()
    case AllocScheduled(a, n, _, _, _, _) => a == id && n in s.nodes
    case _ => false
  }

  predicate Fells(s: FsmState, e: Event, id: AllocId) {
    Commits(e) && FelledBy(s, e.command, id)
  }

  lemma StepUpIff(s: FsmState, e: Event, id: AllocId)
    requires IsUp(s, id)
    ensures IsUp(Effect(s, e), id) <==> !Fells(s, e, id)
  {
    if Commits(e) {
      CommandUpIff(s, e.command, id);
    }
  }

  lemma CommandUpIff(s: FsmState, c: Command, id: AllocId)
    requires IsUp(s, id)
    ensures IsUp(Fsm.Apply(s, c).0, id) <==> !FelledBy(s, c, id)
  {
    match c
    case NodeRemove(n) =>
      assert n in s.nodes && s.nodes[n].millId == s.allocs[id].node ==> Fsm.HasActive(s.allocs, s.nodes[n].millId);
    case _ =>
  }

  ghost predicate UpThrough(states: seq<FsmState>, id: AllocId, lo: nat, hi: nat)
    requires hi < |states|
  {
    forall k | lo <= k <= hi :: IsUp(states[k], id)
  }

  ghost predicate NoneFells(states: seq<FsmState>, trace: seq<Event>, id: AllocId, lo: nat, hi: nat)
    requires hi <= |trace| <= |states|
  {
    forall k | lo <= k < hi :: !Fells(states[k], trace[k], id)
  }

  lemma OneMoreEvent(states: seq<FsmState>, trace: seq<Event>, id: AllocId, lo: nat, hi: nat)
    requires lo < hi <= |trace| < |states|
    ensures UpThrough(states, id, lo, hi) <==> UpThrough(states, id, lo, hi - 1) && IsUp(states[hi], id)
    ensures NoneFells(states, trace, id, lo, hi) <==>
              NoneFells(states, trace, id, lo, hi - 1) && !Fells(states[hi - 1], trace[hi - 1], id)
  {
  }

  lemma {:induction false} UpThroughIff(states: seq<FsmState>, trace: seq<Event>, id: AllocId, lo: nat, hi: nat)
    requires IsRun(states, trace) && lo <= hi <= |trace|
    ensures UpThrough(states, id, lo, hi) <==> IsUp(states[lo], id) && NoneFells(states, trace, id, lo, hi)
    decreases hi
  {
    if lo < hi {
      UpThroughIff(states, trace, id, lo, hi - 1);
      OneMoreEvent(states, trace, id, lo, hi);
      if UpThrough(states, id, lo, hi - 1) {
        assert Happens(states, trace, hi - 1);
        StepUpIff(states[hi - 1], trace[hi - 1], id);
      }
    }
  }

  // ----- Running at the end -----

  /** The command may change whether the allocation, which runs or has ended, runs. */
  predicate Turns(c: Command, id: AllocId, up: bool) {
    match c
    case SetAllocStatus(a, status) => a == id && !Agrees(status, up)
    case NodeHeartbeat(_, statuses) => id in statuses && !Agrees(statuses[id], up)
    case AllocScheduled(a, _, _, _, _, _) => a == id
    case _ => false
  }

  predicate Agrees(status: AllocStatus, up: bool) {
    if up then status.IsActive() else status.IsTerminal()
  }

  /** It runs; or else it has ended, or even its record is gone. */
  predicate Stands(s: FsmState, id: AllocId, up: bool) {
    (up ==> id in s.allocs) && (id in s.allocs ==> Agrees(s.allocs[id].status, up))
  }

  lemma StepStands(s: FsmState, e: Event, id: AllocId, up: bool)
    requires Stands(s, id, up) && (Commits(e) ==> !Turns(e.command, id, up))
    ensures Stands(Effect(s, e), id, up)
  {
    if Commits(e) {
      CommandStands(s, e.command, id, up);
    }
  }

  lemma CommandStands(s: FsmState, c: Command, id: AllocId, up: bool)
    requires Stands(s, id, up) && !Turns(c, id, up)
    ensures Stands(Fsm.Apply(s, c).0, id, up)
  {
  }

  ghost predicate NoneTurns(trace: seq<Event>, id: AllocId, up: bool, lo: nat, hi: nat) {
    hi <= |trace| && forall k | lo <= k < hi && Commits(trace[k]) :: !Turns(trace[k].command, id, up)
  }

  lemma {:induction false} StandsUntil(
    states: seq<FsmState>, trace: seq<Event>, id: AllocId, up: bool, lo: nat, hi: nat)
    requires IsRun(states, trace) && lo <= hi && NoneTurns(trace, id, up, lo, hi) && Stands(states[lo], id, up)
    ensures Stands(states[hi], id, up)
    decreases hi
  {
    if lo < hi {
      StandsUntil(states, trace, id, up, lo, hi - 1);
      assert Happens(states, trace, hi - 1);
      StepStands(states[hi - 1], trace[hi - 1], id, up);
    }
  }

  // ----- Launches -----

  /**
   The allocation ran from when it was seen to its promotion exactly if it was seen active, not
   stopped, and nothing committed in between ended it. And unless something committed in between
   turned it, it ran when it was promoted exactly if it was seen active.
   */
  ghost predicate RanIff(states: seq<FsmState>, trace: seq<Event>, id: AllocId, w: Launch) {
    && w.seen < w.healthy < |trace| < |states| && trace[w.seen].Saw? && trace[w.seen].status.Some?
    && var up := trace[w.seen].status.value.IsActive();
    && (UpThrough(states, id, w.seen, w.healthy) <==> up && NoneFells(states, trace, id, w.seen, w.healthy))
    && (NoneTurns(trace, id, up, w.seen, w.healthy) ==> (IsUp(states[w.healthy], id) <==> up))
  }

  /** Of every start that succeeds, whatever others do meanwhile. */
  lemma PromotedRanIff(
    states: seq<FsmState>, trace: seq<Event>, lo: nat, name: string, def: ServiceDef, id: AllocId, w: Launch)
    requires IsRun(states, trace) && Started(trace, lo, name, def, id, w)
    ensures RanIff(states, trace, id, w)
  {
    var up := trace[w.seen].status.value.IsActive();
    assert Happens(states, trace, w.seen);
    UpThroughIff(states, trace, id, w.seen, w.healthy);
    if NoneTurns(trace, id, up, w.seen, w.healthy) {
      StandsUntil(states, trace, id, up, w.seen, w.healthy);
    }
  }

  /** Of every replacement of a drain. */
  lemma ReplacementRanIff(
    states: seq<FsmState>, trace: seq<Event>, lo: nat, node: RaftId, ids: AllocId -> AllocId, c: DrainCourse, i: nat)
    requires IsRun(states, trace) && IsDrain(trace, lo, node, ids, c) && i < |c.moves| && c.moves[i].Replaced?
    ensures RanIff(states, trace, ids(c.listed[i].id), c.moves[i].launch)
  {
    var m, a := c.moves[i], c.listed[i];
    assert IsMove(trace, c.seen + 1, c.mill, a, ids(a.id), m);
    PromotedRanIff(states, trace, m.read + 1, a.name, trace[m.read].def.value, ids(a.id), m.launch);
  }

  /**
   The old allocation is stopped in favour of one that has run ever since it was seen and is now
   healthy elsewhere, exactly if it was seen active and nothing committed until its promotion ended it.
   */
  lemma ReplacementTakesOverIff(
    states: seq<FsmState>, trace: seq<Event>, lo: nat, node: RaftId, ids: AllocId -> AllocId, c: DrainCourse, i: nat)
    requires DrainedAlone(states, trace, lo, node, ids, c) && i < |c.moves| && c.moves[i].Replaced?
    requires forall k | c.seen < k < |trace| && trace[k].Other? ::
               !(trace[k].command.AllocScheduled? && trace[k].command.nodeId == node)
    requires NotOn(states[c.seen], ids(c.listed[i].id), states[c.begun].nodes[node].millId)
    requires Settled(trace, c.moves[i].launch.healthy + 1, c.moves[i].stop, ids(c.listed[i].id))
    ensures TakesOverIff(states, trace, ids(c.listed[i].id), states[c.begun].nodes[node].millId, c.moves[i])
  {
    ReplacementIsHealthyIff(states, trace, lo, node, ids, c, i);
    ReplacementRanIff(states, trace, lo, node, ids, c, i);
    var w := c.moves[i].launch;
    assert UpThrough(states, ids(c.listed[i].id), w.seen, w.healthy) ==> IsUp(states[w.healthy], ids(c.listed[i].id));
  }

  ghost predicate TakesOverIff(states: seq<FsmState>, trace: seq<Event>, id: AllocId, mill: NodeId, m: Move) {
    && m.Replaced? && m.launch.seen < m.launch.healthy < m.stop < |trace| < |states|
    && trace[m.launch.seen].Saw? && trace[m.launch.seen].status.Some?
    && var w := m.launch;
    (UpThrough(states, id, w.seen, w.healthy) && HealthyElsewhere(states[m.stop], id, mill)) <==>
      (trace[w.seen].status.value.IsActive() && NoneFells(states, trace, id, w.seen, w.healthy))
  }

  /** Of every replica that an update starts before it stops the old allocations. */
  lemma UpdatedRanIff(
    states: seq<FsmState>, trace: seq<Event>, lo: nat, name: string, def: ServiceDef, ids: seq<AllocId>,
    r: UpdateResult, o: Course, i: nat)
    requires IsRun(states, trace) && AllOrNothing(trace, lo, name, def, ids, r, o)
    requires !r.NoNode? && !r.VolumeError? && i < |o.up|
    ensures i < |ids| && RanIff(states, trace, ids[i], o.up[i].launch)
  {
    assert ReplicaUp(trace, o.seen + 1, name, def, ids[i], o.up[i]);
    PromotedRanIff(states, trace, o.seen + 1, name, def, ids[i], o.up[i].launch);
  }

  /** Of every replica of a new service. */
  lemma DeployedRanIff(
    states: seq<FsmState>, trace: seq<Event>, lo: nat, name: string, def: ServiceDef, ids: seq<AllocId>,
    r: UpdateResult, o: Course, i: nat)
    requires IsRun(states, trace) && DeployedAs(trace, lo, name, def, ids, r, o)
    requires !r.NoNode? && !r.VolumeError? && i < |o.up|
    ensures i < |ids| && RanIff(states, trace, ids[i], o.up[i].launch)
  {
    PromotedRanIff(states, trace, o.mid, name, def, ids[i], o.up[i].launch);
  }
}
