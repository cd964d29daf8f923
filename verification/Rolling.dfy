/** Rolling updates: start all new replicas, then stop the old ones, or else the new ones again. */
module Rolling {
  import opened Types
  import opened Cluster
  import opened Deploy
  import opened Volumes

  // ----- Stops -----

  predicate IsStop(e: Event) {
    e.Sent? && e.order.Stop?
  }

  predicate IsDeploy(e: Event) {
    e.Proposed? && e.ok && e.command.Deploy?
  }

  /** The operation stops nothing, and proposes nothing but to record allocations and their statuses. */
  predicate IsHarmless(e: Event) {
    !IsStop(e) && (e.Proposed? ==> e.command.AllocScheduled? || e.command.SetAllocStatus?)
  }

  ghost predicate Harmless(trace: seq<Event>, lo: nat, hi: nat) {
    hi <= |trace| && forall k | lo <= k < hi :: IsHarmless(trace[k])
  }

  /** What the operation records, runs or gives a status to is one of the allocations, of the service. */
  predicate IsFor(e: Event, name: string, ids: seq<AllocId>) {
    && (e.Sent? && e.order.Run? ==> e.order.allocId in ids)
    && (e.Proposed? && e.command.AllocScheduled? ==> e.command.name == name && e.command.allocId in ids)
    && (e.Proposed? && e.command.SetAllocStatus? ==> e.command.allocId in ids)
  }

  ghost predicate Concerns(trace: seq<Event>, lo: nat, hi: nat, name: string, ids: seq<AllocId>) {
    hi <= |trace| && forall k | lo <= k < hi :: IsFor(trace[k], name, ids)
  }

  lemma OrderlyConcerns(trace: seq<Event>, lo: nat, name: string, def: ServiceDef, id: AllocId, ids: seq<AllocId>)
    requires Orderly(trace, lo, name, def, id) && id in ids
    ensures Concerns(trace, lo, |trace|, name, ids)
  {
    forall k | lo <= k < |trace| ensures IsFor(trace[k], name, ids) {
      assert StartEvent(trace[k], name, def, id);
    }
  }

  lemma OrderlyIsHarmless(trace: seq<Event>, lo: nat, name: string, def: ServiceDef, id: AllocId)
    requires Orderly(trace, lo, name, def, id)
    ensures Harmless(trace, lo, |trace|)
  {
    forall k | lo <= k < |trace| ensures IsHarmless(trace[k]) {
      assert StartEvent(trace[k], name, def, id);
    }
  }

  /** The allocations told to stop between two positions, each with the node that was told. */
  ghost function Stops(trace: seq<Event>, lo: nat, hi: nat): seq<(AllocId, NodeId)>
    requires lo <= hi <= |trace|
  {
    if lo == hi then []
    else
      Stops(trace, lo, hi - 1) +
      (if IsStop(trace[hi - 1]) then [(trace[hi - 1].order.allocId, trace[hi - 1].node)] else [])
  }

  lemma {:induction false} StopsStay(trace: seq<Event>, more: seq<Event>, lo: nat, hi: nat)
    requires lo <= hi <= |trace| && trace <= more
    ensures Stops(trace, lo, hi) == Stops(more, lo, hi)
    decreases hi
  {
    if lo < hi {
      StopsStay(trace, more, lo, hi - 1);
    }
  }

  lemma {:induction false} NoStops(trace: seq<Event>, lo: nat, mid: nat, hi: nat)
    requires lo <= mid <= hi <= |trace| && forall k | mid <= k < hi :: !IsStop(trace[k])
    ensures Stops(trace, lo, hi) == Stops(trace, lo, mid)
    decreases hi
  {
    if mid < hi {
      NoStops(trace, lo, mid, hi - 1);
    }
  }

  lemma OneStop(trace: seq<Event>, more: seq<Event>, lo: nat)
    requires lo <= |trace| && trace < more && Quiet(more, |trace|, |more| - 1) && IsStop(more[|more| - 1])
    ensures Stops(more, lo, |more|)
            == Stops(trace, lo, |trace|) + [(more[|more| - 1].order.allocId, more[|more| - 1].node)]
  {
    SameStops(trace, more, lo, |more| - 1);
    LastStop(more, lo, |more|);
  }

  lemma LastStop(trace: seq<Event>, lo: nat, hi: nat)
    requires lo < hi <= |trace| && IsStop(trace[hi - 1])
    ensures Stops(trace, lo, hi) == Stops(trace, lo, hi - 1) + [(trace[hi - 1].order.allocId, trace[hi - 1].node)]
  {
  }

  lemma SameStops(trace: seq<Event>, more: seq<Event>, lo: nat, hi: nat)
    requires lo <= |trace| <= hi <= |more| && trace <= more && Quiet(more, |trace|, hi)
    ensures Stops(more, lo, hi) == Stops(trace, lo, |trace|)
  {
    StopsStay(trace, more, lo, |trace|);
    NoStops(more, lo, |trace|, hi);
  }

  lemma {:induction false} StopIsListed(trace: seq<Event>, lo: nat, hi: nat, k: nat)
    requires lo <= k < hi <= |trace| && IsStop(trace[k])
    ensures (trace[k].order.allocId, trace[k].node) in Stops(trace, lo, hi)
    decreases hi
  {
    if k < hi - 1 {
      StopIsListed(trace, lo, hi - 1, k);
    }
  }

  /** From `lo` on the operation only sends orders to stop. */
  ghost predicate OnlyStops(trace: seq<Event>, lo: nat) {
    forall k | lo <= k < |trace| :: trace[k].Other? || IsStop(trace[k])
  }

  /** Every order to stop from `lo` on could be sent. */
  ghost predicate AllSent(trace: seq<Event>, lo: nat) {
    forall k | lo <= k < |trace| && IsStop(trace[k]) :: trace[k].ok
  }

  /** Tell each of the allocations to stop, going on after failures. */
  method StopAll(ctx: Ctx, targets: seq<(AllocId, NodeId)>) returns (ok: bool)
    requires ctx.Valid()
    modifies ctx
    ensures ctx.Valid() && old(ctx.trace) <= ctx.trace && old(ctx.states) <= ctx.states
    ensures OnlyStops(ctx.trace, |old(ctx.trace)|)
    ensures Stops(ctx.trace, |old(ctx.trace)|, |ctx.trace|) == targets
    ensures ok <==> AllSent(ctx.trace, |old(ctx.trace)|)
  {
    ok := true;
    for i := 0 to |targets|
      invariant ctx.Valid() && old(ctx.trace) <= ctx.trace && old(ctx.states) <= ctx.states
      invariant OnlyStops(ctx.trace, |old(ctx.trace)|)
      invariant Stops(ctx.trace, |old(ctx.trace)|, |ctx.trace|) == targets[..i]
      invariant ok <==> AllSent(ctx.trace, |old(ctx.trace)|)
    {
      ghost var trace := ctx.trace;
      var sent := ctx.Send(targets[i].1, Stop(targets[i].0));
      OneStop(trace, ctx.trace, |old(ctx.trace)|);
      OneMoreSent(trace, ctx.trace, |old(ctx.trace)|);
      assert targets[..i + 1] == targets[..i] + [targets[i]];
      ok := ok && sent;
    }
    assert targets[..|targets|] == targets;
  }

  lemma OneMoreSent(trace: seq<Event>, more: seq<Event>, lo: nat)
    requires lo <= |trace| && trace < more && Quiet(more, |trace|, |more| - 1) && IsStop(more[|more| - 1])
    ensures OnlyStops(trace, lo) ==> OnlyStops(more, lo)
    ensures AllSent(more, lo) <==> AllSent(trace, lo) && more[|more| - 1].ok
  {
    assert forall k | lo <= k < |trace| :: more[k] == trace[k];
  }

  // ----- Replicas -----

  /** A replica that was started, and what was found when it was looked up. */
  datatype Replica = Replica(launch: Launch, found: nat, where: Option<NodeId>)

  ghost predicate ReplicaUp(trace: seq<Event>, lo: nat, name: string, def: ServiceDef, id: AllocId, r: Replica) {
    && Started(trace, lo, name, def, id, r.launch)
    && r.launch.healthy < r.found < |trace|
    && trace[r.found] == Found(id, r.where)
  }

  ghost predicate AllUp(
    trace: seq<Event>, lo: nat, name: string, def: ServiceDef, ids: seq<AllocId>, up: seq<Replica>)
  {
    && |up| <= |ids|
    && forall i | 0 <= i < |up| :: ReplicaUp(trace, lo, name, def, ids[i], up[i])
  }

  /** A start, of which it matters only that nothing is stopped, and nothing done to other allocations. */
  method StartHarmlessly(ctx: Ctx, name: string, def: ServiceDef, id: AllocId, ghost ids: seq<AllocId>)
    returns (ok: bool, ghost w: Launch, ghost f: Failure)
    requires ctx.Valid() && id in ids
    modifies ctx
    ensures ctx.Valid() && old(ctx.trace) < ctx.trace && old(ctx.states) <= ctx.states
    ensures Harmless(ctx.trace, |old(ctx.trace)|, |ctx.trace|)
    ensures Concerns(ctx.trace, |old(ctx.trace)|, |ctx.trace|, name, ids)
    ensures ok ==> Started(ctx.trace, |old(ctx.trace)|, name, def, id, w)
    ensures !ok ==> FailedStart(ctx.trace, |old(ctx.trace)|, |ctx.trace|, name, def, id, f)
  {
    ghost var read;
    ok, w, f, read := StartAlloc(ctx, name, def, id);
    OrderlyIsHarmless(ctx.trace, |old(ctx.trace)|, name, def, id);
    OrderlyConcerns(ctx.trace, |old(ctx.trace)|, name, def, id, ids);
  }

  method StartReplica(ctx: Ctx, name: string, def: ServiceDef, id: AllocId, ghost ids: seq<AllocId>)
    returns (ok: bool, where: Option<NodeId>, ghost r: Replica, ghost f: Failure)
    requires ctx.Valid() && id in ids
    modifies ctx
    ensures ctx.Valid() && old(ctx.trace) < ctx.trace && old(ctx.states) <= ctx.states
    ensures Harmless(ctx.trace, |old(ctx.trace)|, |ctx.trace|)
    ensures Concerns(ctx.trace, |old(ctx.trace)|, |ctx.trace|, name, ids)
    ensures ok ==> r.where == where && ReplicaUp(ctx.trace, |old(ctx.trace)|, name, def, id, r)
    ensures !ok ==> FailedStart(ctx.trace, |old(ctx.trace)|, |ctx.trace|, name, def, id, f)
  {
    ghost var w;
    ok, w, f := StartHarmlessly(ctx, name, def, id, ids);
    where := None;
    r := Replica(w, |ctx.trace|, where);
    if ok {
      ghost var trace := ctx.trace;
      where := LookUpNode(ctx, id);
      r := Replica(w, |ctx.trace| - 1, where);
      FoundUp(trace, ctx.trace, |old(ctx.trace)|, name, def, id, r);
    }
  }

  method LookUpNode(ctx: Ctx, id: AllocId) returns (where: Option<NodeId>)
    requires ctx.Valid()
    modifies ctx
    ensures ctx.Valid() && old(ctx.trace) < ctx.trace && old(ctx.states) <= ctx.states
    ensures Quiet(ctx.trace, |old(ctx.trace)|, |ctx.trace| - 1) && ctx.trace[|ctx.trace| - 1] == Found(id, where)
  {
    var quiet := ctx.Await();
    where := NodeOf(ctx.fsm, id);
    ctx.Note(Found(id, where));
  }

  lemma FoundUp(
    trace: seq<Event>, more: seq<Event>, lo: nat, name: string, def: ServiceDef, id: AllocId, r: Replica)
    requires trace < more && Started(trace, lo, name, def, id, r.launch) && Harmless(trace, lo, |trace|)
    requires Quiet(more, |trace|, |more| - 1) && r.found == |more| - 1 && more[r.found] == Found(id, r.where)
    ensures ReplicaUp(more, lo, name, def, id, r) && Harmless(more, lo, |more|)
  {
    StaysStarted(trace, more, lo, lo, name, def, id, r.launch);
  }

  /** The started replicas that were found, with their nodes. */
  ghost function Present(ids: seq<AllocId>, up: seq<Replica>): seq<(AllocId, NodeId)>
    requires |up| <= |ids|
  {
    if up == [] then []
    else
      var n := |up| - 1;
      Present(ids, up[..n]) + if up[n].where.Some? then [(ids[n], up[n].where.value)] else []
  }

  /** Start the replicas one after the other, up to the first failure, whose attempt began at `last`. */
  method StartReplicas(ctx: Ctx, name: string, def: ServiceDef, ids: seq<AllocId>)
    returns (started: seq<(AllocId, NodeId)>, ok: bool, ghost up: seq<Replica>, ghost last: nat, ghost f: Failure)
    requires ctx.Valid()
    modifies ctx
    ensures ctx.Valid() && old(ctx.trace) <= ctx.trace && old(ctx.states) <= ctx.states
    ensures Harmless(ctx.trace, |old(ctx.trace)|, |ctx.trace|)
    ensures Concerns(ctx.trace, |old(ctx.trace)|, |ctx.trace|, name, ids)
    ensures AllUp(ctx.trace, |old(ctx.trace)|, name, def, ids, up)
    ensures (ok <==> |up| == |ids|) && started == Present(ids, up)
    ensures !ok ==> |old(ctx.trace)| <= last && FailedStart(ctx.trace, last, |ctx.trace|, name, def, ids[|up|], f)
  {
    started, ok, up, last, f := [], true, [], |ctx.trace|, Unrecorded;
    for i := 0 to |ids|
      invariant ok && |up| == i
      invariant ctx.Valid() && old(ctx.trace) <= ctx.trace && old(ctx.states) <= ctx.states
      invariant Harmless(ctx.trace, |old(ctx.trace)|, |ctx.trace|)
      invariant Concerns(ctx.trace, |old(ctx.trace)|, |ctx.trace|, name, ids)
      invariant AllUp(ctx.trace, |old(ctx.trace)|, name, def, ids, up)
      invariant started == Present(ids, up)
    {
      last := |ctx.trace|;
      var where;
      ok, where, up, f := StartNext(ctx, name, def, ids, i, |old(ctx.trace)|, up);
      if !ok { return; }
      if where.Some? {
        started := started + [(ids[i], where.value)];
      }
    }
  }

  method StartNext(
    ctx: Ctx, name: string, def: ServiceDef, ids: seq<AllocId>, i: nat, ghost lo: nat, ghost before: seq<Replica>)
    returns (ok: bool, where: Option<NodeId>, ghost up: seq<Replica>, ghost f: Failure)
    requires ctx.Valid() && i == |before| < |ids| && lo <= |ctx.trace|
    requires AllUp(ctx.trace, lo, name, def, ids, before)
    modifies ctx
    ensures ctx.Valid() && old(ctx.trace) <= ctx.trace && old(ctx.states) <= ctx.states
    ensures Harmless(ctx.trace, |old(ctx.trace)|, |ctx.trace|)
    ensures Concerns(ctx.trace, |old(ctx.trace)|, |ctx.trace|, name, ids)
    ensures AllUp(ctx.trace, lo, name, def, ids, up)
    ensures |up| == if ok then i + 1 else i
    ensures Present(ids, up) == Present(ids, before) + if ok && where.Some? then [(ids[i], where.value)] else []
    ensures !ok ==> FailedStart(ctx.trace, |old(ctx.trace)|, |ctx.trace|, name, def, ids[i], f)
  {
    ghost var trace := ctx.trace;
    ghost var r;
    ok, where, r, f := StartReplica(ctx, name, def, ids[i], ids);
    StayUp(trace, ctx.trace, lo, lo, name, def, ids, before);
    up := before;
    if ok {
      OneMoreUp(ctx.trace, lo, |trace|, name, def, ids, before, r);
      OneMorePresent(ids, before, r);
      up := before + [r];
    }
  }

  lemma StayUp(
    trace: seq<Event>, more: seq<Event>, lo: nat, from: nat, name: string, def: ServiceDef, ids: seq<AllocId>, up: seq<Replica>)
    requires trace <= more && from <= lo && AllUp(trace, lo, name, def, ids, up)
    ensures AllUp(more, from, name, def, ids, up)
    ensures forall i | 0 <= i < |up| :: up[i].found < |trace|
  {
    forall i | 0 <= i < |up| ensures ReplicaUp(more, from, name, def, ids[i], up[i]) && up[i].found < |trace| {
      assert ReplicaUp(trace, lo, name, def, ids[i], up[i]);
      StaysStarted(trace, more, lo, from, name, def, ids[i], up[i].launch);
    }
  }

  lemma OneMoreUp(
    trace: seq<Event>, lo: nat, from: nat, name: string, def: ServiceDef, ids: seq<AllocId>, up: seq<Replica>, r: Replica)
    requires AllUp(trace, lo, name, def, ids, up) && |up| < |ids| && lo <= from
    requires ReplicaUp(trace, from, name, def, ids[|up|], r)
    ensures AllUp(trace, lo, name, def, ids, up + [r])
  {
    StaysStarted(trace, trace, from, lo, name, def, ids[|up|], r.launch);
    assert forall i | 0 <= i < |up| :: ReplicaUp(trace, lo, name, def, ids[i], (up + [r])[i]);
  }

  lemma OneMorePresent(ids: seq<AllocId>, up: seq<Replica>, r: Replica)
    requires |up| < |ids|
    ensures Present(ids, up + [r]) == Present(ids, up) + if r.where.Some? then [(ids[|up|], r.where.value)] else []
  {
    assert (up + [r])[..|up|] == up;
  }

  // ----- The update -----

  datatype UpdateResult = NoNode | VolumeError | StartFailed | StopFailed | Updated

  /**
   The course of an update: the volumes were prepared; the old allocations were listed by event
   `seen`; the replicas `up` were started; an attempt that failed began at `last`; stopping begins at `mid`.
   */
  datatype Course = Course(
    prep: Preparation, seen: nat, last: nat, f: Failure, mid: nat, former: seq<(AllocId, NodeId)>, up: seq<Replica>)

  /**
   What replacing does: no stop before `mid`; then, if all replicas were started, a stop of each old
   allocation, and otherwise a stop of each replica that was started and found.
   */
  ghost predicate Swapped(
    trace: seq<Event>, lo: nat, name: string, def: ServiceDef, ids: seq<AllocId>, r: UpdateResult, o: Course)
  {
    && lo <= o.mid <= |trace|
    && Harmless(trace, lo, o.mid) && Concerns(trace, lo, o.mid, name, ids)
    && OnlyStops(trace, o.mid)
    && AllUp(trace, lo, name, def, ids, o.up)
    && (forall i | 0 <= i < |o.up| :: o.up[i].found < o.mid)
    && match r
       case NoNode => false
       case VolumeError => false
       case StartFailed =>
         && |o.up| < |ids|
         && lo <= o.last && FailedStart(trace, o.last, o.mid, name, def, ids[|o.up|], o.f)
         && Stops(trace, o.mid, |trace|) == Present(ids, o.up)
       case _ =>
         && |o.up| == |ids|
         && Stops(trace, o.mid, |trace|) == o.former
         && (r.Updated? <==> AllSent(trace, o.mid))
  }

  ghost predicate Replaced(
    trace: seq<Event>, name: string, def: ServiceDef, ids: seq<AllocId>, r: UpdateResult, o: Course)
  {
    && o.seen < |trace| && trace[o.seen] == Listed(name, o.former)
    && Swapped(trace, o.seen + 1, name, def, ids, r, o)
  }

  /** What an update does: it finds no ready node, or a call for a volume fails, or it replaces. */
  ghost predicate AllOrNothing(
    trace: seq<Event>, lo: nat, name: string, def: ServiceDef, ids: seq<AllocId>, r: UpdateResult, o: Course)
  {
    && lo < |trace|
    && match r
       case NoNode => Prepares(trace, lo, |trace|) && trace[|trace| - 1] == FirstReady(None)
       case VolumeError => Prepares(trace, lo, |trace|) && FailingVolume(trace[|trace| - 1])
       case _ =>
         && Prepared(trace, lo, def, o.prep) && o.prep.hi <= o.seen && Quiet(trace, o.prep.hi, o.seen)
         && Prepares(trace, lo, o.seen) && Replaced(trace, name, def, ids, r, o)
  }

  method ReadService(ctx: Ctx, name: string) returns (list: seq<(AllocId, NodeId)>)
    requires ctx.Valid()
    modifies ctx
    ensures ctx.Valid() && old(ctx.trace) < ctx.trace && old(ctx.states) <= ctx.states
    ensures Quiet(ctx.trace, |old(ctx.trace)|, |ctx.trace| - 1) && ctx.trace[|ctx.trace| - 1] == Listed(name, list)
  {
    var quiet := ctx.Await();
    list := ListServiceAllocs(ctx.fsm, name);
    ctx.Note(Listed(name, list));
  }

  /** Start all new replicas; then stop the old ones, or, if one failed, the new ones again. */
  method RollingUpdate(ctx: Ctx, name: string, def: ServiceDef, ids: seq<AllocId>, driver: Driver)
    returns (r: UpdateResult, ghost o: Course)
    requires ctx.Valid()
    modifies ctx
    ensures ctx.Valid() && old(ctx.trace) < ctx.trace && old(ctx.states) <= ctx.states
    ensures AllOrNothing(ctx.trace, |old(ctx.trace)|, name, def, ids, r, o) && o.prep.driver == driver
  {
    var error, p := Prepare(ctx, def, driver);
    o := Course(p, 0, 0, Unrecorded, 0, [], []);
    if error.Some? {
      r := if error.value.NoneReady? then NoNode else VolumeError;
    } else {
      ghost var trace := ctx.trace;
      r, o := Replace(ctx, name, def, ids, p);
      Done(trace, ctx.trace, |old(ctx.trace)|, name, def, ids, r, o);
    }
  }

  /** The part of an update that begins with listing the allocations to replace. */
  method Replace(ctx: Ctx, name: string, def: ServiceDef, ids: seq<AllocId>, ghost p: Preparation)
    returns (r: UpdateResult, ghost o: Course)
    requires ctx.Valid()
    modifies ctx
    ensures ctx.Valid() && old(ctx.trace) < ctx.trace && old(ctx.states) <= ctx.states && o.prep == p
    ensures |old(ctx.trace)| <= o.seen && Quiet(ctx.trace, |old(ctx.trace)|, o.seen)
    ensures Replaced(ctx.trace, name, def, ids, r, o)
  {
    var former := ReadService(ctx, name);
    ghost var seen := |ctx.trace| - 1;
    r, o := Swap(ctx, name, def, ids, former);
    o := o.(prep := p, seen := seen);
  }

  method Swap(ctx: Ctx, name: string, def: ServiceDef, ids: seq<AllocId>, former: seq<(AllocId, NodeId)>)
    returns (r: UpdateResult, ghost o: Course)
    requires ctx.Valid()
    modifies ctx
    ensures ctx.Valid() && old(ctx.trace) <= ctx.trace && old(ctx.states) <= ctx.states
    ensures o.former == former && Swapped(ctx.trace, |old(ctx.trace)|, name, def, ids, r, o)
  {
    var started, ok, up, last, f := StartReplicas(ctx, name, def, ids);
    ghost var trace := ctx.trace;
    o := Course(Unprepared(None), 0, last, f, |trace|, former, up);
    var stopped := StopAll(ctx, if ok then former else started);
    r := if !ok then StartFailed else if stopped then Updated else StopFailed;
    StayUp(trace, ctx.trace, |old(ctx.trace)|, |old(ctx.trace)|, name, def, ids, up);
    if !ok {
      StaysFailed(trace, ctx.trace, last, |trace|, name, def, ids[|up|], f);
    }
  }

  lemma StaysFailed(
    trace: seq<Event>, more: seq<Event>, lo: nat, hi: nat, name: string, def: ServiceDef, id: AllocId, f: Failure)
    requires trace <= more && FailedStart(trace, lo, hi, name, def, id, f)
    ensures FailedStart(more, lo, hi, name, def, id, f)
  {
    assert forall k | lo <= k < hi :: more[k] == trace[k];
  }

  lemma Done(
    trace: seq<Event>, more: seq<Event>, lo: nat, name: string, def: ServiceDef, ids: seq<AllocId>, r: UpdateResult,
    o: Course)
    requires lo < |trace| && trace <= more && Prepares(trace, lo, |trace|)
    requires Prepared(trace, lo, def, o.prep) && o.prep.hi == |trace|
    requires |trace| <= o.seen && Quiet(more, |trace|, o.seen) && Replaced(more, name, def, ids, r, o)
    ensures AllOrNothing(more, lo, name, def, ids, r, o)
  {
    StaysPrepared(trace, more, lo, def, o.prep);
    PreparesOn(trace, more, lo, o.seen);
  }

  lemma {:induction false} PresentIsUp(ids: seq<AllocId>, up: seq<Replica>, p: (AllocId, NodeId))
    requires |up| <= |ids| && p in Present(ids, up)
    ensures exists i | 0 <= i < |up| :: p.0 == ids[i] && up[i].where == Some(p.1)
    decreases |up|
  {
    var n := |up| - 1;
    if p in Present(ids, up[..n]) {
      PresentIsUp(ids, up[..n], p);
      var i :| 0 <= i < n && p.0 == ids[i] && up[..n][i].where == Some(p.1);
      assert up[i].where == Some(p.1);
    } else {
      assert p.0 == ids[n] && up[n].where == Some(p.1);
    }
  }

  /**
   The order to stop is for an allocation that was listed, and every new replica has been started,
   seen to answer and proposed healthy before; or it is for a new replica itself.
   */
  ghost predicate UpdateStop(trace: seq<Event>, name: string, def: ServiceDef, ids: seq<AllocId>, o: Course, k: nat) {
    && k < |trace| && IsStop(trace[k]) && |o.up| <= |ids|
    && var p := (trace[k].order.allocId, trace[k].node);
    if |o.up| == |ids| then
      && o.seen < k && trace[o.seen] == Listed(name, o.former) && p in o.former
      && forall i | 0 <= i < |ids| ::
           Started(trace, o.seen, name, def, ids[i], o.up[i].launch) && o.up[i].launch.healthy < k
    else
      exists i | 0 <= i < |o.up| :: ids[i] == p.0 && o.up[i].where == Some(p.1) && o.up[i].launch.healthy < k
  }

  /**
   An update tells an old allocation to stop only after every new replica is up, and a new one only
   if a later one failed to start.
   */
  lemma StopsFollowHealthy(
    trace: seq<Event>, lo: nat, name: string, def: ServiceDef, ids: seq<AllocId>, r: UpdateResult, o: Course, k: nat)
    requires AllOrNothing(trace, lo, name, def, ids, r, o)
    requires lo <= k < |trace| && IsStop(trace[k])
    ensures UpdateStop(trace, name, def, ids, o, k)
    ensures |o.up| < |ids| <==> r.StartFailed?
  {
    if r.NoNode? || r.VolumeError? {
      PreparingStopsNothing(trace, lo, |trace|, k);
    } else {
      if k < o.seen { PreparingStopsNothing(trace, lo, o.seen, k); }
      ReplaceStops(trace, name, def, ids, r, o, k);
    }
  }

  lemma PreparingStopsNothing(trace: seq<Event>, lo: nat, hi: nat, k: nat)
    requires Prepares(trace, lo, hi) && lo <= k < hi
    ensures !IsStop(trace[k])
  {
  }

  lemma ReplaceStops(
    trace: seq<Event>, name: string, def: ServiceDef, ids: seq<AllocId>, r: UpdateResult, o: Course, k: nat)
    requires Replaced(trace, name, def, ids, r, o) && o.seen <= k < |trace| && IsStop(trace[k])
    ensures UpdateStop(trace, name, def, ids, o, k)
    ensures |o.up| < |ids| <==> r.StartFailed?
  {
    assert k >= o.mid;
    StopIsListed(trace, o.mid, |trace|, k);
    UpBefore(trace, o.seen, name, def, ids, o, k);
    if |o.up| < |ids| {
      PresentIsUp(ids, o.up, (trace[k].order.allocId, trace[k].node));
    }
  }

  lemma UpBefore(
    trace: seq<Event>, lo: nat, name: string, def: ServiceDef, ids: seq<AllocId>, o: Course, k: nat)
    requires AllUp(trace, lo + 1, name, def, ids, o.up) && forall i | 0 <= i < |o.up| :: o.up[i].found < k
    ensures forall i | 0 <= i < |o.up| ::
              Started(trace, lo, name, def, ids[i], o.up[i].launch) && o.up[i].launch.healthy < k
  {
    forall i | 0 <= i < |o.up|
      ensures Started(trace, lo, name, def, ids[i], o.up[i].launch) && o.up[i].launch.healthy < k
    {
      assert ReplicaUp(trace, lo + 1, name, def, ids[i], o.up[i]);
      StaysStarted(trace, trace, lo + 1, lo, name, def, ids[i], o.up[i].launch);
    }
  }

  /** If every started replica is still there when looked up, a failed update stops exactly those. */
  lemma {:induction false} StoppedAgain(ids: seq<AllocId>, up: seq<Replica>)
    requires |up| <= |ids| && forall i | 0 <= i < |up| :: up[i].where.Some?
    ensures |Present(ids, up)| == |up|
    ensures forall i | 0 <= i < |up| :: Present(ids, up)[i] == (ids[i], up[i].where.value)
    decreases |up|
  {
    if up != [] {
      StoppedAgain(ids, up[..|up| - 1]);
    }
  }
}
