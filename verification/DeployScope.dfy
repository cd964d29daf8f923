/** What a deploy is about: everything that its configuration changes, and nothing else. */
module DeployScope {
  import opened Types
  import opened Cluster
  import opened Deploy
  import opened Volumes
  import opened Rolling
  import opened RunDeploy
  import opened DeploySafety

  /** The service is new, or defined differently from before. */
  predicate IsTouched(former: Option<ClusterConfig>, config: ClusterConfig, name: string) {
    name in config.services && (name in ServicesOf(former) ==> ServicesOf(former)[name] != config.services[name])
  }

  predicate IsDropped(former: Option<ClusterConfig>, config: ClusterConfig, name: string) {
    name in ServicesOf(former) && name !in config.services
  }

  lemma PlanIsTouched(former: Option<ClusterConfig>, config: ClusterConfig, plan: Plan, name: string)
    requires IsPlan(former, config, plan)
    ensures IsTouched(former, config, name) <==> name in plan.added || name in plan.changed
    ensures IsDropped(former, config, name) <==> name in plan.removed
  {
  }

  // ----- Nothing else -----

  /** The deploy records an allocation, has it run, or gives it a status. */
  predicate Acts(e: Event) {
    (e.Sent? && e.order.Run?) || (e.Proposed? && (e.command.AllocScheduled? || e.command.SetAllocStatus?))
  }

  /** It is about one of the new allocations of the service. */
  predicate ActsFor(e: Event, config: ClusterConfig, ids: (string, nat) -> AllocId, name: string) {
    name in config.services && IsFor(e, name, IdsFor(ids, name, config.services[name]))
  }

  lemma UpdateActsFor(
    trace: seq<Event>, lo: nat, name: string, def: ServiceDef, ids: seq<AllocId>, r: UpdateResult, o: Course, k: nat)
    requires AllOrNothing(trace, lo, name, def, ids, r, o) && lo <= k < |trace|
    ensures IsFor(trace[k], name, ids)
  {
    if r.NoNode? || r.VolumeError? {
      PrepareActsFor(trace, lo, |trace|, name, ids, k);
    } else if k < o.seen {
      PrepareActsFor(trace, lo, o.seen, name, ids, k);
    } else if k == o.seen {
      ListingActsFor(trace[k], name, ids);
    } else {
      ReplaceActsFor(trace, o.seen + 1, name, def, ids, r, o, k);
    }
  }

  lemma PrepareActsFor(trace: seq<Event>, lo: nat, hi: nat, name: string, ids: seq<AllocId>, k: nat)
    requires Prepares(trace, lo, hi) && lo <= k < hi
    ensures IsFor(trace[k], name, ids)
  {
  }

  lemma ReplaceActsFor(
    trace: seq<Event>, lo: nat, name: string, def: ServiceDef, ids: seq<AllocId>, r: UpdateResult, o: Course, k: nat)
    requires Swapped(trace, lo, name, def, ids, r, o) && lo <= k < |trace|
    ensures IsFor(trace[k], name, ids)
  {
  }

  lemma DeployActsFor(
    trace: seq<Event>, lo: nat, name: string, def: ServiceDef, ids: seq<AllocId>, r: UpdateResult, o: Course, k: nat)
    requires DeployedAs(trace, lo, name, def, ids, r, o) && lo <= k < |trace|
    ensures IsFor(trace[k], name, ids)
  {
    if r.NoNode? || r.VolumeError? {
      PrepareActsFor(trace, lo, |trace|, name, ids, k);
    } else if k < o.mid {
      PrepareActsFor(trace, lo, o.mid, name, ids, k);
    } else {
      StartsActFor(trace, o.mid, |trace|, name, ids, k);
    }
  }

  lemma StartsActFor(trace: seq<Event>, lo: nat, hi: nat, name: string, ids: seq<AllocId>, k: nat)
    requires Concerns(trace, lo, hi, name, ids) && lo <= k < hi
    ensures IsFor(trace[k], name, ids)
  {
  }

  lemma ListingActsFor(e: Event, name: string, ids: seq<AllocId>)
    requires e.Listed?
    ensures IsFor(e, name, ids)
  {
  }

  lemma RunActsFor(trace: seq<Event>, config: ClusterConfig, ids: (string, nat) -> AllocId, run: ServiceRun, k: nat)
    requires RanAs(trace, config, ids, run) && run.lo <= k < |trace|
    ensures ActsFor(trace[k], config, ids, run.name)
  {
    var def := config.services[run.name];
    if run.rolling {
      UpdateActsFor(trace, run.lo, run.name, def, IdsFor(ids, run.name, def), run.r, run.o, k);
    } else {
      DeployActsFor(trace, run.lo, run.name, def, IdsFor(ids, run.name, def), run.r, run.o, k);
    }
  }

  lemma {:induction false} ChainActsFor(
    trace: seq<Event>, lo: nat, config: ClusterConfig, ids: (string, nat) -> AllocId, runs: seq<ServiceRun>, k: nat)
    returns (i: nat)
    requires RunChain(trace, lo, config, ids, runs) && lo <= k < |trace|
    ensures i < |runs| && ActsFor(trace[k], config, ids, runs[i].name)
    decreases |runs|
  {
    var n := |runs| - 1;
    if k < runs[n].lo {
      i := ChainActsFor(trace[..runs[n].lo], lo, config, ids, runs[..n], k);
    } else {
      RunActsFor(trace, config, ids, runs[n], k);
      i := n;
    }
  }

  lemma CarriedActsFor(
    trace: seq<Event>, lo: nat, config: ClusterConfig, ids: (string, nat) -> AllocId, d: DeployRun, k: nat)
    returns (name: string)
    requires CarriedOut(trace, lo, config, ids, d) && lo <= k < |trace| && Acts(trace[k])
    ensures (name in d.plan.added || name in d.plan.changed) && ActsFor(trace[k], config, ids, name)
  {
    if k < d.stopped {
      StopChainEvents(trace[..d.stopped], lo, d.plan.removed, d.stops);
      assert false;
    } else if k < d.between {
      var i := ChainActsFor(trace[..d.between], d.stopped, config, ids, d.added, k);
      assert d.added[i].name == d.plan.added[i];
      name := d.plan.added[i];
    } else {
      var i := ChainActsFor(trace, d.between, config, ids, d.changed, k);
      assert d.changed[i].name == d.plan.changed[i];
      name := d.plan.changed[i];
    }
  }

  lemma StoppingNeverActs(trace: seq<Event>, lo: nat, names: seq<string>, runs: seq<StopRun>, k: nat)
    requires StopChain(trace, lo, names, runs) && lo <= k < |trace|
    ensures !Acts(trace[k])
  {
    StopChainEvents(trace, lo, names, runs);
  }

  lemma EndingNeverActs(
    trace: seq<Event>, end: nat, former: Option<ClusterConfig>, failures: bool, restored: bool, k: nat)
    requires Ends(trace, end, former, failures, restored) && end <= k < |trace|
    ensures !Acts(trace[k])
  {
  }

  /** Where it acts, it carries out its plan. */
  lemma ActsWhileCarried(
    trace: seq<Event>, lo: nat, config: ClusterConfig, ids: (string, nat) -> AllocId, res: DeployResult, d: DeployRun,
    k: nat)
    requires Executed(trace, lo, config, ids, res, d) && lo <= k < |trace| && Acts(trace[k])
    ensures res.Finished? && k < d.end
  {
    if res.StopError? {
      StoppingNeverActs(trace, lo, d.plan.removed, d.stops, k);
    } else if d.end <= k {
      EndingNeverActs(trace, d.end, d.former, res.failures, res.restored, k);
    }
  }

  /**
   Whatever a deploy records, runs or gives a status to is a new allocation of a service that is new or
   defined differently; all other services are left alone.
   */
  lemma DeployActsOn(
    trace: seq<Event>, lo: nat, config: ClusterConfig, ids: (string, nat) -> AllocId, res: DeployResult, d: DeployRun,
    k: nat)
    returns (name: string)
    requires DeploysAs(trace, lo, config, ids, res, d) && lo <= k < |trace| && Acts(trace[k])
    ensures IsTouched(d.former, config, name) && ActsFor(trace[k], config, ids, name)
  {
    ActsAfterProposal(trace, lo, config, ids, res, d, k);
    FinishedIsCarried(trace, lo, config, ids, res, d);
    name := PlannedActsOn(trace, d.proposed + 1, config, ids, d, k);
  }

  lemma PlannedActsOn(
    trace: seq<Event>, lo: nat, config: ClusterConfig, ids: (string, nat) -> AllocId, d: DeployRun, k: nat)
    returns (name: string)
    requires IsPlan(d.former, config, d.plan) && lo <= k < d.end <= |trace| && Acts(trace[k])
    requires CarriedOut(trace[..d.end], lo, config, ids, d)
    ensures IsTouched(d.former, config, name) && ActsFor(trace[k], config, ids, name)
  {
    name := CarriedActsFor(trace[..d.end], lo, config, ids, d, k);
    PlanIsTouched(d.former, config, d.plan, name);
  }

  lemma CheckingNeverActs(trace: seq<Event>, lo: nat, hi: nat, former: Option<ClusterConfig>, k: nat)
    requires Checking(trace, lo, hi, former) && lo <= k < hi
    ensures !Acts(trace[k])
  {
  }

  lemma ActsAfterProposal(
    trace: seq<Event>, lo: nat, config: ClusterConfig, ids: (string, nat) -> AllocId, res: DeployResult, d: DeployRun,
    k: nat)
    requires DeploysAs(trace, lo, config, ids, res, d) && lo <= k < |trace| && Acts(trace[k])
    ensures d.proposed < k && res.Finished? && k < d.end
  {
    if res.Invalid? || res.NotProposed? {
      if k < |trace| - 1 { CheckingNeverActs(trace, lo, |trace| - 1, d.former, k); }
    } else {
      if k < d.proposed { CheckingNeverActs(trace, lo, d.proposed, d.former, k); }
      ActsWhileCarried(trace, d.proposed + 1, config, ids, res, d, k);
    }
  }

  // ----- Everything -----

  /** The allocation is told to stop, after the event. */
  ghost predicate IsTold(trace: seq<Event>, after: nat, p: (AllocId, NodeId)) {
    exists k | after < k < |trace| :: trace[k] == Sent(p.1, Stop(p.0), true)
  }

  /** The allocations of the service were listed, and each of them was told to stop afterwards. */
  ghost predicate AllTold(trace: seq<Event>, name: string, seen: nat, listed: seq<(AllocId, NodeId)>) {
    && seen < |trace| && trace[seen] == Listed(name, listed)
    && forall p | p in listed :: IsTold(trace, seen, p)
  }

  lemma {:induction false} StopHasEvent(trace: seq<Event>, lo: nat, hi: nat, p: (AllocId, NodeId)) returns (k: nat)
    requires lo <= hi <= |trace| && p in Stops(trace, lo, hi)
    ensures lo <= k < hi && IsStop(trace[k]) && p == (trace[k].order.allocId, trace[k].node)
    decreases hi
  {
    if p in Stops(trace, lo, hi - 1) {
      k := StopHasEvent(trace, lo, hi - 1, p);
    } else {
      k := hi - 1;
    }
  }

  lemma StoppedAreTold(
    trace: seq<Event>, more: seq<Event>, name: string, seen: nat, from: nat, listed: seq<(AllocId, NodeId)>)
    requires trace <= more && seen < from <= |trace| && trace[seen] == Listed(name, listed)
    requires Stops(trace, from, |trace|) == listed && AllSent(trace, from)
    ensures AllTold(more, name, seen, listed)
  {
    forall p | p in listed ensures IsTold(more, seen, p) {
      var k := StopHasEvent(trace, from, |trace|, p);
      assert more[k] == trace[k] == Sent(p.1, Stop(p.0), true);
    }
  }

  /** All of a service's replicas were started. */
  ghost predicate AllServe(
    trace: seq<Event>, lo: nat, name: string, def: ServiceDef, ids: (string, nat) -> AllocId, up: seq<Replica>)
  {
    && |up| == def.replicas
    && forall i | 0 <= i < def.replicas :: Started(trace, lo, name, def, ids(name, i), up[i].launch)
  }

  lemma UpdateServes(
    trace: seq<Event>, more: seq<Event>, config: ClusterConfig, ids: (string, nat) -> AllocId, run: ServiceRun)
    requires trace <= more && RanAs(trace, config, ids, run) && run.rolling && run.r.Updated?
    ensures AllServe(more, run.lo, run.name, config.services[run.name], ids, run.o.up)
    ensures AllTold(more, run.name, run.o.seen, run.o.former)
  {
    var def, o := config.services[run.name], run.o;
    var own := IdsFor(ids, run.name, def);
    forall i | 0 <= i < def.replicas ensures Started(more, run.lo, run.name, def, ids(run.name, i), o.up[i].launch) {
      assert ReplicaUp(trace, o.seen + 1, run.name, def, own[i], o.up[i]);
      StaysStarted(trace, more, o.seen + 1, run.lo, run.name, def, own[i], o.up[i].launch);
    }
    StoppedAreTold(trace, more, run.name, o.seen, o.mid, o.former);
  }

  lemma DeployServes(
    trace: seq<Event>, more: seq<Event>, config: ClusterConfig, ids: (string, nat) -> AllocId, run: ServiceRun)
    requires trace <= more && RanAs(trace, config, ids, run) && !run.rolling && run.r.Updated?
    ensures AllServe(more, run.lo, run.name, config.services[run.name], ids, run.o.up)
  {
    var def, o := config.services[run.name], run.o;
    var own := IdsFor(ids, run.name, def);
    forall i | 0 <= i < def.replicas ensures Started(more, run.lo, run.name, def, ids(run.name, i), o.up[i].launch) {
      assert Started(trace, o.mid, run.name, def, own[i], o.up[i].launch);
      StaysStarted(trace, more, o.mid, run.lo, run.name, def, own[i], o.up[i].launch);
    }
  }

  /** A deploy that comes to its end has carried out its plan. */
  lemma FinishedIsCarried(
    trace: seq<Event>, lo: nat, config: ClusterConfig, ids: (string, nat) -> AllocId, res: DeployResult, d: DeployRun)
    requires DeploysAs(trace, lo, config, ids, res, d) && res.Finished?
    ensures IsPlan(d.former, config, d.plan) && d.end <= |trace|
    ensures CarriedOut(trace[..d.end], d.proposed + 1, config, ids, d)
    ensures !res.failures ==> !SomeFailed(d.added) && !SomeFailed(d.changed)
  {
  }

  lemma AddedServes(
    trace: seq<Event>, lo: nat, config: ClusterConfig, ids: (string, nat) -> AllocId, d: DeployRun, i: nat)
    requires d.end <= |trace| && CarriedOut(trace[..d.end], lo, config, ids, d) && !SomeFailed(d.added)
    requires i < |d.plan.added|
    ensures |d.added| == |d.plan.added| && d.added[i].name == d.plan.added[i] && d.added[i].name in config.services
    ensures AllServe(trace, d.added[i].lo, d.plan.added[i], config.services[d.plan.added[i]], ids, d.added[i].o.up)
  {
    var run, added := d.added[i], trace[..d.end][..d.between];
    assert run.r.Updated?;
    RunHolds(added, d.stopped, config, ids, d.added, i);
    DeployServes(added[..RunEnd(d.added, d.between, i)], trace, config, ids, run);
  }

  lemma ChangedServes(
    trace: seq<Event>, lo: nat, config: ClusterConfig, ids: (string, nat) -> AllocId, d: DeployRun, i: nat)
    requires d.end <= |trace| && CarriedOut(trace[..d.end], lo, config, ids, d) && !SomeFailed(d.changed)
    requires i < |d.plan.changed|
    ensures |d.changed| == |d.plan.changed| && d.changed[i].name == d.plan.changed[i]
    ensures d.changed[i].name in config.services
    ensures AllServe(trace, d.changed[i].lo, d.plan.changed[i], config.services[d.plan.changed[i]], ids, d.changed[i].o.up)
    ensures AllTold(trace, d.plan.changed[i], d.changed[i].o.seen, d.changed[i].o.former)
  {
    var run := d.changed[i];
    assert run.r.Updated?;
    RunHolds(trace[..d.end], d.between, config, ids, d.changed, i);
    UpdateServes(trace[..d.end][..RunEnd(d.changed, d.end, i)], trace, config, ids, run);
  }

  /**
   A deploy without failures has started every replica of every service that is new or defined
   differently, and has told the former allocations of the latter to stop.
   */
  lemma FinishedServes(
    trace: seq<Event>, lo: nat, config: ClusterConfig, ids: (string, nat) -> AllocId, restored: bool, d: DeployRun,
    name: string)
    returns (run: ServiceRun)
    requires DeploysAs(trace, lo, config, ids, Finished(false, restored), d) && IsTouched(d.former, config, name)
    ensures AllServe(trace, run.lo, name, config.services[name], ids, run.o.up)
    ensures name in ServicesOf(d.former) ==> AllTold(trace, name, run.o.seen, run.o.former)
  {
    FinishedIsCarried(trace, lo, config, ids, Finished(false, restored), d);
    run := PlannedServes(trace, d.proposed + 1, config, ids, d, name);
  }

  lemma PlannedServes(
    trace: seq<Event>, lo: nat, config: ClusterConfig, ids: (string, nat) -> AllocId, d: DeployRun, name: string)
    returns (run: ServiceRun)
    requires IsPlan(d.former, config, d.plan) && IsTouched(d.former, config, name)
    requires d.end <= |trace| && CarriedOut(trace[..d.end], lo, config, ids, d)
    requires !SomeFailed(d.added) && !SomeFailed(d.changed)
    ensures AllServe(trace, run.lo, name, config.services[name], ids, run.o.up)
    ensures name in ServicesOf(d.former) ==> AllTold(trace, name, run.o.seen, run.o.former)
  {
    PlanIsTouched(d.former, config, d.plan, name);
    if name in ServicesOf(d.former) {
      assert name in d.plan.changed;
      var i :| 0 <= i < |d.plan.changed| && d.plan.changed[i] == name;
      ChangedServes(trace, lo, config, ids, d, i);
      run := d.changed[i];
    } else {
      assert name in d.plan.added;
      var i :| 0 <= i < |d.plan.added| && d.plan.added[i] == name;
      AddedServes(trace, lo, config, ids, d, i);
      run := d.added[i];
    }
  }

  /** And whether or not something failed, it has told every allocation of a dropped service to stop. */
  lemma FinishedDrops(
    trace: seq<Event>, lo: nat, config: ClusterConfig, ids: (string, nat) -> AllocId, res: DeployResult, d: DeployRun,
    name: string)
    returns (run: StopRun)
    requires DeploysAs(trace, lo, config, ids, res, d) && res.Finished? && IsDropped(d.former, config, name)
    ensures AllTold(trace, name, run.seen, run.listed)
  {
    FinishedIsCarried(trace, lo, config, ids, res, d);
    PlanIsTouched(d.former, config, d.plan, name);
    var i :| 0 <= i < |d.plan.removed| && d.plan.removed[i] == name;
    run := d.stops[i];
    RemovedAreTold(trace, trace[..d.end][..d.stopped], d.proposed + 1, d.plan.removed, d.stops, i);
  }

  lemma RemovedAreTold(
    trace: seq<Event>, done: seq<Event>, lo: nat, names: seq<string>, stops: seq<StopRun>, i: nat)
    requires done <= trace && StopChain(done, lo, names, stops) && AllStopped(stops) && i < |stops| <= |names|
    ensures AllTold(trace, names[i], stops[i].seen, stops[i].listed)
  {
    var run := stops[i];
    StopRunHolds(done, lo, names, stops, i);
    assert run.ok;
    StoppedAreTold(done[..run.hi], trace, names[i], run.seen, run.seen + 1, run.listed);
  }
}
