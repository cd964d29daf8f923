/** A whole deploy: propose the new configuration, carry it out, and go back to the old one on failure. */
module RunDeploy {
  import opened Types
  import opened Cluster
  import opened Deploy
  import opened Volumes
  import opened Rolling
  import Fsm

  // ----- The plan -----

  predicate IsAdded(former: Option<ClusterConfig>, config: ClusterConfig, name: string) {
    name in config.services && name !in ServicesOf(former)
  }

  predicate IsChanged(former: Option<ClusterConfig>, config: ClusterConfig, name: string) {
    name in config.services && name in ServicesOf(former) && config.services[name] != ServicesOf(former)[name]
  }

  predicate IsRemoved(former: Option<ClusterConfig>, config: ClusterConfig, name: string) {
    name !in config.services && name in ServicesOf(former)
  }

  predicate Distinct(names: seq<string>) {
    forall i, j | 0 <= i < j < |names| :: names[i] != names[j]
  }

  datatype Plan = Plan(added: seq<string>, changed: seq<string>, removed: seq<string>)

  /** The services a deploy adds, changes and removes, each listed once. */
  ghost predicate IsPlan(former: Option<ClusterConfig>, config: ClusterConfig, plan: Plan) {
    && Distinct(plan.added) && Distinct(plan.changed) && Distinct(plan.removed)
    && (forall name :: name in plan.added <==> IsAdded(former, config, name))
    && (forall name :: name in plan.changed <==> IsChanged(former, config, name))
    && (forall name :: name in plan.removed <==> IsRemoved(former, config, name))
  }

  method DiffConfig(former: Option<ClusterConfig>, config: ClusterConfig) returns (plan: Plan)
    ensures IsPlan(former, config, plan)
  {
    var added, changed, removed := [], [], [];
    var todo := config.services.Keys;
    while todo != {}
      invariant todo <= config.services.Keys && Distinct(added) && Distinct(changed)
      invariant forall name :: name in added <==> IsAdded(former, config, name) && name !in todo
      invariant forall name :: name in changed <==> IsChanged(former, config, name) && name !in todo
      decreases |todo|
    {
      var name :| name in todo;
      todo := todo - {name};
      if name !in ServicesOf(former) {
        added := added + [name];
      } else if ServicesOf(former)[name] != config.services[name] {
        changed := changed + [name];
      }
    }
    todo := ServicesOf(former).Keys;
    while todo != {}
      invariant todo <= ServicesOf(former).Keys && Distinct(removed)
      invariant forall name :: name in removed <==> IsRemoved(former, config, name) && name !in todo
      decreases |todo|
    {
      var name :| name in todo;
      todo := todo - {name};
      if name !in config.services {
        removed := removed + [name];
      }
    }
    plan := Plan(added, changed, removed);
  }

  // ----- Removed services -----

  /** What stopping one removed service did, from `lo` up to `hi`: its allocations were listed by event `seen`. */
  datatype StopRun = StopRun(lo: nat, seen: nat, hi: nat, listed: seq<(AllocId, NodeId)>, ok: bool)

  /** The listed allocations are told to stop in order, up to and including the first that cannot be told. */
  ghost predicate StoppedAs(trace: seq<Event>, name: string, run: StopRun) {
    && run.lo <= run.seen < run.hi == |trace|
    && Quiet(trace, run.lo, run.seen)
    && trace[run.seen] == Listed(name, run.listed)
    && OnlyStops(trace, run.seen + 1)
    && if run.ok then AllSent(trace, run.seen + 1) && Stops(trace, run.seen + 1, run.hi) == run.listed
       else
         && run.seen + 1 < run.hi
         && IsStop(trace[run.hi - 1]) && !trace[run.hi - 1].ok
         && AllSent(trace[..run.hi - 1], run.seen + 1)
         && Stops(trace, run.seen + 1, run.hi) <= run.listed
  }

  method StopService(ctx: Ctx, name: string) returns (ok: bool, ghost run: StopRun)
    requires ctx.Valid()
    modifies ctx
    ensures ctx.Valid() && old(ctx.trace) < ctx.trace && old(ctx.states) <= ctx.states
    ensures run.lo == |old(ctx.trace)| && run.ok == ok && StoppedAs(ctx.trace, name, run)
  {
    var allocs := ReadService(ctx, name);
    ghost var seen := |ctx.trace| - 1;
    ok := SendStops(ctx, allocs);
    run := StopRun(|old(ctx.trace)|, seen, |ctx.trace|, allocs, ok);
  }

  method SendStops(ctx: Ctx, allocs: seq<(AllocId, NodeId)>) returns (ok: bool)
    requires ctx.Valid()
    modifies ctx
    ensures ctx.Valid() && old(ctx.trace) <= ctx.trace && old(ctx.states) <= ctx.states
    ensures OnlyStops(ctx.trace, |old(ctx.trace)|)
    ensures Stops(ctx.trace, |old(ctx.trace)|, |ctx.trace|) <= allocs
    ensures ok ==> AllSent(ctx.trace, |old(ctx.trace)|) && Stops(ctx.trace, |old(ctx.trace)|, |ctx.trace|) == allocs
    ensures !ok ==> LastUnsent(ctx.trace, |old(ctx.trace)|)
  {
    ok := true;
    var i := 0;
    while i < |allocs| && ok
      invariant 0 <= i <= |allocs| && ctx.Valid() && old(ctx.trace) <= ctx.trace && old(ctx.states) <= ctx.states
      invariant OnlyStops(ctx.trace, |old(ctx.trace)|)
      invariant Stops(ctx.trace, |old(ctx.trace)|, |ctx.trace|) == allocs[..i]
      invariant if ok then AllSent(ctx.trace, |old(ctx.trace)|) else LastUnsent(ctx.trace, |old(ctx.trace)|)
      decreases |allocs| - i
    {
      ghost var trace := ctx.trace;
      ok := ctx.Send(allocs[i].1, Stop(allocs[i].0));
      OneStop(trace, ctx.trace, |old(ctx.trace)|);
      OneMoreSent(trace, ctx.trace, |old(ctx.trace)|);
      OneUnsent(trace, ctx.trace, |old(ctx.trace)|);
      assert allocs[..i + 1] == allocs[..i] + [allocs[i]];
      i := i + 1;
    }
    assert ok ==> allocs[..i] == allocs;
  }

  /** Only the last order to stop could not be sent. */
  ghost predicate LastUnsent(trace: seq<Event>, lo: nat) {
    && lo < |trace| && IsStop(trace[|trace| - 1]) && !trace[|trace| - 1].ok
    && AllSent(trace[..|trace| - 1], lo)
  }

  lemma OneUnsent(trace: seq<Event>, more: seq<Event>, lo: nat)
    requires lo <= |trace| && trace < more && Quiet(more, |trace|, |more| - 1) && IsStop(more[|more| - 1])
    requires AllSent(trace, lo)
    ensures !more[|more| - 1].ok ==> LastUnsent(more, lo)
  {
    assert forall k | lo <= k < |trace| :: more[..|more| - 1][k] == trace[k];
  }

  /** The runs follow one another from `lo` to the end of the trace, one for each of the first names. */
  ghost predicate StopChain(trace: seq<Event>, lo: nat, names: seq<string>, runs: seq<StopRun>) {
    if runs == [] then lo == |trace|
    else
      var n := |runs| - 1;
      && |runs| <= |names|
      && StoppedAs(trace, names[n], runs[n])
      && StopChain(trace[..runs[n].lo], lo, names, runs[..n])
  }

  /** Stop the removed services, up to the first that cannot be told. */
  method StopServices(ctx: Ctx, names: seq<string>) returns (ok: bool, ghost runs: seq<StopRun>)
    requires ctx.Valid()
    modifies ctx
    ensures ctx.Valid() && old(ctx.trace) <= ctx.trace && old(ctx.states) <= ctx.states
    ensures StopChain(ctx.trace, |old(ctx.trace)|, names, runs)
    ensures if ok then |runs| == |names| && AllStopped(runs) else LastStopFailed(runs)
  {
    ok, runs := true, [];
    var i := 0;
    while i < |names| && ok
      invariant 0 <= i <= |names| && |runs| == i
      invariant ctx.Valid() && old(ctx.trace) <= ctx.trace && old(ctx.states) <= ctx.states
      invariant StopChain(ctx.trace, |old(ctx.trace)|, names, runs)
      invariant if ok then AllStopped(runs) else LastStopFailed(runs)
      decreases |names| - i
    {
      ghost var trace := ctx.trace;
      ghost var run;
      ok, run := StopService(ctx, names[i]);
      OneMoreStopped(trace, ctx.trace, |old(ctx.trace)|, names, runs, run);
      runs := runs + [run];
      i := i + 1;
    }
  }

  ghost predicate AllStopped(runs: seq<StopRun>) {
    forall i | 0 <= i < |runs| :: runs[i].ok
  }

  ghost predicate LastStopFailed(runs: seq<StopRun>) {
    runs != [] && !runs[|runs| - 1].ok && AllStopped(runs[..|runs| - 1])
  }

  lemma OneMoreStopped(
    trace: seq<Event>, more: seq<Event>, lo: nat, names: seq<string>, runs: seq<StopRun>, run: StopRun)
    requires trace <= more && StopChain(trace, lo, names, runs) && |runs| < |names|
    requires run.lo == |trace| && StoppedAs(more, names[|runs|], run) && AllStopped(runs)
    ensures StopChain(more, lo, names, runs + [run])
    ensures if run.ok then AllStopped(runs + [run]) else LastStopFailed(runs + [run])
  {
    assert more[..|trace|] == trace && (runs + [run])[..|runs|] == runs;
  }

  // ----- Added and changed services -----

  /** Deploying a new service prepares its volumes and starts each replica in turn; nothing is stopped. */
  ghost predicate DeployedAs(
    trace: seq<Event>, lo: nat, name: string, def: ServiceDef, ids: seq<AllocId>, r: UpdateResult, o: Course)
  {
    && lo < |trace|
    && match r
       case NoNode => Prepares(trace, lo, |trace|) && trace[|trace| - 1] == FirstReady(None)
       case VolumeError => Prepares(trace, lo, |trace|) && FailingVolume(trace[|trace| - 1])
       case StopFailed => false
       case _ =>
         && Prepared(trace, lo, def, o.prep) && o.prep.hi == o.mid
         && Prepares(trace, lo, o.mid) && Harmless(trace, o.mid, |trace|) && Concerns(trace, o.mid, |trace|, name, ids)
         && AllStarted(trace, o.mid, name, def, ids, o.up)
         && if r.Updated? then |o.up| == |ids|
            else
              && |o.up| < |ids| && o.mid <= o.last
              && FailedStart(trace, o.last, |trace|, name, def, ids[|o.up|], o.f)
  }

  ghost predicate AllStarted(
    trace: seq<Event>, lo: nat, name: string, def: ServiceDef, ids: seq<AllocId>, up: seq<Replica>)
  {
    && |up| <= |ids|
    && forall i | 0 <= i < |up| :: Started(trace, lo, name, def, ids[i], up[i].launch)
  }

  lemma AllStay(
    trace: seq<Event>, more: seq<Event>, lo: nat, name: string, def: ServiceDef, ids: seq<AllocId>, up: seq<Replica>)
    requires trace <= more && AllStarted(trace, lo, name, def, ids, up)
    ensures AllStarted(more, lo, name, def, ids, up)
  {
    forall i | 0 <= i < |up| ensures Started(more, lo, name, def, ids[i], up[i].launch) {
      StaysStarted(trace, more, lo, lo, name, def, ids[i], up[i].launch);
    }
  }

  method DeployService(ctx: Ctx, name: string, def: ServiceDef, ids: seq<AllocId>, driver: Driver)
    returns (r: UpdateResult, ghost o: Course)
    requires ctx.Valid()
    modifies ctx
    ensures ctx.Valid() && old(ctx.trace) < ctx.trace && old(ctx.states) <= ctx.states
    ensures DeployedAs(ctx.trace, |old(ctx.trace)|, name, def, ids, r, o) && o.prep.driver == driver
  {
    var error, p := Prepare(ctx, def, driver);
    o := Course(p, 0, 0, Unrecorded, 0, [], []);
    if error.Some? {
      r := if error.value.NoneReady? then NoNode else VolumeError;
    } else {
      ghost var trace := ctx.trace;
      r, o := StartEach(ctx, name, def, ids);
      o := o.(prep := p);
      StaysPrepared(trace, ctx.trace, |old(ctx.trace)|, def, p);
      PreparesOn(trace, ctx.trace, |old(ctx.trace)|, |trace|);
    }
  }

  /** Start the replicas of a new service, up to the first failure. */
  method StartEach(ctx: Ctx, name: string, def: ServiceDef, ids: seq<AllocId>) returns (r: UpdateResult, ghost o: Course)
    requires ctx.Valid()
    modifies ctx
    ensures ctx.Valid() && old(ctx.trace) <= ctx.trace && old(ctx.states) <= ctx.states
    ensures o.mid == |old(ctx.trace)| && Harmless(ctx.trace, o.mid, |ctx.trace|)
    ensures Concerns(ctx.trace, o.mid, |ctx.trace|, name, ids)
    ensures AllStarted(ctx.trace, o.mid, name, def, ids, o.up)
    ensures r.Updated? || r.StartFailed?
    ensures r.Updated? ==> |o.up| == |ids|
    ensures r.StartFailed? ==>
              && |o.up| < |ids| && o.mid <= o.last
              && FailedStart(ctx.trace, o.last, |ctx.trace|, name, def, ids[|o.up|], o.f)
  {
    r, o := Updated, Course(Unprepared(None), 0, 0, Unrecorded, |ctx.trace|, [], []);
    for i := 0 to |ids|
      invariant r.Updated? && |o.up| == i && o.mid == |old(ctx.trace)|
      invariant ctx.Valid() && old(ctx.trace) <= ctx.trace && old(ctx.states) <= ctx.states
      invariant Harmless(ctx.trace, o.mid, |ctx.trace|) && Concerns(ctx.trace, o.mid, |ctx.trace|, name, ids)
      invariant AllStarted(ctx.trace, o.mid, name, def, ids, o.up)
    {
      var ok;
      ok, o := StartOne(ctx, name, def, ids, i, o);
      if !ok {
        r := StartFailed;
        return;
      }
    }
  }

  method StartOne(ctx: Ctx, name: string, def: ServiceDef, ids: seq<AllocId>, i: nat, ghost before: Course)
    returns (ok: bool, ghost o: Course)
    requires ctx.Valid() && i == |before.up| < |ids| && before.mid <= |ctx.trace|
    requires AllStarted(ctx.trace, before.mid, name, def, ids, before.up)
    modifies ctx
    ensures ctx.Valid() && old(ctx.trace) <= ctx.trace && old(ctx.states) <= ctx.states
    ensures Harmless(ctx.trace, |old(ctx.trace)|, |ctx.trace|)
    ensures Concerns(ctx.trace, |old(ctx.trace)|, |ctx.trace|, name, ids)
    ensures o.mid == before.mid && |o.up| == (if ok then i + 1 else i)
    ensures AllStarted(ctx.trace, o.mid, name, def, ids, o.up)
    ensures !ok ==> o.last == |old(ctx.trace)| && FailedStart(ctx.trace, o.last, |ctx.trace|, name, def, ids[i], o.f)
  {
    ghost var trace := ctx.trace;
    ghost var w, f;
    ok, w, f := StartHarmlessly(ctx, name, def, ids[i], ids);
    AllStay(trace, ctx.trace, before.mid, name, def, ids, before.up);
    o := before.(last := |trace|, f := f);
    if ok {
      StaysStarted(ctx.trace, ctx.trace, |trace|, before.mid, name, def, ids[i], w);
      o := o.(up := before.up + [Replica(w, 0, None)]);
    }
  }

  /** The ids of a service's new allocations. */
  function IdsFor(ids: (string, nat) -> AllocId, name: string, def: ServiceDef): seq<AllocId> {
    seq(def.replicas, (i: nat) => ids(name, i))
  }

  /** What deploying or updating one service did, from `lo` to the end of its trace. */
  datatype ServiceRun = ServiceRun(name: string, rolling: bool, lo: nat, r: UpdateResult, o: Course)

  ghost predicate RanAs(trace: seq<Event>, config: ClusterConfig, ids: (string, nat) -> AllocId, run: ServiceRun) {
    && run.name in config.services
    && var def := config.services[run.name];
    if run.rolling then AllOrNothing(trace, run.lo, run.name, def, IdsFor(ids, run.name, def), run.r, run.o)
    else DeployedAs(trace, run.lo, run.name, def, IdsFor(ids, run.name, def), run.r, run.o)
  }

  method UpdateService(
    ctx: Ctx, config: ClusterConfig, name: string, ids: (string, nat) -> AllocId, driver: Driver, rolling: bool)
    returns (ok: bool, ghost run: ServiceRun)
    requires ctx.Valid() && name in config.services
    modifies ctx
    ensures ctx.Valid() && old(ctx.trace) < ctx.trace && old(ctx.states) <= ctx.states
    ensures run.name == name && run.rolling == rolling && run.lo == |old(ctx.trace)|
    ensures RanAs(ctx.trace, config, ids, run) && (ok <==> run.r.Updated?) && run.o.prep.driver == driver
  {
    var def := config.services[name];
    var r;
    ghost var o;
    if rolling {
      r, o := RollingUpdate(ctx, name, def, IdsFor(ids, name, def), driver);
    } else {
      r, o := DeployService(ctx, name, def, IdsFor(ids, name, def), driver);
    }
    ok, run := r.Updated?, ServiceRun(name, rolling, |old(ctx.trace)|, r, o);
  }

  /** The runs follow one another from `lo` to the end of the trace. */
  ghost predicate RunChain(
    trace: seq<Event>, lo: nat, config: ClusterConfig, ids: (string, nat) -> AllocId, runs: seq<ServiceRun>)
  {
    if runs == [] then lo == |trace|
    else
      var n := |runs| - 1;
      && runs[n].lo <= |trace| && RanAs(trace, config, ids, runs[n])
      && RunChain(trace[..runs[n].lo], lo, config, ids, runs[..n])
  }

  /** One run for each of the names, in their order. */
  ghost predicate Cover(runs: seq<ServiceRun>, names: seq<string>, rolling: bool) {
    && |runs| == |names|
    && forall i | 0 <= i < |runs| :: runs[i].name == names[i] && runs[i].rolling == rolling
  }

  /** The volumes of all services were prepared with the driver. */
  ghost predicate AllWith(runs: seq<ServiceRun>, driver: Driver) {
    forall i | 0 <= i < |runs| :: runs[i].o.prep.driver == driver
  }

  ghost predicate SomeFailed(runs: seq<ServiceRun>) {
    exists i | 0 <= i < |runs| :: !runs[i].r.Updated?
  }

  /** The runs of the first services, one after the other, from `lo` to the end of the trace. */
  ghost predicate RanSoFar(
    trace: seq<Event>, lo: nat, config: ClusterConfig, ids: (string, nat) -> AllocId, runs: seq<ServiceRun>,
    names: seq<string>, rolling: bool, driver: Driver)
  {
    && RunChain(trace, lo, config, ids, runs) && AllWith(runs, driver)
    && |runs| <= |names| && Cover(runs, names[..|runs|], rolling)
  }

  /** Deploy or update several services one by one; a failure does not keep the others from being tried. */
  method UpdateServices(
    ctx: Ctx, config: ClusterConfig, names: seq<string>, ids: (string, nat) -> AllocId, driver: Driver, rolling: bool)
    returns (failures: bool, ghost runs: seq<ServiceRun>)
    requires ctx.Valid() && forall name | name in names :: name in config.services
    modifies ctx
    ensures ctx.Valid() && old(ctx.trace) <= ctx.trace && old(ctx.states) <= ctx.states
    ensures RanSoFar(ctx.trace, |old(ctx.trace)|, config, ids, runs, names, rolling, driver) && |runs| == |names|
    ensures failures <==> SomeFailed(runs)
  {
    failures, runs := false, [];
    for i := 0 to |names|
      invariant ctx.Valid() && old(ctx.trace) <= ctx.trace && old(ctx.states) <= ctx.states
      invariant |runs| == i && (failures <==> SomeFailed(runs))
      invariant RanSoFar(ctx.trace, |old(ctx.trace)|, config, ids, runs, names, rolling, driver)
    {
      ghost var trace := ctx.trace;
      var ok;
      ghost var run;
      ok, run := UpdateService(ctx, config, names[i], ids, driver, rolling);
      OneMoreRun(trace, ctx.trace, |old(ctx.trace)|, config, ids, runs, names, rolling, driver, run);
      runs := runs + [run];
      failures := failures || !ok;
    }
  }

  lemma AllRan(
    trace: seq<Event>, lo: nat, config: ClusterConfig, ids: (string, nat) -> AllocId, runs: seq<ServiceRun>,
    names: seq<string>, rolling: bool, driver: Driver)
    requires RanSoFar(trace, lo, config, ids, runs, names, rolling, driver) && |runs| == |names|
    ensures RunChain(trace, lo, config, ids, runs) && AllWith(runs, driver) && Cover(runs, names, rolling)
  {
    assert names[..|names|] == names;
  }

  lemma OneMoreRun(
    trace: seq<Event>, more: seq<Event>, lo: nat, config: ClusterConfig, ids: (string, nat) -> AllocId,
    runs: seq<ServiceRun>, names: seq<string>, rolling: bool, driver: Driver, run: ServiceRun)
    requires trace <= more && RanSoFar(trace, lo, config, ids, runs, names, rolling, driver) && |runs| < |names|
    requires run.lo == |trace| && RanAs(more, config, ids, run) && run.o.prep.driver == driver
    requires run.name == names[|runs|] && run.rolling == rolling
    ensures RanSoFar(more, lo, config, ids, runs + [run], names, rolling, driver)
    ensures SomeFailed(runs + [run]) <==> SomeFailed(runs) || !run.r.Updated?
  {
    var all := runs + [run];
    assert more[..|trace|] == trace && all[..|runs|] == runs;
    assert names[..|runs| + 1] == names[..|runs|] + [run.name];
    if i :| 0 <= i < |runs| && !runs[i].r.Updated? {
      assert !all[i].r.Updated?;
    }
    if !run.r.Updated? {
      assert !all[|runs|].r.Updated?;
    }
  }

  // ----- The deploy -----

  datatype DeployResult = Invalid | NotProposed | StopError | Finished(failures: bool, restored: bool)

  /**
   What a deploy did: it read the former configuration, checked the new one and proposed it by event
   `proposed`; then it stopped the removed services, up to `stopped`, deployed the added ones, up to
   `between`, and updated the changed ones, up to `end`.
   */
  datatype DeployRun = DeployRun(
    former: Option<ClusterConfig>, plan: Plan, proposed: nat, stops: seq<StopRun>, stopped: nat,
    added: seq<ServiceRun>, between: nat, changed: seq<ServiceRun>, end: nat)

  /** The former configuration was read, and every check so far was passed. */
  ghost predicate Checking(trace: seq<Event>, lo: nat, hi: nat, former: Option<ClusterConfig>) {
    && hi <= |trace|
    && (forall k | lo <= k < hi ::
          trace[k].Other? || trace[k] == Current(former)
          || ((trace[k].SecretsChecked? || trace[k].CapacityChecked?) && trace[k].ok))
    && exists k | lo <= k < hi :: trace[k] == Current(former)
  }

  ghost predicate Passed(trace: seq<Event>, lo: nat, hi: nat, config: ClusterConfig) {
    && hi <= |trace|
    && (exists k | lo <= k < hi :: trace[k] == SecretsChecked(config, true))
    && exists k | lo <= k < hi :: trace[k] == CapacityChecked(config, true)
  }

  /** The configuration was proposed and committed after all checks were passed. */
  ghost predicate Proposes(trace: seq<Event>, lo: nat, config: ClusterConfig, d: DeployRun) {
    && lo <= d.proposed < |trace|
    && Checking(trace, lo, d.proposed, d.former) && Passed(trace, lo, d.proposed, config)
    && trace[d.proposed] == Proposed(Deploy(config), true)
    && IsPlan(d.former, config, d.plan)
  }

  /** The former configuration is proposed again exactly if a service failed and there was one. */
  ghost predicate Ends(trace: seq<Event>, end: nat, former: Option<ClusterConfig>, failures: bool, restored: bool) {
    if failures && former.Some? then
      && end < |trace| && Quiet(trace, end, |trace| - 1)
      && trace[|trace| - 1] == Proposed(Deploy(former.value), restored)
    else end == |trace| && !restored
  }

  ghost predicate CarriedOut(
    trace: seq<Event>, lo: nat, config: ClusterConfig, ids: (string, nat) -> AllocId, d: DeployRun)
  {
    && d.stopped <= |trace|
    && StopChain(trace[..d.stopped], lo, d.plan.removed, d.stops)
    && |d.stops| == |d.plan.removed| && AllStopped(d.stops)
    && UpdatedAll(trace, config, ids, d)
  }

  ghost predicate UpdatedAll(trace: seq<Event>, config: ClusterConfig, ids: (string, nat) -> AllocId, d: DeployRun) {
    && d.stopped <= d.between <= d.end == |trace|
    && RunChain(trace[..d.between], d.stopped, config, ids, d.added) && Cover(d.added, d.plan.added, false)
    && RunChain(trace, d.between, config, ids, d.changed) && Cover(d.changed, d.plan.changed, true)
  }

  /** What happens after the configuration was committed. */
  ghost predicate Executed(
    trace: seq<Event>, lo: nat, config: ClusterConfig, ids: (string, nat) -> AllocId, res: DeployResult, d: DeployRun)
  {
    || (res.StopError? && StopChain(trace, lo, d.plan.removed, d.stops) && LastStopFailed(d.stops))
    || (&& res.Finished?
        && d.end <= |trace| && CarriedOut(trace[..d.end], lo, config, ids, d)
        && (res.failures <==> SomeFailed(d.added) || SomeFailed(d.changed))
        && Ends(trace, d.end, d.former, res.failures, res.restored))
  }

  ghost predicate RejectedBy(trace: seq<Event>, config: ClusterConfig) {
    trace != [] && trace[|trace| - 1] in {SecretsChecked(config, false), CapacityChecked(config, false)}
  }

  /** Everything a deploy does, by its result. */
  ghost predicate DeploysAs(
    trace: seq<Event>, lo: nat, config: ClusterConfig, ids: (string, nat) -> AllocId, res: DeployResult, d: DeployRun)
  {
    && lo < |trace|
    && match res
       case Invalid => Checking(trace, lo, |trace| - 1, d.former) && RejectedBy(trace, config)
       case NotProposed =>
         && Checking(trace, lo, |trace| - 1, d.former) && Passed(trace, lo, |trace| - 1, config)
         && trace[|trace| - 1] == Proposed(Deploy(config), false)
       case _ => Proposes(trace, lo, config, d) && Executed(trace, d.proposed + 1, config, ids, res, d)
  }

  method ReadCurrent(ctx: Ctx) returns (former: Option<ClusterConfig>)
    requires ctx.Valid()
    modifies ctx
    ensures ctx.Valid() && old(ctx.trace) < ctx.trace && old(ctx.states) <= ctx.states
    ensures Checking(ctx.trace, |old(ctx.trace)|, |ctx.trace|, former)
  {
    var quiet := ctx.Await();
    former := ctx.fsm.config;
    ctx.Note(Current(former));
    assert ctx.trace[|ctx.trace| - 1] == Current(former);
  }

  /** Check that the secrets the configuration refers to exist. */
  method CheckSecrets(ctx: Ctx, config: ClusterConfig) returns (ok: bool)
    requires ctx.Valid()
    modifies ctx
    ensures ctx.Valid() && old(ctx.trace) < ctx.trace && old(ctx.states) <= ctx.states
    ensures Quiet(ctx.trace, |old(ctx.trace)|, |ctx.trace| - 1) && ctx.trace[|ctx.trace| - 1] == SecretsChecked(config, ok)
  {
    ok := ctx.Await();
    ok := SecretsKnown(ctx.fsm, config);
    ctx.Note(SecretsChecked(config, ok));
  }

  /** Check that nothing configured exceeds the largest ready node. */
  method CheckCapacity(ctx: Ctx, config: ClusterConfig) returns (ok: bool)
    requires ctx.Valid()
    modifies ctx
    ensures ctx.Valid() && old(ctx.trace) < ctx.trace && old(ctx.states) <= ctx.states
    ensures Quiet(ctx.trace, |old(ctx.trace)|, |ctx.trace| - 1) && ctx.trace[|ctx.trace| - 1] == CapacityChecked(config, ok)
  {
    ok := ctx.Await();
    ok := LargestFits(ctx.fsm, config);
    ctx.Note(CapacityChecked(config, ok));
  }

  /** Read the former configuration and check the new one. */
  method Validate(ctx: Ctx, config: ClusterConfig) returns (ok: bool, former: Option<ClusterConfig>)
    requires ctx.Valid()
    modifies ctx
    ensures ctx.Valid() && old(ctx.trace) < ctx.trace && old(ctx.states) <= ctx.states
    ensures Checking(ctx.trace, |old(ctx.trace)|, if ok then |ctx.trace| else |ctx.trace| - 1, former)
    ensures if ok then Passed(ctx.trace, |old(ctx.trace)|, |ctx.trace|, config) else RejectedBy(ctx.trace, config)
  {
    former := ReadCurrent(ctx);
    ghost var read := ctx.trace;
    ok := CheckSecrets(ctx, config);
    OneMoreCheck(read, ctx.trace, |old(ctx.trace)|, former);
    if ok {
      ghost var secrets := ctx.trace;
      ok := CheckCapacity(ctx, config);
      OneMoreCheck(secrets, ctx.trace, |old(ctx.trace)|, former);
      assert ctx.trace[|secrets| - 1] == SecretsChecked(config, true);
    }
  }

  lemma OneMoreCheck(trace: seq<Event>, more: seq<Event>, lo: nat, former: Option<ClusterConfig>)
    requires lo <= |trace| && trace < more && Checking(trace, lo, |trace|, former) && Quiet(more, |trace|, |more| - 1)
    ensures Checking(more, lo, |more| - 1, former)
    ensures (more[|more| - 1].SecretsChecked? || more[|more| - 1].CapacityChecked?) && more[|more| - 1].ok ==>
              Checking(more, lo, |more|, former)
  {
    var k :| lo <= k < |trace| && trace[k] == Current(former);
    assert more[k] == Current(former);
    assert forall j | lo <= j < |trace| :: more[j] == trace[j];
  }

  /**
   Stop what was removed, deploy what was added, update what changed, and go back to the former
   configuration if any of these failed; an order to stop a removed service that cannot be sent ends it all.
   */
  method CarryOut(
    ctx: Ctx, former: Option<ClusterConfig>, config: ClusterConfig, ids: (string, nat) -> AllocId, driver: Driver)
    returns (res: DeployResult, ghost d: DeployRun)
    requires ctx.Valid()
    modifies ctx
    ensures ctx.Valid() && old(ctx.trace) <= ctx.trace && old(ctx.states) <= ctx.states
    ensures d.former == former && IsPlan(former, config, d.plan)
    ensures Executed(ctx.trace, |old(ctx.trace)|, config, ids, res, d) && AllWith(d.added + d.changed, driver)
  {
    var plan := DiffConfig(former, config);
    var ok, stops := StopServices(ctx, plan.removed);
    res, d := StopError, DeployRun(former, plan, 0, stops, |ctx.trace|, [], 0, [], 0);
    if ok {
      ghost var stopped := ctx.trace;
      res, d := Continue(ctx, former, plan, config, ids, driver, d);
      CarriedOn(stopped, ctx.trace, |old(ctx.trace)|, config, ids, res, d);
    }
  }

  /** What happens after the removed services were stopped. */
  ghost predicate Continued(
    trace: seq<Event>, config: ClusterConfig, ids: (string, nat) -> AllocId, res: DeployResult, d: DeployRun)
  {
    && res.Finished? && d.end <= |trace| && UpdatedAll(trace[..d.end], config, ids, d)
    && (res.failures <==> SomeFailed(d.added) || SomeFailed(d.changed))
    && Ends(trace, d.end, d.former, res.failures, res.restored)
  }

  /** Deploy and update, and go back to the former configuration if that failed. */
  method Continue(
    ctx: Ctx, former: Option<ClusterConfig>, plan: Plan, config: ClusterConfig, ids: (string, nat) -> AllocId,
    driver: Driver, ghost before: DeployRun)
    returns (res: DeployResult, ghost d: DeployRun)
    requires ctx.Valid() && IsPlan(former, config, plan)
    requires before.former == former && before.plan == plan && before.stopped == |ctx.trace|
    modifies ctx
    ensures ctx.Valid() && old(ctx.trace) <= ctx.trace && old(ctx.states) <= ctx.states
    ensures d == before.(added := d.added, between := d.between, changed := d.changed, end := d.end)
    ensures Continued(ctx.trace, config, ids, res, d) && AllWith(d.added + d.changed, driver)
  {
    res, d := UpdateAll(ctx, plan, config, ids, driver, before);
    ghost var end := ctx.trace;
    var restored := Restore(ctx, former, res.failures);
    res := Finished(res.failures, restored);
    assert ctx.trace[..|end|] == end;
  }

  /** Deploy what was added and update what changed. */
  method UpdateAll(
    ctx: Ctx, plan: Plan, config: ClusterConfig, ids: (string, nat) -> AllocId, driver: Driver, ghost before: DeployRun)
    returns (res: DeployResult, ghost d: DeployRun)
    requires ctx.Valid() && IsPlan(before.former, config, plan)
    requires before.plan == plan && before.stopped == |ctx.trace|
    modifies ctx
    ensures ctx.Valid() && old(ctx.trace) <= ctx.trace && old(ctx.states) <= ctx.states
    ensures d == before.(added := d.added, between := d.between, changed := d.changed, end := |ctx.trace|)
    ensures UpdatedAll(ctx.trace, config, ids, d)
    ensures res.Finished? && (res.failures <==> SomeFailed(d.added) || SomeFailed(d.changed))
    ensures AllWith(d.added + d.changed, driver)
  {
    var failures, added := UpdateServices(ctx, config, plan.added, ids, driver, false);
    ghost var between := ctx.trace;
    var late, changed := UpdateServices(ctx, config, plan.changed, ids, driver, true);
    d := before.(added := added, between := |between|, changed := changed, end := |ctx.trace|);
    BothRan(between, ctx.trace, config, ids, driver, d);
    res := Finished(failures || late, false);
  }

  lemma BothRan(
    between: seq<Event>, trace: seq<Event>, config: ClusterConfig, ids: (string, nat) -> AllocId, driver: Driver,
    d: DeployRun)
    requires between <= trace && d.stopped <= d.between == |between| && d.end == |trace|
    requires RanSoFar(between, d.stopped, config, ids, d.added, d.plan.added, false, driver)
    requires RanSoFar(trace, d.between, config, ids, d.changed, d.plan.changed, true, driver)
    requires |d.added| == |d.plan.added| && |d.changed| == |d.plan.changed|
    ensures UpdatedAll(trace, config, ids, d) && AllWith(d.added + d.changed, driver)
  {
    AllRan(between, d.stopped, config, ids, d.added, d.plan.added, false, driver);
    AllRan(trace, d.between, config, ids, d.changed, d.plan.changed, true, driver);
    assert trace[..|between|] == between;
  }

  lemma CarriedOn(
    stopped: seq<Event>, trace: seq<Event>, lo: nat, config: ClusterConfig, ids: (string, nat) -> AllocId,
    res: DeployResult, d: DeployRun)
    requires stopped <= trace && d.stopped == |stopped| <= d.end
    requires StopChain(stopped, lo, d.plan.removed, d.stops) && |d.stops| == |d.plan.removed| && AllStopped(d.stops)
    requires Continued(trace, config, ids, res, d)
    ensures Executed(trace, lo, config, ids, res, d)
  {
    assert trace[..d.end][..d.stopped] == stopped;
  }

  /** Propose the former configuration again if a service failed. */
  method Restore(ctx: Ctx, former: Option<ClusterConfig>, failures: bool) returns (restored: bool)
    requires ctx.Valid()
    modifies ctx
    ensures ctx.Valid() && old(ctx.trace) <= ctx.trace && old(ctx.states) <= ctx.states
    ensures Ends(ctx.trace, |old(ctx.trace)|, former, failures, restored)
  {
    restored := false;
    if failures && former.Some? {
      var done := ctx.Propose(Deploy(former.value));
      restored := done.Some?;
    }
  }

  /** After the checks: propose the configuration and, if consensus takes it, carry it out. */
  ghost predicate Proceeds(
    trace: seq<Event>, lo: nat, config: ClusterConfig, ids: (string, nat) -> AllocId, res: DeployResult, d: DeployRun)
  {
    && lo <= d.proposed < |trace| && Quiet(trace, lo, d.proposed)
    && trace[d.proposed] == Proposed(Deploy(config), !res.NotProposed?)
    && if res.NotProposed? then d.proposed == |trace| - 1
       else IsPlan(d.former, config, d.plan) && Executed(trace, d.proposed + 1, config, ids, res, d)
  }

  method Proceed(
    ctx: Ctx, former: Option<ClusterConfig>, config: ClusterConfig, ids: (string, nat) -> AllocId, driver: Driver)
    returns (res: DeployResult, ghost d: DeployRun)
    requires ctx.Valid()
    modifies ctx
    ensures ctx.Valid() && old(ctx.trace) < ctx.trace && old(ctx.states) <= ctx.states
    ensures d.former == former && Proceeds(ctx.trace, |old(ctx.trace)|, config, ids, res, d)
    ensures AllWith(d.added + d.changed, driver)
  {
    var proposed := ctx.Propose(Deploy(config));
    ghost var at := |ctx.trace| - 1;
    res, d := NotProposed, DeployRun(former, Plan([], [], []), 0, [], 0, [], 0, [], 0);
    if proposed.Some? {
      ghost var taken := ctx.trace;
      res, d := CarryOut(ctx, former, config, ids, driver);
      CarriesOn(taken, ctx.trace, |old(ctx.trace)|, config, ids, res, d);
    }
    d := d.(proposed := at);
  }

  lemma CarriesOn(
    taken: seq<Event>, trace: seq<Event>, lo: nat, config: ClusterConfig, ids: (string, nat) -> AllocId,
    res: DeployResult, d: DeployRun)
    requires lo < |taken| && taken <= trace && Quiet(taken, lo, |taken| - 1)
    requires taken[|taken| - 1] == Proposed(Command.Deploy(config), true)
    requires IsPlan(d.former, config, d.plan) && Executed(trace, |taken|, config, ids, res, d)
    ensures Proceeds(trace, lo, config, ids, res, d.(proposed := |taken| - 1))
  {
    assert forall k | lo <= k < |taken| :: trace[k] == taken[k];
  }

  method RunDeploy(ctx: Ctx, config: ClusterConfig, ids: (string, nat) -> AllocId, driver: Driver)
    returns (res: DeployResult, ghost d: DeployRun)
    requires ctx.Valid()
    modifies ctx
    ensures ctx.Valid() && old(ctx.trace) < ctx.trace && old(ctx.states) <= ctx.states
    ensures DeploysAs(ctx.trace, |old(ctx.trace)|, config, ids, res, d) && AllWith(d.added + d.changed, driver)
  {
    var valid, former := Validate(ctx, config);
    res, d := Invalid, DeployRun(former, Plan([], [], []), 0, [], 0, [], 0, [], 0);
    if valid {
      ghost var checked := ctx.trace;
      res, d := Proceed(ctx, former, config, ids, driver);
      Concludes(checked, ctx.trace, |old(ctx.trace)|, config, ids, res, d);
    }
  }

  lemma Concludes(
    checked: seq<Event>, trace: seq<Event>, lo: nat, config: ClusterConfig, ids: (string, nat) -> AllocId,
    res: DeployResult, d: DeployRun)
    requires lo <= |checked| && checked < trace && Proceeds(trace, |checked|, config, ids, res, d)
    requires Checking(checked, lo, |checked|, d.former) && Passed(checked, lo, |checked|, config)
    ensures DeploysAs(trace, lo, config, ids, res, d)
  {
    StillPassed(checked, trace, lo, d.proposed, d.former, config);
  }

  lemma StillPassed(
    trace: seq<Event>, more: seq<Event>, lo: nat, hi: nat, former: Option<ClusterConfig>, config: ClusterConfig)
    requires lo <= |trace| <= hi && trace <= more && Quiet(more, |trace|, hi)
    requires Checking(trace, lo, |trace|, former) && Passed(trace, lo, |trace|, config)
    ensures Checking(more, lo, hi, former) && Passed(more, lo, hi, config)
  {
    var a :| lo <= a < |trace| && trace[a] == SecretsChecked(config, true);
    var b :| lo <= b < |trace| && trace[b] == CapacityChecked(config, true);
    var k :| lo <= k < |trace| && trace[k] == Current(former);
    assert more[a] == trace[a] && more[b] == trace[b] && more[k] == trace[k];
    assert forall j | lo <= j < |trace| :: more[j] == trace[j];
  }
}
