/** What a whole deploy promises about the orders to stop and about the configuration. */
module DeploySafety {
  import opened Types
  import opened Cluster
  import opened Deploy
  import opened Volumes
  import opened Rolling
  import opened RunDeploy
  import Fsm

  // ----- Orders to stop -----

  /** The order is for an allocation that was listed for the removed service. */
  ghost predicate ByRemoval(trace: seq<Event>, name: string, run: StopRun, k: nat) {
    && run.seen < k < run.hi <= |trace| && trace[run.seen] == Listed(name, run.listed)
    && IsStop(trace[k]) && (trace[k].order.allocId, trace[k].node) in run.listed
  }

  /** The order is one that the update of the changed service gives. */
  ghost predicate ByUpdate(
    trace: seq<Event>, config: ClusterConfig, ids: (string, nat) -> AllocId, run: ServiceRun, k: nat)
  {
    && run.name in config.services && run.rolling && run.lo <= k
    && UpdateStop(trace, run.name, config.services[run.name], IdsFor(ids, run.name, config.services[run.name]), run.o, k)
  }

  lemma {:induction false} ChainOfStops(trace: seq<Event>, lo: nat, names: seq<string>, runs: seq<StopRun>, k: nat)
    requires StopChain(trace, lo, names, runs) && lo <= k < |trace|
    ensures |runs| <= |names| && !IsDeploy(trace[k])
    ensures IsStop(trace[k]) ==> exists i | 0 <= i < |runs| :: ByRemoval(trace, names[i], runs[i], k)
    decreases |runs|
  {
    var n := |runs| - 1;
    if k < runs[n].lo {
      ChainOfStops(trace[..runs[n].lo], lo, names, runs[..n], k);
      if IsStop(trace[k]) {
        var i :| 0 <= i < n && ByRemoval(trace[..runs[n].lo], names[i], runs[..n][i], k);
        assert ByRemoval(trace, names[i], runs[i], k);
      }
    } else if IsStop(trace[k]) {
      StopIsListed(trace, runs[n].seen + 1, |trace|, k);
      assert ByRemoval(trace, names[n], runs[n], k);
    }
  }

  lemma RunStops(trace: seq<Event>, config: ClusterConfig, ids: (string, nat) -> AllocId, run: ServiceRun, k: nat)
    requires RanAs(trace, config, ids, run) && run.lo <= k < |trace|
    ensures !IsDeploy(trace[k]) && (IsStop(trace[k]) ==> ByUpdate(trace, config, ids, run, k))
  {
    var def := config.services[run.name];
    if run.rolling {
      UpdateDeploysNothing(trace, run.lo, run.name, def, IdsFor(ids, run.name, def), run.r, run.o, k);
      if IsStop(trace[k]) {
        StopsFollowHealthy(trace, run.lo, run.name, def, IdsFor(ids, run.name, def), run.r, run.o, k);
      }
    } else {
      StartStopsNothing(trace, run.lo, run.name, def, IdsFor(ids, run.name, def), run.r, run.o, k);
    }
  }

  lemma UpdateDeploysNothing(
    trace: seq<Event>, lo: nat, name: string, def: ServiceDef, ids: seq<AllocId>, r: UpdateResult, o: Course, k: nat)
    requires AllOrNothing(trace, lo, name, def, ids, r, o) && lo <= k < |trace|
    ensures !IsDeploy(trace[k])
  {
    if r.NoNode? || r.VolumeError? {
      PreparingDeploysNothing(trace, lo, |trace|, k);
    } else if k < o.seen {
      PreparingDeploysNothing(trace, lo, o.seen, k);
    } else {
      ReplacingDeploysNothing(trace, name, def, ids, r, o, k);
    }
  }

  lemma PreparingDeploysNothing(trace: seq<Event>, lo: nat, hi: nat, k: nat)
    requires Prepares(trace, lo, hi) && lo <= k < hi
    ensures !IsDeploy(trace[k])
  {
  }

  lemma ReplacingDeploysNothing(
    trace: seq<Event>, name: string, def: ServiceDef, ids: seq<AllocId>, r: UpdateResult, o: Course, k: nat)
    requires Replaced(trace, name, def, ids, r, o) && o.seen <= k < |trace|
    ensures !IsDeploy(trace[k])
  {
  }

  lemma StartStopsNothing(
    trace: seq<Event>, lo: nat, name: string, def: ServiceDef, ids: seq<AllocId>, r: UpdateResult, o: Course, k: nat)
    requires DeployedAs(trace, lo, name, def, ids, r, o) && lo <= k < |trace|
    ensures !IsDeploy(trace[k]) && !IsStop(trace[k])
  {
  }

  lemma {:induction false} ChainOfRuns(
    trace: seq<Event>, lo: nat, config: ClusterConfig, ids: (string, nat) -> AllocId, runs: seq<ServiceRun>, k: nat)
    requires RunChain(trace, lo, config, ids, runs) && lo <= k < |trace|
    ensures !IsDeploy(trace[k])
    ensures IsStop(trace[k]) ==> exists i | 0 <= i < |runs| :: ByUpdate(trace, config, ids, runs[i], k)
    decreases |runs|
  {
    var n := |runs| - 1;
    if k < runs[n].lo {
      ChainOfRuns(trace[..runs[n].lo], lo, config, ids, runs[..n], k);
      if IsStop(trace[k]) {
        var i :| 0 <= i < n && ByUpdate(trace[..runs[n].lo], config, ids, runs[..n][i], k);
        StillByUpdate(trace[..runs[n].lo], trace, config, ids, runs[i], k);
      }
    } else {
      RunStops(trace, config, ids, runs[n], k);
    }
  }

  lemma StillByUpdate(
    trace: seq<Event>, more: seq<Event>, config: ClusterConfig, ids: (string, nat) -> AllocId, run: ServiceRun, k: nat)
    requires trace <= more && ByUpdate(trace, config, ids, run, k)
    ensures ByUpdate(more, config, ids, run, k)
  {
  }

  lemma {:induction false} StopRunHolds(trace: seq<Event>, lo: nat, names: seq<string>, runs: seq<StopRun>, i: nat)
    requires StopChain(trace, lo, names, runs) && i < |runs|
    ensures |runs| <= |names| && runs[i].hi <= |trace| && StoppedAs(trace[..runs[i].hi], names[i], runs[i])
    decreases |runs|
  {
    var n := |runs| - 1;
    if i < n {
      StopRunHolds(trace[..runs[n].lo], lo, names, runs[..n], i);
      assert trace[..runs[n].lo][..runs[i].hi] == trace[..runs[i].hi];
    } else {
      assert trace[..|trace|] == trace;
    }
  }

  /** An order that a deploy gives belongs to a removed service or to the update of a changed one. */
  ghost predicate OfDeploy(
    trace: seq<Event>, config: ClusterConfig, ids: (string, nat) -> AllocId, d: DeployRun, k: nat)
  {
    || (exists i | 0 <= i < |d.stops| <= |d.plan.removed| :: ByRemoval(trace, d.plan.removed[i], d.stops[i], k))
    || exists i | 0 <= i < |d.changed| :: ByUpdate(trace, config, ids, d.changed[i], k)
  }

  /** What happens after the configuration was committed, up to the end of the updates. */
  lemma CarriedEvents(
    trace: seq<Event>, lo: nat, config: ClusterConfig, ids: (string, nat) -> AllocId, d: DeployRun, k: nat)
    requires CarriedOut(trace, lo, config, ids, d) && lo <= k < |trace|
    ensures !IsDeploy(trace[k]) && (IsStop(trace[k]) ==> OfDeploy(trace, config, ids, d, k))
  {
    if k < d.stopped {
      ChainOfStops(trace[..d.stopped], lo, d.plan.removed, d.stops, k);
      if IsStop(trace[k]) {
        var i :| 0 <= i < |d.stops| && ByRemoval(trace[..d.stopped], d.plan.removed[i], d.stops[i], k);
        assert ByRemoval(trace, d.plan.removed[i], d.stops[i], k);
      }
    } else if k < d.between {
      ChainOfRuns(trace[..d.between], d.stopped, config, ids, d.added, k);
    } else {
      ChainOfRuns(trace, d.between, config, ids, d.changed, k);
    }
  }

  lemma ExecutedEvents(
    trace: seq<Event>, lo: nat, config: ClusterConfig, ids: (string, nat) -> AllocId, res: DeployResult, d: DeployRun,
    k: nat)
    requires Executed(trace, lo, config, ids, res, d) && lo <= k < |trace|
    ensures IsStop(trace[k]) ==> OfDeploy(trace, config, ids, d, k)
    ensures IsDeploy(trace[k]) <==> res.Finished? && res.restored && k == |trace| - 1
  {
    if res.StopError? {
      StoppingEvents(trace, lo, config, ids, d, k);
    } else if k < d.end {
      CarriedEventsOn(trace, lo, config, ids, d, k);
    } else {
      EndingEvents(trace, d.end, d.former, res.failures, res.restored, k);
    }
  }

  lemma StoppingEvents(
    trace: seq<Event>, lo: nat, config: ClusterConfig, ids: (string, nat) -> AllocId, d: DeployRun, k: nat)
    requires StopChain(trace, lo, d.plan.removed, d.stops) && lo <= k < |trace|
    ensures !IsDeploy(trace[k]) && (IsStop(trace[k]) ==> OfDeploy(trace, config, ids, d, k))
  {
    ChainOfStops(trace, lo, d.plan.removed, d.stops, k);
  }

  lemma CarriedEventsOn(
    trace: seq<Event>, lo: nat, config: ClusterConfig, ids: (string, nat) -> AllocId, d: DeployRun, k: nat)
    requires lo <= k < d.end <= |trace| && CarriedOut(trace[..d.end], lo, config, ids, d)
    ensures !IsDeploy(trace[k]) && (IsStop(trace[k]) ==> OfDeploy(trace, config, ids, d, k))
  {
    CarriedEvents(trace[..d.end], lo, config, ids, d, k);
    if IsStop(trace[k]) {
      StillOfDeploy(trace[..d.end], trace, config, ids, d, k);
    }
  }

  lemma EndingEvents(
    trace: seq<Event>, end: nat, former: Option<ClusterConfig>, failures: bool, restored: bool, k: nat)
    requires Ends(trace, end, former, failures, restored) && end <= k < |trace|
    ensures !IsStop(trace[k]) && (IsDeploy(trace[k]) <==> restored && k == |trace| - 1)
  {
  }

  /**
   Every order to stop belongs to a removed service or to the update of a changed one, and the
   deploy commits no configuration but its own and, last of all, the former one.
   */
  lemma DeployEvents(
    trace: seq<Event>, lo: nat, config: ClusterConfig, ids: (string, nat) -> AllocId, res: DeployResult, d: DeployRun,
    k: nat)
    requires DeploysAs(trace, lo, config, ids, res, d) && lo <= k < |trace|
    ensures IsStop(trace[k]) ==> OfDeploy(trace, config, ids, d, k)
    ensures IsDeploy(trace[k]) <==>
              || (!res.Invalid? && !res.NotProposed? && k == d.proposed)
              || (res.Finished? && res.restored && k == |trace| - 1)
  {
    if res.Invalid? || res.NotProposed? {
      if k < |trace| - 1 { CheckingEvents(trace, lo, |trace| - 1, d.former, k); }
    } else if k < d.proposed {
      CheckingEvents(trace, lo, d.proposed, d.former, k);
    } else if d.proposed < k {
      ExecutedEvents(trace, d.proposed + 1, config, ids, res, d, k);
    }
  }

  lemma CheckingEvents(trace: seq<Event>, lo: nat, hi: nat, former: Option<ClusterConfig>, k: nat)
    requires Checking(trace, lo, hi, former) && lo <= k < hi
    ensures !IsStop(trace[k]) && !IsDeploy(trace[k])
  {
  }

  lemma StillOfDeploy(
    trace: seq<Event>, more: seq<Event>, config: ClusterConfig, ids: (string, nat) -> AllocId, d: DeployRun, k: nat)
    requires trace <= more && OfDeploy(trace, config, ids, d, k)
    ensures OfDeploy(more, config, ids, d, k)
  {
    if i :| 0 <= i < |d.stops| <= |d.plan.removed| && ByRemoval(trace, d.plan.removed[i], d.stops[i], k) {
      assert ByRemoval(more, d.plan.removed[i], d.stops[i], k);
    } else {
      var i :| 0 <= i < |d.changed| && ByUpdate(trace, config, ids, d.changed[i], k);
      StillByUpdate(trace, more, config, ids, d.changed[i], k);
    }
  }

  /**
   A deploy that has committed its configuration ends with a stop error exactly if an order to stop a
   listed allocation of a removed service could not be sent; then nothing was started.
   */
  lemma StopErrorIff(
    trace: seq<Event>, lo: nat, config: ClusterConfig, ids: (string, nat) -> AllocId, res: DeployResult, d: DeployRun)
    requires DeploysAs(trace, lo, config, ids, res, d) && !res.Invalid? && !res.NotProposed?
    ensures |d.stops| <= |d.plan.removed|
    ensures res.StopError? <==> SomeUnsent(trace, d)
    ensures res.StopError? ==>
              forall k | d.proposed < k < |trace| :: trace[k].Other? || trace[k].Listed? || IsStop(trace[k])
  {
    if res.StopError? {
      StopChainEvents(trace, d.proposed + 1, d.plan.removed, d.stops);
      UnsentStop(trace, d.proposed + 1, d.plan.removed, d.stops);
    } else {
      NoneUnsent(trace, d.proposed + 1, config, ids, d);
    }
  }

  /** Some order to stop a listed allocation of a removed service could not be sent. */
  ghost predicate SomeUnsent(trace: seq<Event>, d: DeployRun) {
    && |d.stops| <= |d.plan.removed|
    && exists i, k | 0 <= i < |d.stops| && d.proposed < k < |trace| ::
         ByRemoval(trace, d.plan.removed[i], d.stops[i], k) && !trace[k].ok
  }

  lemma NoneUnsent(trace: seq<Event>, lo: nat, config: ClusterConfig, ids: (string, nat) -> AllocId, d: DeployRun)
    requires d.end <= |trace| && CarriedOut(trace[..d.end], lo, config, ids, d)
    ensures forall i: nat, k: nat | i < |d.stops| && ByRemoval(trace, d.plan.removed[i], d.stops[i], k) :: trace[k].ok
  {
    var done := trace[..d.end][..d.stopped];
    assert done <= trace;
    forall i: nat, k: nat | i < |d.stops| && ByRemoval(trace, d.plan.removed[i], d.stops[i], k) ensures trace[k].ok {
      SentStop(trace, done, lo, d.plan.removed, d.stops, i, k);
    }
  }

  lemma UnsentStop(trace: seq<Event>, lo: nat, names: seq<string>, runs: seq<StopRun>)
    requires StopChain(trace, lo, names, runs) && LastStopFailed(runs)
    ensures |runs| <= |names| && lo < |trace| && IsStop(trace[|trace| - 1]) && !trace[|trace| - 1].ok
    ensures ByRemoval(trace, names[|runs| - 1], runs[|runs| - 1], |trace| - 1)
  {
    var run := runs[|runs| - 1];
    ChainIsForward(trace[..run.lo], lo, names, runs[..|runs| - 1]);
    StopIsListed(trace, run.seen + 1, |trace|, |trace| - 1);
  }

  lemma {:induction false} ChainIsForward(trace: seq<Event>, lo: nat, names: seq<string>, runs: seq<StopRun>)
    requires StopChain(trace, lo, names, runs)
    ensures lo <= |trace|
    decreases |runs|
  {
    if runs != [] {
      ChainIsForward(trace[..runs[|runs| - 1].lo], lo, names, runs[..|runs| - 1]);
    }
  }

  lemma SentStop(
    trace: seq<Event>, done: seq<Event>, lo: nat, names: seq<string>, runs: seq<StopRun>, i: nat, k: nat)
    requires done <= trace && StopChain(done, lo, names, runs) && AllStopped(runs) && i < |runs| <= |names|
    requires ByRemoval(trace, names[i], runs[i], k)
    ensures trace[k].ok
  {
    StopRunHolds(done, lo, names, runs, i);
    assert done[..runs[i].hi][k] == trace[k];
  }

  lemma {:induction false} StopChainEvents(trace: seq<Event>, lo: nat, names: seq<string>, runs: seq<StopRun>)
    requires StopChain(trace, lo, names, runs)
    ensures forall k | lo <= k < |trace| :: trace[k].Other? || trace[k].Listed? || IsStop(trace[k])
    decreases |runs|
  {
    if runs != [] {
      var n := |runs| - 1;
      StopChainEvents(trace[..runs[n].lo], lo, names, runs[..n]);
      forall k | lo <= k < runs[n].lo ensures trace[k].Other? || trace[k].Listed? || IsStop(trace[k]) {
        assert trace[..runs[n].lo][k] == trace[k];
      }
    }
  }

  // ----- The configuration -----

  predicate ChangesConfig(e: Event) {
    IsDeploy(e) || (e.Other? && e.command.Deploy?)
  }

  lemma {:induction false} ConfigStays(states: seq<FsmState>, trace: seq<Event>, lo: nat, hi: nat)
    requires IsRun(states, trace) && lo <= hi <= |trace|
    requires forall k | lo <= k < hi :: !ChangesConfig(trace[k])
    ensures states[hi].config == states[lo].config
    decreases hi
  {
    if lo < hi {
      ConfigStays(states, trace, lo, hi - 1);
      assert Happens(states, trace, hi - 1);
      ConfigStep(states[hi - 1], trace[hi - 1]);
    }
  }

  lemma ConfigStep(s: FsmState, e: Event)
    ensures if !ChangesConfig(e) then Effect(s, e).config == s.config else Effect(s, e).config == Some(e.command.config)
  {
    if (e.Other? || e.Proposed?) && !e.command.Deploy? {
      Fsm.ConfigFrame(s, e.command);
    }
  }

  ghost predicate DeploysAlone(trace: seq<Event>, lo: nat) {
    forall k | lo <= k < |trace| && trace[k].Other? :: !trace[k].command.Deploy?
  }

  /** The configuration a deploy leaves behind. */
  ghost function ConfigAfter(former: Option<ClusterConfig>, config: ClusterConfig, res: DeployResult): Option<ClusterConfig> {
    if res.StopError? || (res.Finished? && !res.restored) then Some(config) else former
  }

  /**
   If nobody else deploys meanwhile, the former configuration of the deploy is the one it found, and
   the one it leaves is the new one, unless it was refused or the former one could be proposed again
   because a service failed.
   */
  lemma DeployLeaves(
    states: seq<FsmState>, trace: seq<Event>, lo: nat, config: ClusterConfig, ids: (string, nat) -> AllocId,
    res: DeployResult, d: DeployRun)
    requires IsRun(states, trace) && DeploysAs(trace, lo, config, ids, res, d) && DeploysAlone(trace, lo)
    ensures d.former == states[lo].config
    ensures states[|trace|].config == ConfigAfter(d.former, config, res)
  {
    FormerIsFound(states, trace, lo, config, ids, res, d);
    forall k | lo <= k < |trace|
      ensures ChangesConfig(trace[k]) <==>
                || (!res.Invalid? && !res.NotProposed? && k == d.proposed)
                || (res.Finished? && res.restored && k == |trace| - 1)
    {
      DeployEvents(trace, lo, config, ids, res, d, k);
    }
    if res.Invalid? || res.NotProposed? {
      ConfigStays(states, trace, lo, |trace|);
    } else {
      var last := if res.Finished? && res.restored then |trace| - 1 else d.proposed;
      LastDeployCounts(states, trace, last);
    }
  }

  lemma LastDeployCounts(states: seq<FsmState>, trace: seq<Event>, last: nat)
    requires IsRun(states, trace) && last < |trace| && ChangesConfig(trace[last])
    requires forall k | last < k < |trace| :: !ChangesConfig(trace[k])
    ensures states[|trace|].config == Some(trace[last].command.config)
  {
    assert Happens(states, trace, last);
    ConfigStep(states[last], trace[last]);
    ConfigStays(states, trace, last + 1, |trace|);
  }

  lemma FormerIsFound(
    states: seq<FsmState>, trace: seq<Event>, lo: nat, config: ClusterConfig, ids: (string, nat) -> AllocId,
    res: DeployResult, d: DeployRun)
    requires IsRun(states, trace) && DeploysAs(trace, lo, config, ids, res, d) && DeploysAlone(trace, lo)
    ensures d.former == states[lo].config
  {
    var hi := if res.Invalid? || res.NotProposed? then |trace| - 1 else d.proposed;
    ReadIsFound(states, trace, lo, hi, d.former);
  }

  lemma ReadIsFound(states: seq<FsmState>, trace: seq<Event>, lo: nat, hi: nat, former: Option<ClusterConfig>)
    requires IsRun(states, trace) && Checking(trace, lo, hi, former) && DeploysAlone(trace, lo)
    ensures former == states[lo].config
  {
    var k :| lo <= k < hi && trace[k] == Current(former);
    assert Happens(states, trace, k);
    ConfigStays(states, trace, lo, k);
  }

  /** The last event is a proposal that consensus took. */
  predicate LastTaken(trace: seq<Event>) {
    trace != [] && trace[|trace| - 1].Proposed? && trace[|trace| - 1].ok
  }

  /**
   A deploy that has committed another configuration leaves the one it found exactly if every removed
   service could be told to stop, a service failed, there was a former configuration, and consensus
   took the last proposal.
   */
  lemma FailedDeployRestoresIff(
    states: seq<FsmState>, trace: seq<Event>, lo: nat, config: ClusterConfig, ids: (string, nat) -> AllocId,
    res: DeployResult, d: DeployRun)
    requires IsRun(states, trace) && DeploysAs(trace, lo, config, ids, res, d) && DeploysAlone(trace, lo)
    requires !res.Invalid? && !res.NotProposed? && states[lo].config != Some(config)
    ensures states[|trace|].config == states[lo].config <==>
              && !SomeUnsent(trace, d) && (SomeFailed(d.added) || SomeFailed(d.changed))
              && states[lo].config.Some? && LastTaken(trace)
  {
    DeployLeaves(states, trace, lo, config, ids, res, d);
    StopErrorIff(trace, lo, config, ids, res, d);
  }

  /** Where the run ends: at the beginning of the next one, or at the end of them all. */
  function RunEnd(runs: seq<ServiceRun>, end: nat, i: nat): nat
    requires i < |runs|
  {
    if i + 1 < |runs| then runs[i + 1].lo else end
  }

  lemma {:induction false} RunHolds(
    trace: seq<Event>, lo: nat, config: ClusterConfig, ids: (string, nat) -> AllocId, runs: seq<ServiceRun>, i: nat)
    requires RunChain(trace, lo, config, ids, runs) && i < |runs|
    ensures RunEnd(runs, |trace|, i) <= |trace| && RanAs(trace[..RunEnd(runs, |trace|, i)], config, ids, runs[i])
    decreases |runs|
  {
    var n := |runs| - 1;
    if i < n {
      RunHolds(trace[..runs[n].lo], lo, config, ids, runs[..n], i);
      assert trace[..runs[n].lo][..RunEnd(runs, |trace|, i)] == trace[..RunEnd(runs, |trace|, i)];
    } else {
      assert trace[..|trace|] == trace;
    }
  }

  /** All replicas are up, and some order to stop one of the formerly listed allocations could not be sent. */
  ghost predicate UpButUnsent(trace: seq<Event>, replicas: nat, r: UpdateResult, o: Course) {
    && !r.NoNode? && !r.VolumeError? && |o.up| == replicas
    && exists k | o.seen < k < |trace| ::
         IsStop(trace[k]) && (trace[k].order.allocId, trace[k].node) in o.former && !trace[k].ok
  }

  lemma UpdateStopFailedIff(
    trace: seq<Event>, lo: nat, name: string, def: ServiceDef, ids: seq<AllocId>, r: UpdateResult, o: Course)
    requires AllOrNothing(trace, lo, name, def, ids, r, o)
    ensures r.StopFailed? <==> UpButUnsent(trace, |ids|, r, o)
  {
    if r.StopFailed? {
      var k :| o.mid <= k < |trace| && IsStop(trace[k]) && !trace[k].ok;
      StopIsListed(trace, o.mid, |trace|, k);
    }
  }

  /**
   The update of a changed service fails for its stops exactly if all its replicas are up and an order
   to stop one of the formerly listed allocations could not be sent.
   */
  lemma StopFailedIff(
    trace: seq<Event>, lo: nat, config: ClusterConfig, ids: (string, nat) -> AllocId, res: DeployResult, d: DeployRun,
    i: nat)
    requires DeploysAs(trace, lo, config, ids, res, d) && res.Finished? && i < |d.changed|
    ensures d.changed[i].name in config.services && RunEnd(d.changed, d.end, i) <= |trace|
    ensures var run := d.changed[i];
            run.r.StopFailed? <==>
              UpButUnsent(trace[..RunEnd(d.changed, d.end, i)], config.services[run.name].replicas, run.r, run.o)
  {
    var run, hi := d.changed[i], RunEnd(d.changed, d.end, i);
    RunHolds(trace[..d.end], d.between, config, ids, d.changed, i);
    assert trace[..d.end][..hi] == trace[..hi];
    var def := config.services[run.name];
    UpdateStopFailedIff(trace[..hi], run.lo, run.name, def, IdsFor(ids, run.name, def), run.r, run.o);
  }

  /**
   An update whose orders to stop were not all sent counts as a failure, although all its replicas
   were started: the deploy goes back to a configuration with another definition of the service.
   */
  lemma UnsentStopRollsBack(
    trace: seq<Event>, lo: nat, config: ClusterConfig, ids: (string, nat) -> AllocId, res: DeployResult, d: DeployRun,
    i: nat)
    requires DeploysAs(trace, lo, config, ids, res, d) && res.Finished?
    requires i < |d.changed| && d.changed[i].r.StopFailed?
    ensures d.changed[i].name in ServicesOf(d.former)
    ensures UpOtherwise(trace, config, ids, d.changed[i], ServicesOf(d.former)[d.changed[i].name])
    ensures trace[|trace| - 1] == Proposed(Deploy(d.former.value), res.restored)
  {
    var run := d.changed[i];
    var hi := RunEnd(d.changed, d.end, i);
    RunHolds(trace[..d.end], d.between, config, ids, d.changed, i);
    assert run.name == d.plan.changed[i] && run.name in d.plan.changed;
    UpThough(trace[..d.end][..hi], trace, config, ids, run);
    assert SomeFailed(d.changed);
  }

  /** All replicas of the service were started, with a definition that is not the given one. */
  ghost predicate UpOtherwise(
    trace: seq<Event>, config: ClusterConfig, ids: (string, nat) -> AllocId, run: ServiceRun, other: ServiceDef)
  {
    && run.name in config.services && config.services[run.name] != other
    && var def := config.services[run.name];
    && |run.o.up| == def.replicas
    && forall j | 0 <= j < def.replicas :: Started(trace, run.o.seen, run.name, def, ids(run.name, j), run.o.up[j].launch)
  }

  lemma UpThough(trace: seq<Event>, more: seq<Event>, config: ClusterConfig, ids: (string, nat) -> AllocId, run: ServiceRun)
    requires trace <= more && RanAs(trace, config, ids, run) && run.rolling && run.r.StopFailed?
    ensures var def := config.services[run.name];
            && |run.o.up| == def.replicas
            && forall j | 0 <= j < def.replicas ::
                 Started(more, run.o.seen, run.name, def, ids(run.name, j), run.o.up[j].launch)
  {
    var def := config.services[run.name];
    var mine := IdsFor(ids, run.name, def);
    forall j | 0 <= j < def.replicas
      ensures Started(more, run.o.seen, run.name, def, ids(run.name, j), run.o.up[j].launch)
    {
      assert ReplicaUp(trace, run.o.seen + 1, run.name, def, mine[j], run.o.up[j]);
      StaysStarted(trace, more, run.o.seen + 1, run.o.seen, run.name, def, mine[j], run.o.up[j].launch);
    }
  }

  // ----- A deploy that fails halfway -----

  function OldAlloc(): Alloc {
    Alloc(AllocId("web-0"), NodeId("a"), "web", Service, Healthy, None, Resources(1.0, 1), None)
  }

  function OldConfig(): ClusterConfig {
    ClusterConfig(map["web" := ServiceDef("web", 1, Resources(1.0, 1), map[], [], [])], map[])
  }

  /** One ready node, on which the only service runs. */
  function WebRuns(): FsmState {
    var node := FsmNode(1, NodeId("a"), SocketAddr(V4(0), 0), NodeResources(4.0, 4.0, 8, 8), Ready, None, None, None, None);
    FsmState(Some(OldConfig()), map[1 := node], map[OldAlloc().id := OldAlloc()], map[], map[])
  }

  function NoServices(): ClusterConfig {
    ClusterConfig(map[], map[])
  }

  /** The service is removed, but its node cannot be told. */
  function HalfDeploy(): seq<Event> {
    [Current(Some(OldConfig())), SecretsChecked(NoServices(), true), CapacityChecked(NoServices(), true),
     Proposed(Deploy(NoServices()), true), Listed("web", [(OldAlloc().id, NodeId("a"))]),
     Sent(NodeId("a"), Stop(OldAlloc().id), false)]
  }

  function HalfStates(): seq<FsmState> {
    var after := WebRuns().(config := Some(NoServices()));
    [WebRuns(), WebRuns(), WebRuns(), WebRuns(), after, after, after]
  }

  /** The deploy fails and its configuration stays, without the service, which still runs. */
  lemma FailedDeployStays(ids: (string, nat) -> AllocId)
    ensures IsRun(HalfStates(), HalfDeploy()) && DeploysAs(HalfDeploy(), 0, NoServices(), ids, StopError, HalfRun())
    ensures "web" in ServicesOf(HalfStates()[0].config) && "web" !in ServicesOf(HalfStates()[6].config)
    ensures HalfStates()[6].allocs == HalfStates()[0].allocs && HalfStates()[6].allocs[OldAlloc().id].name == "web"
  {
    HalfHappens();
    HalfIsChecked();
    HalfIsStopped();
  }

  lemma HalfHappens()
    ensures IsRun(HalfStates(), HalfDeploy())
  {
    var states, trace := HalfStates(), HalfDeploy();
    HalfReads();
    forall k | 0 <= k < |trace| ensures Happens(states, trace, k) {
      assert k == 0 || k == 1 || k == 2 || k == 3 || k == 4 || k == 5;
    }
  }

  lemma HalfReads()
    ensures forall k | 0 <= k < 6 :: Sees(HalfStates()[k], HalfDeploy()[k])
  {
    var s := WebRuns();
    assert s.nodes[1].status == Ready;
    assert LargestFits(s, NoServices()) && SecretsKnown(s, NoServices());
    assert ListsService(s.(config := Some(NoServices())), "web", [(OldAlloc().id, NodeId("a"))]);
  }

  function HalfRun(): DeployRun {
    DeployRun(Some(OldConfig()), Plan([], [], ["web"]), 3, [StopRun(4, 4, 6, [(OldAlloc().id, NodeId("a"))], false)],
              0, [], 0, [], 0)
  }

  lemma HalfIsChecked()
    ensures Proposes(HalfDeploy(), 0, NoServices(), HalfRun())
  {
    var trace := HalfDeploy();
    assert trace[0] == Current(Some(OldConfig()));
    assert trace[1] == SecretsChecked(NoServices(), true) && trace[2] == CapacityChecked(NoServices(), true);
  }

  lemma HalfIsStopped()
    ensures StopChain(HalfDeploy(), 4, ["web"], HalfRun().stops) && LastStopFailed(HalfRun().stops)
  {
    var trace, runs := HalfDeploy(), HalfRun().stops;
    assert Stops(trace, 5, 5) == [];
    LastStop(trace, 5, 6);
    assert StoppedAs(trace, "web", runs[0]);
    assert runs[..0] == [] && |trace[..4]| == 4;
  }
}
