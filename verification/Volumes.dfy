/**
 Preparing the volumes of a service: each persistent one is created or detached as its state demands
 and attached to a ready node, in the cloud first.
 */
module Volumes {
  import opened Types
  import opened Cluster

  predicate IsVolume(c: Command) {
    c.VolumeCreated? || c.VolumeDetached? || c.VolumeAttached?
  }

  predicate VolumeEvent(e: Event) {
    || e.Other? || e.Cloud? || (e.Proposed? && IsVolume(e.command))
    || e.VolumeSeen? || e.NameOf? || e.InstanceOf?
  }

  predicate FailingVolume(e: Event) {
    (e.Cloud? || (e.Proposed? && IsVolume(e.command))) && !e.ok
  }

  ghost predicate OnlyVolumes(trace: seq<Event>, lo: nat, hi: nat) {
    hi <= |trace| && forall k | lo <= k < hi :: VolumeEvent(trace[k])
  }

  /** What the operation has of cloud volumes: the id a created volume gets, or no driver at all. */
  type Driver = Option<string -> string>

  /** The next step of the operation is the proposal, and consensus takes it. */
  ghost predicate Takes(trace: seq<Event>, lo: nat, hi: nat, c: Command) {
    lo < hi <= |trace| && Quiet(trace, lo, hi - 1) && trace[hi - 1] == Proposed(c, true)
  }

  /** The next step of the operation is the call, and it succeeds. */
  ghost predicate Calls(trace: seq<Event>, lo: nat, hi: nat, call: CloudCall) {
    lo < hi <= |trace| && Quiet(trace, lo, hi - 1) && trace[hi - 1] == Cloud(call, true)
  }

  /** The volume is there already, or it does not exist and there is nobody to create it. */
  predicate IsDone(state: Option<VolumeState>, target: Option<NodeId>, driver: Driver) {
    if state.None? then driver.None? else state.value.Attached? && Some(state.value.node) == target
  }

  /** A missing volume is created and one that is attached is detached, each first in the cloud if there is a driver. */
  ghost predicate Frees(
    trace: seq<Event>, lo: nat, called: nat, hi: nat, name: string, state: Option<VolumeState>, driver: Driver)
  {
    && (state.None? ==> driver.Some?)
    && if state == Some(Unattached) then lo == hi
       else
         && (if driver.None? then called == lo
             else Calls(trace, lo, called, if state.None? then Creating(name) else Detaching(name)))
         && Takes(trace, called, hi, if state.None? then VolumeCreated(name, driver.value(name)) else VolumeDetached(name))
  }

  /** The part of attaching that is done in the cloud. */
  ghost predicate Asks(trace: seq<Event>, lo: nat, asked: nat, hi: nat, name: string, node: RaftId, driver: Driver) {
    if driver.None? then asked == hi == lo
    else
      && lo < asked <= |trace| && Quiet(trace, lo, asked - 1)
      && trace[asked - 1].InstanceOf? && trace[asked - 1].raftId == node
      && if trace[asked - 1].instance.None? then hi == asked
         else Calls(trace, asked, hi, Attaching(name, trace[asked - 1].instance.value))
  }

  /** The volume is attached, first in the cloud if there is a driver and the node has an instance. */
  ghost predicate Attaches(
    trace: seq<Event>, lo: nat, asked: nat, called: nat, hi: nat, name: string, node: RaftId, driver: Driver)
  {
    && Asks(trace, lo, asked, called, name, node, driver)
    && Takes(trace, called, hi, VolumeAttached(name, node))
  }

  /** The positions of the steps taken for a volume, from `lo` on: the reads, and the ends of the steps after them. */
  datatype VolumeRun = VolumeRun(lo: nat, read: nat, named: nat, freeing: nat, freed: nat, asked: nat, attaching: nat)

  /** The volume's state and the node's name are read. */
  ghost predicate Looks(trace: seq<Event>, lo: nat, read: nat, named: nat, name: string, node: RaftId) {
    && lo <= read < named < |trace|
    && Quiet(trace, lo, read) && trace[read].VolumeSeen? && trace[read].volume == name
    && Quiet(trace, read + 1, named) && trace[named].NameOf? && trace[named].raftId == node
  }

  /** What is done for one volume: nothing if it is there; otherwise it is freed as its state demands, and attached. */
  ghost predicate VolumeDone(trace: seq<Event>, hi: nat, name: string, node: RaftId, driver: Driver, v: VolumeRun) {
    && Looks(trace, v.lo, v.read, v.named, name, node)
    && if IsDone(trace[v.read].state, trace[v.named].named, driver) then hi == v.named + 1
       else
         Moves(trace, v.named + 1, hi, name, node, trace[v.read].state, driver, v)
  }

  /** An ephemeral volume is left alone. */
  ghost predicate OneDone(trace: seq<Event>, hi: nat, volume: VolumeDef, node: RaftId, driver: Driver, v: VolumeRun) {
    if volume.ephemeral then v.lo == hi else VolumeDone(trace, hi, volume.name, node, driver, v)
  }

  /** The first of the volumes, one for each run, are taken care of one after the other, from `lo` to `hi`. */
  ghost predicate AllDone(
    trace: seq<Event>, lo: nat, hi: nat, volumes: seq<VolumeDef>, node: RaftId, driver: Driver, runs: seq<VolumeRun>)
  {
    if runs == [] then lo == hi
    else
      var n := |runs| - 1;
      && n < |volumes| && runs[n].lo <= hi <= |trace|
      && OneDone(trace, hi, volumes[n], node, driver, runs[n])
      && AllDone(trace, lo, runs[n].lo, volumes, node, driver, runs[..n])
  }

  lemma OneStaysDone(
    trace: seq<Event>, more: seq<Event>, hi: nat, volume: VolumeDef, node: RaftId, driver: Driver, v: VolumeRun)
    requires trace <= more && hi <= |trace| && OneDone(trace, hi, volume, node, driver, v)
    ensures OneDone(more, hi, volume, node, driver, v)
  {
  }

  lemma {:induction false} AllStayDone(
    trace: seq<Event>, more: seq<Event>, lo: nat, hi: nat, volumes: seq<VolumeDef>, node: RaftId, driver: Driver,
    runs: seq<VolumeRun>)
    requires trace <= more && hi <= |trace| && AllDone(trace, lo, hi, volumes, node, driver, runs)
    ensures AllDone(more, lo, hi, volumes, node, driver, runs)
    decreases |runs|
  {
    if runs != [] {
      var n := |runs| - 1;
      OneStaysDone(trace, more, hi, volumes[n], node, driver, runs[n]);
      AllStayDone(trace, more, lo, runs[n].lo, volumes, node, driver, runs[..n]);
    }
  }

  /** From `lo` on only the first volumes were taken care of. */
  ghost predicate DoneSoFar(
    trace: seq<Event>, lo: nat, volumes: seq<VolumeDef>, node: RaftId, driver: Driver, runs: seq<VolumeRun>)
  {
    && lo <= |trace| && |runs| <= |volumes| && OnlyVolumes(trace, lo, |trace|)
    && AllDone(trace, lo, |trace|, volumes, node, driver, runs)
  }

  /** Only the first volumes were taken care of, and then, last of all, a call or a proposal for one failed. */
  ghost predicate FailedAfter(
    trace: seq<Event>, lo: nat, volumes: seq<VolumeDef>, node: RaftId, driver: Driver, runs: seq<VolumeRun>, done: nat)
  {
    && lo <= done < |trace| && |runs| < |volumes| && OnlyVolumes(trace, lo, |trace|)
    && AllDone(trace, lo, done, volumes, node, driver, runs) && FailingVolume(trace[|trace| - 1])
  }

  /** Make sure the persistent volumes exist and are attached to the node; the first failed call ends it. */
  method CreateVolumes(ctx: Ctx, def: ServiceDef, node: RaftId, driver: Driver)
    returns (ok: bool, ghost runs: seq<VolumeRun>, ghost done: nat)
    requires ctx.Valid()
    modifies ctx
    ensures ctx.Valid() && old(ctx.trace) <= ctx.trace && old(ctx.states) <= ctx.states
    ensures ok ==> |runs| == |def.volumes| && DoneSoFar(ctx.trace, |old(ctx.trace)|, def.volumes, node, driver, runs)
    ensures !ok ==> FailedAfter(ctx.trace, |old(ctx.trace)|, def.volumes, node, driver, runs, done)
  {
    ok, runs, done := true, [], |ctx.trace|;
    for i := 0 to |def.volumes|
      invariant ok && |runs| == i
      invariant ctx.Valid() && old(ctx.trace) <= ctx.trace && old(ctx.states) <= ctx.states
      invariant DoneSoFar(ctx.trace, |old(ctx.trace)|, def.volumes, node, driver, runs)
    {
      done := |ctx.trace|;
      ok, runs := NextVolume(ctx, def.volumes, i, node, driver, |old(ctx.trace)|, runs);
      if !ok { return; }
    }
  }

  method NextVolume(
    ctx: Ctx, volumes: seq<VolumeDef>, i: nat, node: RaftId, driver: Driver, ghost lo: nat, ghost before: seq<VolumeRun>)
    returns (ok: bool, ghost runs: seq<VolumeRun>)
    requires ctx.Valid() && i == |before| < |volumes|
    requires DoneSoFar(ctx.trace, lo, volumes, node, driver, before)
    modifies ctx
    ensures ctx.Valid() && old(ctx.trace) <= ctx.trace && old(ctx.states) <= ctx.states
    ensures ok ==> |runs| == i + 1 && DoneSoFar(ctx.trace, lo, volumes, node, driver, runs)
    ensures !ok ==> FailedAfter(ctx.trace, lo, volumes, node, driver, runs, |old(ctx.trace)|)
  {
    ghost var v;
    ok, v := EnsureVolume(ctx, volumes[i], node, driver);
    runs := if ok then before + [v] else before;
    VolumeNext(old(ctx.trace), ctx.trace, lo, volumes, node, driver, before, ok, v);
  }

  lemma VolumeNext(
    trace: seq<Event>, more: seq<Event>, lo: nat, volumes: seq<VolumeDef>, node: RaftId, driver: Driver,
    runs: seq<VolumeRun>, ok: bool, v: VolumeRun)
    requires trace <= more && |runs| < |volumes| && DoneSoFar(trace, lo, volumes, node, driver, runs)
    requires OnlyVolumes(more, |trace|, |more|)
    requires ok ==> v.lo == |trace| && OneDone(more, |more|, volumes[|runs|], node, driver, v)
    requires !ok ==> |trace| < |more| && FailingVolume(more[|more| - 1])
    ensures ok ==> DoneSoFar(more, lo, volumes, node, driver, runs + [v])
    ensures !ok ==> FailedAfter(more, lo, volumes, node, driver, runs, |trace|)
  {
    AllStayDone(trace, more, lo, |trace|, volumes, node, driver, runs);
    assert forall k | lo <= k < |trace| :: more[k] == trace[k];
    if ok {
      OneMoreDone(more, lo, |more|, volumes, node, driver, runs, v);
    }
  }

  /** Nothing is done for an ephemeral volume. */
  method EnsureVolume(ctx: Ctx, volume: VolumeDef, node: RaftId, driver: Driver) returns (ok: bool, ghost v: VolumeRun)
    requires ctx.Valid()
    modifies ctx
    ensures ctx.Valid() && old(ctx.trace) <= ctx.trace && old(ctx.states) <= ctx.states
    ensures OnlyVolumes(ctx.trace, |old(ctx.trace)|, |ctx.trace|)
    ensures if ok then v.lo == |old(ctx.trace)| && OneDone(ctx.trace, |ctx.trace|, volume, node, driver, v)
            else |old(ctx.trace)| < |ctx.trace| && FailingVolume(ctx.trace[|ctx.trace| - 1])
  {
    ok, v := true, VolumeRun(|ctx.trace|, 0, 0, 0, 0, 0, 0);
    if !volume.ephemeral {
      ok, v := CreateVolume(ctx, volume.name, node, driver);
    }
  }

  lemma OneMoreDone(
    trace: seq<Event>, lo: nat, hi: nat, volumes: seq<VolumeDef>, node: RaftId, driver: Driver, runs: seq<VolumeRun>,
    v: VolumeRun)
    requires |runs| < |volumes| && v.lo <= hi <= |trace|
    requires AllDone(trace, lo, v.lo, volumes, node, driver, runs)
    requires OneDone(trace, hi, volumes[|runs|], node, driver, v)
    ensures AllDone(trace, lo, hi, volumes, node, driver, runs + [v])
  {
    assert (runs + [v])[..|runs|] == runs;
  }

  method ReadVolume(ctx: Ctx, name: string) returns (state: Option<VolumeState>)
    requires ctx.Valid()
    modifies ctx
    ensures ctx.Valid() && old(ctx.trace) < ctx.trace && old(ctx.states) <= ctx.states
    ensures Quiet(ctx.trace, |old(ctx.trace)|, |ctx.trace| - 1) && ctx.trace[|ctx.trace| - 1] == VolumeSeen(name, state)
  {
    var quiet := ctx.Await();
    state := if name in ctx.fsm.volumes then Some(ctx.fsm.volumes[name].state) else None;
    ctx.Note(VolumeSeen(name, state));
  }

  method ReadName(ctx: Ctx, node: RaftId) returns (named: Option<NodeId>)
    requires ctx.Valid()
    modifies ctx
    ensures ctx.Valid() && old(ctx.trace) < ctx.trace && old(ctx.states) <= ctx.states
    ensures Quiet(ctx.trace, |old(ctx.trace)|, |ctx.trace| - 1) && ctx.trace[|ctx.trace| - 1] == NameOf(node, named)
  {
    var quiet := ctx.Await();
    named := if node in ctx.fsm.nodes then Some(ctx.fsm.nodes[node].millId) else None;
    ctx.Note(NameOf(node, named));
  }

  method ReadInstance(ctx: Ctx, node: RaftId) returns (instance: Option<string>)
    requires ctx.Valid()
    modifies ctx
    ensures ctx.Valid() && old(ctx.trace) < ctx.trace && old(ctx.states) <= ctx.states
    ensures Quiet(ctx.trace, |old(ctx.trace)|, |ctx.trace| - 1)
    ensures ctx.trace[|ctx.trace| - 1] == InstanceOf(node, instance)
  {
    var quiet := ctx.Await();
    instance := if node in ctx.fsm.nodes then ctx.fsm.nodes[node].instanceId else None;
    ctx.Note(InstanceOf(node, instance));
  }

  method LookAtVolume(ctx: Ctx, name: string, node: RaftId)
    returns (state: Option<VolumeState>, target: Option<NodeId>, ghost read: nat)
    requires ctx.Valid()
    modifies ctx
    ensures ctx.Valid() && old(ctx.trace) < ctx.trace && old(ctx.states) <= ctx.states
    ensures Looks(ctx.trace, |old(ctx.trace)|, read, |ctx.trace| - 1, name, node)
    ensures ctx.trace[read].state == state && ctx.trace[|ctx.trace| - 1].named == target
  {
    state := ReadVolume(ctx, name);
    read := |ctx.trace| - 1;
    target := ReadName(ctx, node);
  }

  method CreateVolume(ctx: Ctx, name: string, node: RaftId, driver: Driver) returns (ok: bool, ghost v: VolumeRun)
    requires ctx.Valid()
    modifies ctx
    ensures ctx.Valid() && old(ctx.trace) < ctx.trace && old(ctx.states) <= ctx.states
    ensures OnlyVolumes(ctx.trace, |old(ctx.trace)|, |ctx.trace|)
    ensures if ok then v.lo == |old(ctx.trace)| && VolumeDone(ctx.trace, |ctx.trace|, name, node, driver, v)
            else FailingVolume(ctx.trace[|ctx.trace| - 1])
  {
    var state, target, read := LookAtVolume(ctx, name, node);
    ghost var trace := ctx.trace;
    v, ok := VolumeRun(|old(ctx.trace)|, read, |trace| - 1, 0, 0, 0, 0), true;
    if !IsDone(state, target, driver) {
      ok, v := MoveVolume(ctx, name, node, state, driver);
      v := v.(lo := |old(ctx.trace)|, read := read, named := |trace| - 1);
      MovedIsDone(trace, ctx.trace, name, node, driver, ok, v);
    }
  }

  lemma MovedIsDone(
    trace: seq<Event>, more: seq<Event>, name: string, node: RaftId, driver: Driver, ok: bool, v: VolumeRun)
    requires trace <= more && v.named == |trace| - 1 && Looks(trace, v.lo, v.read, v.named, name, node)
    requires !IsDone(trace[v.read].state, trace[v.named].named, driver) && OnlyVolumes(more, |trace|, |more|)
    requires ok ==> Moves(more, |trace|, |more|, name, node, trace[v.read].state, driver, v)
    ensures OnlyVolumes(more, v.lo, |more|) && (ok ==> VolumeDone(more, |more|, name, node, driver, v))
  {
    assert forall k | v.lo <= k < |trace| :: more[k] == trace[k];
  }

  /** The volume is freed and then attached. */
  ghost predicate Moves(
    trace: seq<Event>, lo: nat, hi: nat, name: string, node: RaftId, state: Option<VolumeState>, driver: Driver,
    v: VolumeRun)
  {
    && Frees(trace, lo, v.freeing, v.freed, name, state, driver)
    && Attaches(trace, v.freed, v.asked, v.attaching, hi, name, node, driver)
  }

  method MoveVolume(ctx: Ctx, name: string, node: RaftId, state: Option<VolumeState>, driver: Driver)
    returns (ok: bool, ghost v: VolumeRun)
    requires ctx.Valid() && (state.None? ==> driver.Some?)
    modifies ctx
    ensures ctx.Valid() && old(ctx.trace) <= ctx.trace && old(ctx.states) <= ctx.states
    ensures OnlyVolumes(ctx.trace, |old(ctx.trace)|, |ctx.trace|)
    ensures if ok then Moves(ctx.trace, |old(ctx.trace)|, |ctx.trace|, name, node, state, driver, v)
            else |old(ctx.trace)| < |ctx.trace| && FailingVolume(ctx.trace[|ctx.trace| - 1])
  {
    ghost var freeing, asked, attaching := 0, 0, 0;
    ok, freeing := Free(ctx, name, state, driver);
    ghost var trace := ctx.trace;
    if ok {
      ok, asked, attaching := Attach(ctx, name, node, driver);
      if ok {
        StaysFreed(trace, ctx.trace, |old(ctx.trace)|, freeing, name, state, driver);
      }
    }
    v := VolumeRun(0, 0, 0, freeing, |trace|, asked, attaching);
  }

  lemma StaysFreed(
    trace: seq<Event>, more: seq<Event>, lo: nat, called: nat, name: string, state: Option<VolumeState>, driver: Driver)
    requires trace <= more && Frees(trace, lo, called, |trace|, name, state, driver)
    ensures Frees(more, lo, called, |trace|, name, state, driver)
  {
  }

  /** Create the volume, or detach it from where it is. */
  method Free(ctx: Ctx, name: string, state: Option<VolumeState>, driver: Driver) returns (ok: bool, ghost called: nat)
    requires ctx.Valid() && (state.None? ==> driver.Some?)
    modifies ctx
    ensures ctx.Valid() && old(ctx.trace) <= ctx.trace && old(ctx.states) <= ctx.states
    ensures OnlyVolumes(ctx.trace, |old(ctx.trace)|, |ctx.trace|)
    ensures if ok then Frees(ctx.trace, |old(ctx.trace)|, called, |ctx.trace|, name, state, driver)
            else |old(ctx.trace)| < |ctx.trace| && FailingVolume(ctx.trace[|ctx.trace| - 1])
  {
    ok, called := true, |ctx.trace|;
    if state == Some(Unattached) { return; }
    if driver.Some? {
      ok := ctx.CallCloud(if state.None? then Creating(name) else Detaching(name));
    }
    called := |ctx.trace|;
    if ok {
      var done := ctx.Propose(if state.None? then VolumeCreated(name, driver.value(name)) else VolumeDetached(name));
      ok := done.Some?;
    }
  }

  method AskForVolume(ctx: Ctx, name: string, node: RaftId, driver: Driver) returns (ok: bool, ghost asked: nat)
    requires ctx.Valid()
    modifies ctx
    ensures ctx.Valid() && old(ctx.trace) <= ctx.trace && old(ctx.states) <= ctx.states
    ensures OnlyVolumes(ctx.trace, |old(ctx.trace)|, |ctx.trace|)
    ensures if ok then Asks(ctx.trace, |old(ctx.trace)|, asked, |ctx.trace|, name, node, driver)
            else |old(ctx.trace)| < |ctx.trace| && FailingVolume(ctx.trace[|ctx.trace| - 1])
  {
    ok, asked := true, |ctx.trace|;
    if driver.Some? {
      var instance := ReadInstance(ctx, node);
      asked := |ctx.trace|;
      if instance.Some? {
        ok := ctx.CallCloud(Attaching(name, instance.value));
      }
    }
  }

  method Attach(ctx: Ctx, name: string, node: RaftId, driver: Driver)
    returns (ok: bool, ghost asked: nat, ghost called: nat)
    requires ctx.Valid()
    modifies ctx
    ensures ctx.Valid() && old(ctx.trace) <= ctx.trace && old(ctx.states) <= ctx.states
    ensures OnlyVolumes(ctx.trace, |old(ctx.trace)|, |ctx.trace|)
    ensures if ok then Attaches(ctx.trace, |old(ctx.trace)|, asked, called, |ctx.trace|, name, node, driver)
            else |old(ctx.trace)| < |ctx.trace| && FailingVolume(ctx.trace[|ctx.trace| - 1])
  {
    ok, asked := AskForVolume(ctx, name, node, driver);
    called := |ctx.trace|;
    if ok {
      var done := ctx.Propose(VolumeAttached(name, node));
      ok := done.Some?;
    }
  }

  // ----- Preparing a service -----

  datatype PrepareError = NoneReady | VolumeFailed

  /** How the volumes were prepared: for the ready node found by event `first`, up to `hi`. */
  datatype Preparation = Preparation(driver: Driver, first: nat, node: RaftId, runs: seq<VolumeRun>, hi: nat)

  function Unprepared(driver: Driver): Preparation {
    Preparation(driver, 0, 0, [], 0)
  }

  /** Only a ready node is looked for and volumes are prepared. */
  ghost predicate Prepares(trace: seq<Event>, lo: nat, hi: nat) {
    hi <= |trace| && forall k | lo <= k < hi :: VolumeEvent(trace[k]) || trace[k].FirstReady?
  }

  /** A ready node was found, and every volume of the service was prepared for it. */
  ghost predicate Prepared(trace: seq<Event>, lo: nat, def: ServiceDef, p: Preparation) {
    && lo <= p.first < p.hi <= |trace|
    && Quiet(trace, lo, p.first) && trace[p.first] == FirstReady(Some(p.node))
    && |p.runs| == |def.volumes| && AllDone(trace, p.first + 1, p.hi, def.volumes, p.node, p.driver, p.runs)
  }

  lemma StaysPrepared(trace: seq<Event>, more: seq<Event>, lo: nat, def: ServiceDef, p: Preparation)
    requires trace <= more && Prepared(trace, lo, def, p)
    ensures Prepared(more, lo, def, p)
  {
    AllStayDone(trace, more, p.first + 1, p.hi, def.volumes, p.node, p.driver, p.runs);
  }

  method ReadFirstReady(ctx: Ctx) returns (node: Option<RaftId>)
    requires ctx.Valid()
    modifies ctx
    ensures ctx.Valid() && old(ctx.trace) < ctx.trace && old(ctx.states) <= ctx.states
    ensures Quiet(ctx.trace, |old(ctx.trace)|, |ctx.trace| - 1) && ctx.trace[|ctx.trace| - 1] == FirstReady(node)
  {
    var quiet := ctx.Await();
    node := FindReady(ctx.fsm);
    ctx.Note(FirstReady(node));
  }

  /** Find a ready node and prepare the volumes for it. */
  method Prepare(ctx: Ctx, def: ServiceDef, driver: Driver) returns (error: Option<PrepareError>, ghost p: Preparation)
    requires ctx.Valid()
    modifies ctx
    ensures ctx.Valid() && old(ctx.trace) < ctx.trace && old(ctx.states) <= ctx.states
    ensures Prepares(ctx.trace, |old(ctx.trace)|, |ctx.trace|) && p.driver == driver
    ensures error.None? ==> Prepared(ctx.trace, |old(ctx.trace)|, def, p) && p.hi == |ctx.trace|
    ensures error == Some(NoneReady) ==> ctx.trace[|ctx.trace| - 1] == FirstReady(None)
    ensures error == Some(VolumeFailed) ==> FailingVolume(ctx.trace[|ctx.trace| - 1])
  {
    var node := ReadFirstReady(ctx);
    error, p := Some(NoneReady), Unprepared(driver);
    if node.Some? {
      var ok;
      ok, p := PrepareFor(ctx, def, node.value, driver, |old(ctx.trace)|);
      error := if ok then None else Some(VolumeFailed);
    }
  }

  method PrepareFor(ctx: Ctx, def: ServiceDef, node: RaftId, driver: Driver, ghost lo: nat)
    returns (ok: bool, ghost p: Preparation)
    requires ctx.Valid() && lo < |ctx.trace| && Quiet(ctx.trace, lo, |ctx.trace| - 1)
    requires ctx.trace[|ctx.trace| - 1] == FirstReady(Some(node))
    modifies ctx
    ensures ctx.Valid() && old(ctx.trace) <= ctx.trace && old(ctx.states) <= ctx.states
    ensures Prepares(ctx.trace, lo, |ctx.trace|) && p.driver == driver
    ensures if ok then Prepared(ctx.trace, lo, def, p) && p.hi == |ctx.trace|
            else FailingVolume(ctx.trace[|ctx.trace| - 1])
  {
    ghost var runs, done;
    ok, runs, done := CreateVolumes(ctx, def, node, driver);
    p := Preparation(driver, |old(ctx.trace)| - 1, node, runs, |ctx.trace|);
    FoundThenVolumes(old(ctx.trace), ctx.trace, lo);
    if ok {
      NowPrepared(old(ctx.trace), ctx.trace, lo, def, p);
    }
  }

  lemma NowPrepared(trace: seq<Event>, more: seq<Event>, lo: nat, def: ServiceDef, p: Preparation)
    requires lo <= p.first == |trace| - 1 && trace <= more && p.hi == |more|
    requires Quiet(more, lo, p.first) && more[p.first] == FirstReady(Some(p.node))
    requires |p.runs| == |def.volumes| && AllDone(more, |trace|, |more|, def.volumes, p.node, p.driver, p.runs)
    ensures Prepared(more, lo, def, p)
  {
  }

  lemma FoundThenVolumes(trace: seq<Event>, more: seq<Event>, lo: nat)
    requires lo < |trace| && trace <= more && Quiet(trace, lo, |trace| - 1) && trace[|trace| - 1].FirstReady?
    requires OnlyVolumes(more, |trace|, |more|)
    ensures Prepares(more, lo, |more|) && Quiet(more, lo, |trace| - 1) && more[|trace| - 1] == trace[|trace| - 1]
  {
    assert forall k | lo <= k < |trace| :: more[k] == trace[k];
  }

  lemma PreparesOn(trace: seq<Event>, more: seq<Event>, lo: nat, hi: nat)
    requires trace <= more && Prepares(trace, lo, |trace|) && |trace| <= hi && Quiet(more, |trace|, hi)
    ensures Prepares(more, lo, hi)
  {
    assert forall k | lo <= k < |trace| :: more[k] == trace[k];
  }
}
