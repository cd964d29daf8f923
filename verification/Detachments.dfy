/** Detaching the volumes of a node before its allocations are moved. */
module Detachments {
  import opened Types
  import opened Cluster
  import opened Volumes

  /** A volume that is detached, where its steps begin, and where the cloud is called if there is a driver. */
  datatype Detach = Detach(volume: string, lo: nat, called: nat)

  /** The detaching is proposed, whatever comes of it, after a call to the cloud if there is a driver. */
  ghost predicate DetachedOne(trace: seq<Event>, hi: nat, d: Detach, driver: Driver) {
    && d.lo < hi <= |trace|
    && trace[hi - 1].Proposed? && trace[hi - 1].command == VolumeDetached(d.volume)
    && if driver.None? then Quiet(trace, d.lo, hi - 1)
       else
         && d.lo <= d.called < hi - 1 && Quiet(trace, d.lo, d.called) && Quiet(trace, d.called + 1, hi - 1)
         && trace[d.called].Cloud? && trace[d.called].call == Detaching(d.volume)
  }

  /** The volumes are detached one after the other, from `lo` to `hi`, and nothing else is done. */
  ghost predicate DetachedAll(trace: seq<Event>, lo: nat, hi: nat, ds: seq<Detach>, driver: Driver) {
    if ds == [] then lo == hi
    else
      var n := |ds| - 1;
      && ds[n].lo <= hi <= |trace|
      && DetachedOne(trace, hi, ds[n], driver)
      && DetachedAll(trace, lo, ds[n].lo, ds[..n], driver)
  }

  /** Each of the volumes is listed exactly once. */
  ghost predicate ListsEach(ds: seq<Detach>, volumes: set<string>) {
    && (forall i | 0 <= i < |ds| :: ds[i].volume in volumes)
    && (forall v | v in volumes :: exists i | 0 <= i < |ds| :: ds[i].volume == v)
    && (forall i, j | 0 <= i < j < |ds| :: ds[i].volume != ds[j].volume)
  }

  /**
   How the volumes of a node were detached: its name was read by event `named`, the volumes attached
   there by event `read`, and they were detached up to `hi`.
   */
  datatype Detachment = Detachment(driver: Driver, named: nat, read: nat, ds: seq<Detach>, hi: nat)

  ghost predicate Detached(trace: seq<Event>, lo: nat, node: RaftId, d: Detachment) {
    && lo <= d.named < d.read < d.hi <= |trace|
    && Quiet(trace, lo, d.named) && trace[d.named].NameOf? && trace[d.named].raftId == node
    && Quiet(trace, d.named + 1, d.read) && trace[d.read].AttachedAt?
    && trace[d.read].mill == (if trace[d.named].named.Some? then trace[d.named].named.value else NodeId(""))
    && DetachedAll(trace, d.read + 1, d.hi, d.ds, d.driver) && ListsEach(d.ds, trace[d.read].volumes)
  }

  lemma {:induction false} StayDetached(
    trace: seq<Event>, more: seq<Event>, lo: nat, hi: nat, ds: seq<Detach>, driver: Driver)
    requires trace <= more && hi <= |trace| && DetachedAll(trace, lo, hi, ds, driver)
    ensures DetachedAll(more, lo, hi, ds, driver)
    decreases |ds|
  {
    if ds != [] {
      var n := |ds| - 1;
      StayDetached(trace, more, lo, ds[n].lo, ds[..n], driver);
    }
  }

  lemma {:induction false} DetachedOnly(trace: seq<Event>, lo: nat, hi: nat, ds: seq<Detach>, driver: Driver)
    requires DetachedAll(trace, lo, hi, ds, driver) && hi <= |trace|
    ensures lo <= hi && OnlyDetaches(trace, lo, hi)
    decreases |ds|
  {
    if ds != [] {
      DetachedOnly(trace, lo, ds[|ds| - 1].lo, ds[..|ds| - 1], driver);
    }
  }

  ghost predicate OnlyDetaches(trace: seq<Event>, lo: nat, hi: nat) {
    && hi <= |trace|
    && forall k | lo <= k < hi ::
         || trace[k].Other? || trace[k].NameOf? || trace[k].AttachedAt? || trace[k].Cloud?
         || (trace[k].Proposed? && trace[k].command.VolumeDetached?)
  }

  lemma DetachmentStays(trace: seq<Event>, more: seq<Event>, lo: nat, node: RaftId, d: Detachment)
    requires trace <= more && Detached(trace, lo, node, d)
    ensures Detached(more, lo, node, d)
  {
    StayDetached(trace, more, d.read + 1, d.hi, d.ds, d.driver);
  }

  lemma DetachmentIsOnly(trace: seq<Event>, lo: nat, node: RaftId, d: Detachment)
    requires Detached(trace, lo, node, d)
    ensures OnlyDetaches(trace, lo, d.hi)
  {
    DetachedOnly(trace, d.read + 1, d.hi, d.ds, d.driver);
  }

  method ReadAttached(ctx: Ctx, mill: NodeId) returns (volumes: set<string>)
    requires ctx.Valid()
    modifies ctx
    ensures ctx.Valid() && old(ctx.trace) < ctx.trace && old(ctx.states) <= ctx.states
    ensures Quiet(ctx.trace, |old(ctx.trace)|, |ctx.trace| - 1) && ctx.trace[|ctx.trace| - 1] == AttachedAt(mill, volumes)
  {
    var quiet := ctx.Await();
    volumes := VolumesAt(ctx.fsm, mill);
    ctx.Note(AttachedAt(mill, volumes));
  }

  /** The name of the node and the volumes attached there are read. */
  ghost predicate ReadsVolumes(trace: seq<Event>, lo: nat, named: nat, read: nat, node: RaftId, volumes: set<string>) {
    && lo <= named < read < |trace|
    && Quiet(trace, lo, named) && trace[named].NameOf? && trace[named].raftId == node
    && Quiet(trace, named + 1, read)
    && trace[read] == AttachedAt(if trace[named].named.Some? then trace[named].named.value else NodeId(""), volumes)
  }

  method ReadVolumes(ctx: Ctx, node: RaftId) returns (volumes: set<string>, ghost at: nat)
    requires ctx.Valid()
    modifies ctx
    ensures ctx.Valid() && old(ctx.trace) < ctx.trace && old(ctx.states) <= ctx.states
    ensures ReadsVolumes(ctx.trace, |old(ctx.trace)|, at, |ctx.trace| - 1, node, volumes)
  {
    var named := ReadName(ctx, node);
    at := |ctx.trace| - 1;
    volumes := ReadAttached(ctx, if named.Some? then named.value else NodeId(""));
  }

  /** Detach what is attached to the node, so that it can follow the replacements; failures are ignored. */
  method DetachVolumes(ctx: Ctx, node: RaftId, driver: Driver) returns (ghost d: Detachment)
    requires ctx.Valid()
    modifies ctx
    ensures ctx.Valid() && old(ctx.trace) <= ctx.trace && old(ctx.states) <= ctx.states
    ensures Detached(ctx.trace, |old(ctx.trace)|, node, d) && d.hi == |ctx.trace| && d.driver == driver
  {
    var volumes, named := ReadVolumes(ctx, node);
    ghost var trace := ctx.trace;
    var ds := DetachEach(ctx, volumes, driver);
    d := Detachment(driver, named, |trace| - 1, ds, |ctx.trace|);
    NowDetached(trace, ctx.trace, |old(ctx.trace)|, node, volumes, d);
  }

  lemma NowDetached(trace: seq<Event>, more: seq<Event>, lo: nat, node: RaftId, volumes: set<string>, d: Detachment)
    requires trace <= more && d.read == |trace| - 1 && d.hi == |more|
    requires ReadsVolumes(trace, lo, d.named, d.read, node, volumes)
    requires DetachedSoFar(more, |trace|, volumes, d.ds, d.driver)
    ensures Detached(more, lo, node, d)
  {
    assert forall k | lo <= k < |trace| :: more[k] == trace[k];
  }

  /** The volumes, and no others, were detached from `lo` on. */
  ghost predicate DetachedSoFar(trace: seq<Event>, lo: nat, volumes: set<string>, ds: seq<Detach>, driver: Driver) {
    DetachedAll(trace, lo, |trace|, ds, driver) && ListsEach(ds, volumes)
  }

  /** In any order. */
  method DetachEach(ctx: Ctx, volumes: set<string>, driver: Driver) returns (ghost ds: seq<Detach>)
    requires ctx.Valid()
    modifies ctx
    ensures ctx.Valid() && old(ctx.trace) <= ctx.trace && old(ctx.states) <= ctx.states
    ensures DetachedSoFar(ctx.trace, |old(ctx.trace)|, volumes, ds, driver)
  {
    var todo := volumes;
    ds := [];
    while todo != {}
      invariant todo <= volumes && ctx.Valid() && old(ctx.trace) <= ctx.trace && old(ctx.states) <= ctx.states
      invariant DetachedSoFar(ctx.trace, |old(ctx.trace)|, volumes - todo, ds, driver)
      decreases |todo|
    {
      var v :| v in todo;
      ghost var trace := ctx.trace;
      var d := DetachVolume(ctx, v, driver);
      OneMoreDetached(trace, ctx.trace, |old(ctx.trace)|, volumes - todo, ds, d, driver);
      assert volumes - (todo - {v}) == volumes - todo + {v};
      ds, todo := ds + [d], todo - {v};
    }
    assert volumes - todo == volumes;
  }

  lemma OneMoreDetached(
    trace: seq<Event>, more: seq<Event>, lo: nat, volumes: set<string>, ds: seq<Detach>, d: Detach, driver: Driver)
    requires trace < more && DetachedSoFar(trace, lo, volumes, ds, driver)
    requires d.lo == |trace| && d.volume !in volumes && DetachedOne(more, |more|, d, driver)
    ensures DetachedSoFar(more, lo, volumes + {d.volume}, ds + [d], driver)
  {
    StayDetached(trace, more, lo, |trace|, ds, driver);
    assert (ds + [d])[..|ds|] == ds;
    OneMoreListed(ds, volumes, d);
  }

  lemma OneMoreListed(ds: seq<Detach>, volumes: set<string>, d: Detach)
    requires ListsEach(ds, volumes) && d.volume !in volumes
    ensures ListsEach(ds + [d], volumes + {d.volume})
  {
    var all := ds + [d];
    forall v | v in volumes + {d.volume} ensures exists i | 0 <= i < |all| :: all[i].volume == v {
      if v in volumes {
        var i :| 0 <= i < |ds| && ds[i].volume == v;
        assert all[i].volume == v;
      } else {
        assert all[|ds|].volume == v;
      }
    }
  }

  method DetachVolume(ctx: Ctx, v: string, driver: Driver) returns (ghost d: Detach)
    requires ctx.Valid()
    modifies ctx
    ensures ctx.Valid() && old(ctx.trace) < ctx.trace && old(ctx.states) <= ctx.states
    ensures d.volume == v && d.lo == |old(ctx.trace)| && DetachedOne(ctx.trace, |ctx.trace|, d, driver)
  {
    d := Detach(v, |ctx.trace|, 0);
    if driver.Some? {
      var ok := ctx.CallCloud(Detaching(v));
      d := d.(called := |ctx.trace| - 1);
    }
    var proposed := ctx.Propose(VolumeDetached(v));
  }
}
