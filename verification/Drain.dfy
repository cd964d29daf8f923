/**
 Draining a node and removing it: services are moved before they are stopped, and once everything
 on the node has stopped, it can be removed.
 */
module Drain {
  import opened Types
  import opened Cluster
  import opened Deploy
  import opened Volumes
  import opened Detachments
  import opened Rolling
  import Fsm

  // ----- Moving one allocation -----

  /**
   What became of an allocation. A service is looked up by event `read`: if it is configured, it is
   either told to stop by event `stop` after its replacement is up, or kept because the replacement,
   tried until `hi`, failed to start; if it is not configured, it is told to stop. So is a task.
   */
  datatype Move =
    | Kept(read: nat, hi: nat, f: Failure)
    | Replaced(read: nat, launch: Launch, stop: nat)
    | Dropped(read: nat, stop: nat)
    | Ended(stop: nat)

  ghost predicate Reads(trace: seq<Event>, lo: nat, a: Active, read: nat) {
    && a.kind == Service
    && lo <= read < |trace| && trace[read].Defined? && trace[read].name == a.name
  }

  ghost predicate StopsAt(trace: seq<Event>, mill: NodeId, id: AllocId, stop: nat) {
    stop < |trace| && trace[stop].Sent? && trace[stop].node == mill && trace[stop].order == Stop(id)
  }

  ghost predicate IsMove(trace: seq<Event>, lo: nat, mill: NodeId, a: Active, newId: AllocId, m: Move) {
    match m
    case Kept(read, hi, f) =>
      && Reads(trace, lo, a, read) && trace[read].def.Some?
      && FailedStart(trace, read + 1, hi, a.name, trace[read].def.value, newId, f)
    case Replaced(read, w, stop) =>
      && Reads(trace, lo, a, read) && trace[read].def.Some?
      && Started(trace, read + 1, a.name, trace[read].def.value, newId, w)
      && w.healthy < stop && Quiet(trace, w.healthy + 1, stop)
      && StopsAt(trace, mill, a.id, stop)
    case Dropped(read, stop) =>
      && Reads(trace, lo, a, read) && trace[read].def.None?
      && read < stop && StopsAt(trace, mill, a.id, stop)
    case Ended(stop) => a.kind == Task && lo <= stop && StopsAt(trace, mill, a.id, stop)
  }

  lemma MoveStays(
    trace: seq<Event>, more: seq<Event>, lo: nat, from: nat, mill: NodeId, a: Active, newId: AllocId, m: Move)
    requires trace <= more && from <= lo && IsMove(trace, lo, mill, a, newId, m)
    ensures IsMove(more, from, mill, a, newId, m)
  {
    if m.Kept? {
      StaysFailed(trace, more, m.read + 1, m.hi, a.name, trace[m.read].def.value, newId, m.f);
    } else if m.Replaced? {
      StaysStarted(trace, more, m.read + 1, m.read + 1, a.name, trace[m.read].def.value, newId, m.launch);
    }
  }

  /** What a drain does after it has been committed, besides what others do. */
  predicate DrainEvent(e: Event) {
    e.Proposed? ==>
      || e.command.VolumeDetached? || e.command.AllocScheduled?
      || (e.command.SetAllocStatus? && (e.command.status.Healthy? || e.command.status.Failed?))
  }

  ghost predicate Draws(trace: seq<Event>, lo: nat) {
    && (forall k | lo <= k < |trace| :: DrainEvent(trace[k]))
    && forall k {:trigger Justified(trace, lo, k)} | lo <= k < |trace| :: Justified(trace, lo, k)
  }

  lemma DrawsOn(trace: seq<Event>, more: seq<Event>, lo: nat)
    requires trace <= more && lo <= |trace| && Draws(trace, lo) && Draws(more, |trace|)
    ensures Draws(more, lo)
  {
    forall k | lo <= k < |more| ensures DrainEvent(more[k]) && Justified(more, lo, k) {
      if k < |trace| {
        assert more[k] == trace[k] && DrainEvent(trace[k]);
        StaysJustified(trace, more, lo, lo, k);
      } else {
        StaysJustified(more, more, |trace|, lo, k);
      }
    }
  }

  lemma OrderlyDraws(trace: seq<Event>, lo: nat, name: string, def: ServiceDef, id: AllocId)
    requires Orderly(trace, lo, name, def, id)
    ensures Draws(trace, lo)
  {
    forall k | lo <= k < |trace| ensures DrainEvent(trace[k]) && Justified(trace, lo, k) {
      assert StartEvent(trace[k], name, def, id);
    }
  }

  /** The read and the start of a replacement, up to the order to stop. */
  ghost predicate Tried(trace: seq<Event>, lo: nat, a: Active, newId: AllocId, go: bool, m: Move) {
    (go <==> !m.Kept?) &&
    match m
    case Kept(read, hi, f) => IsMove(trace, lo, NodeId(""), a, newId, m)
    case Replaced(read, w, _) =>
      && Reads(trace, lo, a, read) && trace[read].def.Some?
      && Started(trace, read + 1, a.name, trace[read].def.value, newId, w) && w.healthy == |trace| - 1
    case Dropped(read, _) => Reads(trace, lo, a, read) && trace[read].def.None?
    case Ended(_) => a.kind == Task
  }

  method ReadService(ctx: Ctx, name: string) returns (def: Option<ServiceDef>)
    requires ctx.Valid()
    modifies ctx
    ensures ctx.Valid() && old(ctx.trace) < ctx.trace && old(ctx.states) <= ctx.states
    ensures Quiet(ctx.trace, |old(ctx.trace)|, |ctx.trace| - 1) && ctx.trace[|ctx.trace| - 1] == Defined(name, def)
  {
    var quiet := ctx.Await();
    var services := ServicesOf(ctx.fsm.config);
    def := if name in services then Some(services[name]) else None;
    ctx.Note(Defined(name, def));
  }

  /** Start a replacement if the allocation is a configured service; the result says whether to go on. */
  method ReplaceAlloc(ctx: Ctx, a: Active, newId: AllocId) returns (go: bool, ghost m: Move)
    requires ctx.Valid()
    modifies ctx
    ensures ctx.Valid() && old(ctx.trace) <= ctx.trace && old(ctx.states) <= ctx.states
    ensures Draws(ctx.trace, |old(ctx.trace)|) && Harmless(ctx.trace, |old(ctx.trace)|, |ctx.trace|)
    ensures Tried(ctx.trace, |old(ctx.trace)|, a, newId, go, m)
  {
    go, m := true, Ended(0);
    if a.kind == Service {
      var def := ReadService(ctx, a.name);
      ghost var trace := ctx.trace;
      m := Dropped(|trace| - 1, 0);
      if def.Some? {
        go, m := TryReplacement(ctx, a, newId, def.value);
        ReadFirst(trace, ctx.trace, |old(ctx.trace)|);
      }
    }
  }

  method TryReplacement(ctx: Ctx, a: Active, newId: AllocId, def: ServiceDef) returns (go: bool, ghost m: Move)
    requires ctx.Valid() && a.kind == Service && ctx.trace != [] && ctx.trace[|ctx.trace| - 1] == Defined(a.name, Some(def))
    modifies ctx
    ensures ctx.Valid() && old(ctx.trace) <= ctx.trace && old(ctx.states) <= ctx.states
    ensures Draws(ctx.trace, |old(ctx.trace)|) && Harmless(ctx.trace, |old(ctx.trace)|, |ctx.trace|)
    ensures Tried(ctx.trace, |old(ctx.trace)| - 1, a, newId, go, m)
  {
    ghost var w, f, at;
    go, w, f, at := StartAlloc(ctx, a.name, def, newId);
    ghost var read := |old(ctx.trace)| - 1;
    m := if go then Replaced(read, w, 0) else Kept(read, |ctx.trace|, f);
    IsTried(ctx.trace, read, a, newId, def, go, m);
  }

  lemma IsTried(trace: seq<Event>, read: nat, a: Active, newId: AllocId, def: ServiceDef, go: bool, m: Move)
    requires read < |trace| && a.kind == Service && trace[read] == Defined(a.name, Some(def)) && !m.Dropped? && !m.Ended?
    requires Orderly(trace, read + 1, a.name, def, newId) && (go <==> m.Replaced?) && m.read == read
    requires m.Replaced? ==> m.launch.healthy == |trace| - 1 && Started(trace, read + 1, a.name, def, newId, m.launch)
    requires m.Kept? ==> m.hi == |trace| && FailedStart(trace, read + 1, m.hi, a.name, def, newId, m.f)
    ensures Draws(trace, read + 1) && Harmless(trace, read + 1, |trace|) && Tried(trace, read, a, newId, go, m)
  {
    OrderlyDraws(trace, read + 1, a.name, def, newId);
    OrderlyIsHarmless(trace, read + 1, a.name, def, newId);
  }

  lemma ReadFirst(trace: seq<Event>, more: seq<Event>, lo: nat)
    requires lo < |trace| && trace <= more && Quiet(trace, lo, |trace| - 1) && trace[|trace| - 1].Defined?
    requires Draws(more, |trace|) && Harmless(more, |trace|, |more|)
    ensures Draws(more, lo) && Harmless(more, lo, |more|)
  {
    DrawsOn(trace, more, lo);
    assert forall k | lo <= k < |trace| :: more[k] == trace[k];
  }

  /** What moving one allocation did: its move, and the order to stop that belongs to it. */
  ghost predicate MovedAs(trace: seq<Event>, lo: nat, mill: NodeId, a: Active, newId: AllocId, m: Move) {
    && lo <= |trace| && Draws(trace, lo) && IsMove(trace, lo, mill, a, newId, m)
    && Stops(trace, lo, |trace|) == if m.Kept? then [] else [(a.id, mill)]
  }

  /** Replace a configured service elsewhere, then tell the allocation to stop. */
  method MoveAlloc(ctx: Ctx, mill: NodeId, a: Active, newId: AllocId) returns (ghost m: Move)
    requires ctx.Valid()
    modifies ctx
    ensures ctx.Valid() && old(ctx.trace) <= ctx.trace && old(ctx.states) <= ctx.states
    ensures MovedAs(ctx.trace, |old(ctx.trace)|, mill, a, newId, m)
  {
    var go;
    go, m := ReplaceAlloc(ctx, a, newId);
    if go {
      ghost var trace := ctx.trace;
      var sent := ctx.Send(mill, Stop(a.id));
      m := SentMove(trace, ctx.trace, |old(ctx.trace)|, mill, a, newId, m);
    } else {
      KeptMove(ctx.trace, |old(ctx.trace)|, mill, a, newId, m);
    }
  }

  lemma KeptMove(trace: seq<Event>, lo: nat, mill: NodeId, a: Active, newId: AllocId, m: Move)
    requires lo <= |trace| && Draws(trace, lo) && Harmless(trace, lo, |trace|) && Tried(trace, lo, a, newId, false, m)
    ensures MovedAs(trace, lo, mill, a, newId, m)
  {
    NoStops(trace, lo, lo, |trace|);
  }

  lemma SentMove(trace: seq<Event>, more: seq<Event>, lo: nat, mill: NodeId, a: Active, newId: AllocId, tried: Move)
    returns (m: Move)
    requires lo <= |trace| && trace < more && Draws(trace, lo) && Harmless(trace, lo, |trace|)
    requires Tried(trace, lo, a, newId, true, tried)
    requires Quiet(more, |trace|, |more| - 1) && StopsAt(more, mill, a.id, |more| - 1)
    ensures MovedAs(more, lo, mill, a, newId, m)
  {
    m := tried.(stop := |more| - 1);
    NoStops(trace, lo, lo, |trace|);
    OneStop(trace, more, lo);
    SentAfter(trace, more, lo, mill, a, newId, m);
  }

  lemma SentAfter(trace: seq<Event>, more: seq<Event>, lo: nat, mill: NodeId, a: Active, newId: AllocId, m: Move)
    requires lo <= |trace| && trace < more && Draws(trace, lo) && Tried(trace, lo, a, newId, true, m)
    requires Quiet(more, |trace|, |more| - 1) && m.stop == |more| - 1 && StopsAt(more, mill, a.id, m.stop)
    ensures Draws(more, lo) && IsMove(more, lo, mill, a, newId, m)
  {
    assert Draws(more, |trace|);
    DrawsOn(trace, more, lo);
    SentMoves(trace, more, lo, mill, a, newId, m);
  }

  lemma SentMoves(trace: seq<Event>, more: seq<Event>, lo: nat, mill: NodeId, a: Active, newId: AllocId, m: Move)
    requires lo <= |trace| && trace < more && Tried(trace, lo, a, newId, true, m)
    requires Quiet(more, |trace|, |more| - 1) && m.stop == |more| - 1 && StopsAt(more, mill, a.id, m.stop)
    ensures IsMove(more, lo, mill, a, newId, m)
  {
    if m.Replaced? {
      StaysStarted(trace, more, m.read + 1, m.read + 1, a.name, trace[m.read].def.value, newId, m.launch);
    }
  }

  // ----- The drain -----

  datatype DrainResult = NotProposed | Refused(reason: Rejection) | Drained

  /**
   The course of a drain: committed by event `begun`; the volumes of the node were detached; the
   allocations `listed` were read by event `seen` to run on the node, then named `mill`; each got its move.
   */
  datatype DrainCourse = DrainCourse(
    begun: nat, d: Detachment, seen: nat, mill: NodeId, listed: seq<Active>, moves: seq<Move>)

  ghost predicate AllMoved(
    trace: seq<Event>, lo: nat, mill: NodeId, listed: seq<Active>, ids: AllocId -> AllocId, moves: seq<Move>)
  {
    && |moves| <= |listed|
    && forall i | 0 <= i < |moves| :: IsMove(trace, lo, mill, listed[i], ids(listed[i].id), moves[i])
  }

  /** The orders to stop that belong to the moves. */
  ghost function StopList(mill: NodeId, listed: seq<Active>, moves: seq<Move>): seq<(AllocId, NodeId)>
    requires |moves| <= |listed|
  {
    if moves == [] then []
    else
      var n := |moves| - 1;
      StopList(mill, listed, moves[..n]) + if moves[n].Kept? then [] else [(listed[n].id, mill)]
  }

  /** Everything that is done to the listed allocations. */
  ghost predicate AllDrawn(
    trace: seq<Event>, lo: nat, mill: NodeId, listed: seq<Active>, ids: AllocId -> AllocId, moves: seq<Move>)
  {
    && lo <= |trace| && Draws(trace, lo)
    && AllMoved(trace, lo, mill, listed, ids, moves)
    && Stops(trace, lo, |trace|) == StopList(mill, listed, moves)
  }

  /** What a drain does after its proposal was accepted. */
  ghost predicate IsRest(trace: seq<Event>, lo: nat, node: RaftId, ids: AllocId -> AllocId, c: DrainCourse) {
    && Detached(trace, lo, node, c.d) && c.d.hi <= c.seen < |trace| && Quiet(trace, c.d.hi, c.seen)
    && trace[c.seen] == RunningOn(node, c.mill, c.listed)
    && |c.moves| == |c.listed| && AllDrawn(trace, c.seen + 1, c.mill, c.listed, ids, c.moves)
  }

  /** Everything a completed drain does. */
  ghost predicate IsDrain(trace: seq<Event>, lo: nat, node: RaftId, ids: AllocId -> AllocId, c: DrainCourse) {
    && lo <= c.begun < |trace|
    && Quiet(trace, lo, c.begun) && trace[c.begun] == Proposed(NodeDrain(node), true)
    && IsRest(trace, c.begun + 1, node, ids, c)
  }

  /** The proposal, and whether it was accepted. */
  ghost predicate ProposesDrain(states: seq<FsmState>, trace: seq<Event>, lo: nat, node: RaftId, r: DrainResult) {
    && lo < |trace| < |states| && Quiet(trace, lo, |trace| - 1)
    && trace[|trace| - 1] == Proposed(NodeDrain(node), !r.NotProposed?)
    && (r.Refused? ==> node !in states[|trace|].nodes && r.reason == UnknownNode(node))
    && (r.Drained? ==> node in states[|trace| - 1].nodes)
  }

  method ProposeDrain(ctx: Ctx, node: RaftId) returns (r: DrainResult)
    requires ctx.Valid()
    modifies ctx
    ensures ctx.Valid() && old(ctx.trace) < ctx.trace && old(ctx.states) <= ctx.states
    ensures ProposesDrain(ctx.states, ctx.trace, |old(ctx.trace)|, node, r)
  {
    var response := ctx.Propose(NodeDrain(node));
    r := if response.None? then NotProposed
         else if response.value.Rejected? then Refused(response.value.why)
         else Drained;
    assert Happens(ctx.states, ctx.trace, |ctx.trace| - 1);
  }

  /** A completed drain of a node that was registered. */
  ghost predicate DrainedAs(
    states: seq<FsmState>, trace: seq<Event>, lo: nat, node: RaftId, ids: AllocId -> AllocId, driver: Driver,
    c: DrainCourse)
  {
    && IsDrain(trace, lo, node, ids, c) && c.d.driver == driver
    && |trace| < |states| && node in states[c.begun].nodes
  }

  method DrainNode(ctx: Ctx, node: RaftId, ids: AllocId -> AllocId, driver: Driver)
    returns (r: DrainResult, ghost c: DrainCourse)
    requires ctx.Valid()
    modifies ctx
    ensures ctx.Valid() && old(ctx.trace) < ctx.trace && old(ctx.states) <= ctx.states
    ensures !r.Drained? ==> ProposesDrain(ctx.states, ctx.trace, |old(ctx.trace)|, node, r)
    ensures r.Drained? ==> DrainedAs(ctx.states, ctx.trace, |old(ctx.trace)|, node, ids, driver, c)
  {
    c := DrainCourse(0, Detachment(driver, 0, 0, [], 0), 0, NodeId(""), [], []);
    r := ProposeDrain(ctx, node);
    if r.Drained? {
      c := FinishDrain(ctx, node, ids, driver, |old(ctx.trace)|);
    }
  }

  /** The drain after it was accepted. */
  method FinishDrain(ctx: Ctx, node: RaftId, ids: AllocId -> AllocId, driver: Driver, ghost lo: nat)
    returns (ghost c: DrainCourse)
    requires ctx.Valid() && ProposesDrain(ctx.states, ctx.trace, lo, node, Drained)
    modifies ctx
    ensures ctx.Valid() && old(ctx.trace) < ctx.trace && old(ctx.states) <= ctx.states
    ensures DrainedAs(ctx.states, ctx.trace, lo, node, ids, driver, c)
  {
    c := DrainAccepted(ctx, node, ids, driver);
    c := RestIsDrain(old(ctx.trace), ctx.trace, lo, node, ids, c);
  }

  lemma RestIsDrain(
    trace: seq<Event>, more: seq<Event>, lo: nat, node: RaftId, ids: AllocId -> AllocId, rest: DrainCourse)
    returns (c: DrainCourse)
    requires lo < |trace| && trace <= more && Quiet(trace, lo, |trace| - 1)
    requires trace[|trace| - 1] == Proposed(NodeDrain(node), true) && IsRest(more, |trace|, node, ids, rest)
    ensures c.begun == |trace| - 1 && c.d == rest.d && IsDrain(more, lo, node, ids, c)
  {
    c := rest.(begun := |trace| - 1);
    assert forall k | lo <= k < |trace| :: more[k] == trace[k];
  }

  method DrainAccepted(ctx: Ctx, node: RaftId, ids: AllocId -> AllocId, driver: Driver) returns (ghost c: DrainCourse)
    requires ctx.Valid()
    modifies ctx
    ensures ctx.Valid() && old(ctx.trace) < ctx.trace && old(ctx.states) <= ctx.states
    ensures IsRest(ctx.trace, |old(ctx.trace)|, node, ids, c) && c.d.driver == driver
  {
    var mill, listed, d := Empty(ctx, node, driver);
    ghost var trace := ctx.trace;
    var moves := MoveAll(ctx, mill, listed, ids);
    c := NowRest(trace, ctx.trace, |old(ctx.trace)|, node, ids, d, mill, listed, moves);
  }

  /** The volumes are detached and what runs on the node is read. */
  ghost predicate Emptied(
    trace: seq<Event>, lo: nat, node: RaftId, d: Detachment, mill: NodeId, listed: seq<Active>)
  {
    && Detached(trace, lo, node, d) && d.hi < |trace| && Quiet(trace, d.hi, |trace| - 1)
    && trace[|trace| - 1] == RunningOn(node, mill, listed)
  }

  method Empty(ctx: Ctx, node: RaftId, driver: Driver)
    returns (mill: NodeId, listed: seq<Active>, ghost d: Detachment)
    requires ctx.Valid()
    modifies ctx
    ensures ctx.Valid() && old(ctx.trace) < ctx.trace && old(ctx.states) <= ctx.states
    ensures Emptied(ctx.trace, |old(ctx.trace)|, node, d, mill, listed) && d.driver == driver
  {
    d := DetachVolumes(ctx, node, driver);
    ghost var trace := ctx.trace;
    mill, listed := ReadRunning(ctx, node);
    DetachmentStays(trace, ctx.trace, |old(ctx.trace)|, node, d);
  }

  method ReadRunning(ctx: Ctx, node: RaftId) returns (mill: NodeId, listed: seq<Active>)
    requires ctx.Valid()
    modifies ctx
    ensures ctx.Valid() && old(ctx.trace) < ctx.trace && old(ctx.states) <= ctx.states
    ensures Quiet(ctx.trace, |old(ctx.trace)|, |ctx.trace| - 1)
    ensures ctx.trace[|ctx.trace| - 1] == RunningOn(node, mill, listed)
  {
    var quiet := ctx.Await();
    mill, listed := ListRunning(ctx.fsm, node);
    ctx.Note(RunningOn(node, mill, listed));
  }

  lemma NowRest(
    read: seq<Event>, trace: seq<Event>, lo: nat, node: RaftId, ids: AllocId -> AllocId, d: Detachment, mill: NodeId,
    listed: seq<Active>, moves: seq<Move>)
    returns (c: DrainCourse)
    requires read <= trace && Emptied(read, lo, node, d, mill, listed)
    requires |moves| == |listed| && AllDrawn(trace, |read|, mill, listed, ids, moves)
    ensures IsRest(trace, lo, node, ids, c) && c.d == d
  {
    c := DrainCourse(0, d, |read| - 1, mill, listed, moves);
    DetachmentStays(read, trace, lo, node, d);
    assert forall k | d.hi <= k < |read| :: trace[k] == read[k];
  }

  /** Move the allocations one after the other, going on after failures. */
  method MoveAll(ctx: Ctx, mill: NodeId, listed: seq<Active>, ids: AllocId -> AllocId) returns (ghost moves: seq<Move>)
    requires ctx.Valid()
    modifies ctx
    ensures ctx.Valid() && old(ctx.trace) <= ctx.trace && old(ctx.states) <= ctx.states
    ensures |moves| == |listed| && AllDrawn(ctx.trace, |old(ctx.trace)|, mill, listed, ids, moves)
  {
    moves := [];
    for i := 0 to |listed|
      invariant |moves| == i
      invariant ctx.Valid() && old(ctx.trace) <= ctx.trace && old(ctx.states) <= ctx.states
      invariant AllDrawn(ctx.trace, |old(ctx.trace)|, mill, listed, ids, moves)
    {
      ghost var trace := ctx.trace;
      var m := MoveAlloc(ctx, mill, listed[i], ids(listed[i].id));
      OneMoreDrawn(trace, ctx.trace, |old(ctx.trace)|, mill, listed, ids, moves, m);
      moves := moves + [m];
    }
  }

  lemma OneMoreDrawn(
    trace: seq<Event>, more: seq<Event>, lo: nat, mill: NodeId, listed: seq<Active>, ids: AllocId -> AllocId,
    moves: seq<Move>, m: Move)
    requires trace <= more && AllDrawn(trace, lo, mill, listed, ids, moves) && |moves| < |listed|
    requires MovedAs(more, |trace|, mill, listed[|moves|], ids(listed[|moves|].id), m)
    ensures AllDrawn(more, lo, mill, listed, ids, moves + [m])
  {
    DrawsOn(trace, more, lo);
    NextMove(trace, more, lo, mill, listed, ids, moves, m);
    NextStop(trace, more, lo, mill, listed, moves, m);
  }

  lemma NextMove(
    trace: seq<Event>, more: seq<Event>, lo: nat, mill: NodeId, listed: seq<Active>, ids: AllocId -> AllocId,
    moves: seq<Move>, m: Move)
    requires trace <= more && lo <= |trace| && AllMoved(trace, lo, mill, listed, ids, moves) && |moves| < |listed|
    requires IsMove(more, |trace|, mill, listed[|moves|], ids(listed[|moves|].id), m)
    ensures AllMoved(more, lo, mill, listed, ids, moves + [m])
  {
    forall i | 0 <= i < |moves| ensures IsMove(more, lo, mill, listed[i], ids(listed[i].id), moves[i]) {
      MoveStays(trace, more, lo, lo, mill, listed[i], ids(listed[i].id), moves[i]);
    }
    MoveStays(more, more, |trace|, lo, mill, listed[|moves|], ids(listed[|moves|].id), m);
  }

  lemma NextStop(trace: seq<Event>, more: seq<Event>, lo: nat, mill: NodeId, listed: seq<Active>, moves: seq<Move>, m: Move)
    requires trace <= more && lo <= |trace| && |moves| < |listed|
    requires Stops(trace, lo, |trace|) == StopList(mill, listed, moves)
    requires Stops(more, |trace|, |more|) == if m.Kept? then [] else [(listed[|moves|].id, mill)]
    ensures Stops(more, lo, |more|) == StopList(mill, listed, moves + [m])
  {
    StopsStay(trace, more, lo, |trace|);
    StopsConcat(more, lo, |trace|, |more|);
    assert (moves + [m])[..|moves|] == moves;
  }

  lemma {:induction false} StopsConcat(trace: seq<Event>, lo: nat, mid: nat, hi: nat)
    requires lo <= mid <= hi <= |trace|
    ensures Stops(trace, lo, hi) == Stops(trace, lo, mid) + Stops(trace, mid, hi)
    decreases hi
  {
    if mid < hi {
      StopsConcat(trace, lo, mid, hi - 1);
    }
  }

  /** Remove a node; the state machine refuses while something runs there. */
  method RemoveNode(ctx: Ctx, node: RaftId) returns (removed: bool)
    requires ctx.Valid()
    modifies ctx
    ensures ctx.Valid() && old(ctx.trace) < ctx.trace && old(ctx.states) <= ctx.states
    ensures Quiet(ctx.trace, |old(ctx.trace)|, |ctx.trace| - 1)
    ensures ctx.trace[|ctx.trace| - 1].Proposed? && ctx.trace[|ctx.trace| - 1].command == NodeRemove(node)
    ensures var s := ctx.states[|ctx.trace| - 1];
            && (removed <==>
                  && ctx.trace[|ctx.trace| - 1].ok
                  && node in s.nodes && !Fsm.HasActive(s.allocs, s.nodes[node].millId))
            && (removed ==>
                  && node !in ctx.fsm.nodes
                  && forall a | a in ctx.fsm.allocs :: ctx.fsm.allocs[a].node != s.nodes[node].millId)
            && (!removed ==> ctx.fsm == s)
  {
    var response := ctx.Propose(NodeRemove(node));
    removed := response == Some(Accepted);
    assert Happens(ctx.states, ctx.trace, |ctx.trace| - 1);
  }
}
