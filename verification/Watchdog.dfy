/**
 The watchdog: proposing nodes down after missed heartbeats, failing their allocations,
 and restarting under-replicated services with backoff. A tick is one atomic step.
 */
module Watchdog {
  import opened Types
  import Fsm

  // ----- Heartbeats -----

  function Elapsed(from: Time, to: Time): nat {
    if to < from then 0 else to - from
  }

  /** When each registered node was first seen; ids no longer registered are forgotten. */
  function Discover(s: FsmState, discovered: map<RaftId, Time>, now: Time): map<RaftId, Time> {
    map id | id in s.nodes :: if id in discovered then discovered[id] else now
  }

  /** Heartbeat times of discovered nodes that are no longer registered are dropped. */
  function Track(s: FsmState, tracker: map<RaftId, Time>, discovered: map<RaftId, Time>): map<RaftId, Time> {
    map id | id in tracker && (id in s.nodes || id !in discovered) :: tracker[id]
  }

  /** Ready, and neither heard of nor newly discovered within the timeout. */
  predicate Late(s: FsmState, tracker: map<RaftId, Time>, discovered: map<RaftId, Time>, now: Time, timeout: nat, id: RaftId)
    requires id in s.nodes && id in discovered
  {
    s.nodes[id].status == Ready
    && Elapsed(if id in tracker then tracker[id] else discovered[id], now) >= timeout
  }

  function NodeIsDown(): AllocStatus {
    Failed("node down")
  }

  /** The allocation runs on a node of the set. */
  predicate OnDowned(s: FsmState, down: set<RaftId>, a: Alloc)
    requires down <= s.nodes.Keys
  {
    !a.status.IsTerminal() && exists id | id in down :: s.nodes[id].millId == a.node
  }

  /** The nodes are down and their running allocations, where accepted, failed. */
  function TakenDown(s: FsmState, down: set<RaftId>, accepted: Command -> bool): FsmState
    requires down <= s.nodes.Keys
  {
    s.(nodes := map id | id in s.nodes ::
                  if id in down then s.nodes[id].(status := Down) else s.nodes[id],
       allocs := map id | id in s.allocs ::
                   if OnDowned(s, down, s.allocs[id]) && accepted(SetAllocStatus(id, NodeIsDown()))
                   then s.allocs[id].(status := NodeIsDown()) else s.allocs[id])
  }

  /** What the heartbeat checks read and change. */
  datatype Monitor = Monitor(fsm: FsmState, tracker: map<RaftId, Time>, discovered: map<RaftId, Time>)

  /** The nodes a tick proposes to take down. */
  function Proposed(v: Monitor, now: Time, timeout: nat): set<RaftId> {
    var discovered := Discover(v.fsm, v.discovered, now);
    set id | id in v.fsm.nodes && Late(v.fsm, Track(v.fsm, v.tracker, v.discovered), discovered, now, timeout, id)
  }

  /** One heartbeat check; `accepted` says which proposals consensus accepts. */
  function Ticked(v: Monitor, now: Time, timeout: nat, accepted: Command -> bool): Monitor {
    var down := set id | id in Proposed(v, now, timeout) && accepted(NodeDown(id));
    Monitor(TakenDown(v.fsm, down, accepted), Track(v.fsm, v.tracker, v.discovered), Discover(v.fsm, v.discovered, now))
  }

  // ----- Restarts -----

  datatype RestartState = RestartState(attempts: nat, lastAttemptAt: Time)

  /** Times are counted in nanoseconds. */
  const SECOND: nat := 1_000_000_000

  /** 1, 5, 30 and then 60 seconds. */
  function Backoff(attempts: nat): nat {
    match attempts
    case 0 => 1 * SECOND
    case 1 => 5 * SECOND
    case 2 => 30 * SECOND
    case _ => 60 * SECOND
  }

  function ActiveIds(allocs: map<AllocId, Alloc>, name: string): set<AllocId> {
    set id | id in allocs && allocs[id].name == name && allocs[id].status.IsActive()
  }

  function NonTerminalIds(allocs: map<AllocId, Alloc>, name: string): set<AllocId> {
    set id | id in allocs && allocs[id].name == name && !allocs[id].status.IsTerminal()
  }

  /** What a tick does for one service: its next backoff state and how many replicas it starts. */
  function RestartTick(state: Option<RestartState>, active: nat, nonTerminal: nat, replicas: nat, now: Time):
    (Option<RestartState>, nat)
  {
    if active >= replicas then (None, 0)
    else if nonTerminal >= replicas then (state, 0)
    else
      match state
      case None => (Some(RestartState(0, now)), 0)
      case Some(r) =>
        if Elapsed(r.lastAttemptAt, now) < Backoff(r.attempts) then (state, 0)
        else (Some(RestartState(r.attempts + 1, now)), replicas - active)
  }

  function Lookup(m: map<string, RestartState>, name: string): Option<RestartState> {
    if name in m then Some(m[name]) else None
  }

  function ServiceTick(s: FsmState, state: Option<RestartState>, name: string, now: Time):
    (Option<RestartState>, nat)
    requires name in ServicesOf(s.config)
  {
    RestartTick(state, |ActiveIds(s.allocs, name)|, |NonTerminalIds(s.allocs, name)|,
                ServicesOf(s.config)[name].replicas, now)
  }

  /** The backoff states a tick leaves; those of services no longer configured are dropped. */
  function Restarted(s: FsmState, backoff: map<string, RestartState>, now: Time): map<string, RestartState> {
    map name | name in ServicesOf(s.config) && ServiceTick(s, Lookup(backoff, name), name, now).0.Some? ::
      ServiceTick(s, Lookup(backoff, name), name, now).0.value
  }

  class Watchdog {
    var fsm: FsmState
    var tracker: map<RaftId, Time>
    var discovered: map<RaftId, Time>
    var backoff: map<string, RestartState>

    constructor (fsm: FsmState)
      ensures this.fsm == fsm && tracker == map[] && discovered == map[] && backoff == map[]
    {
      this.fsm := fsm;
      tracker, discovered, backoff := map[], map[], map[];
    }

    function View(): Monitor
      reads this
    {
      Monitor(fsm, tracker, discovered)
    }

    /** Note a heartbeat of a node. */
    method Record(id: RaftId, now: Time)
      modifies this`tracker
      ensures tracker == old(tracker)[id := now]
    {
      tracker := tracker[id := now];
    }

    /** Propose a command; only an accepted one takes effect. */
    method Propose(c: Command, accepted: Command -> bool) returns (ok: bool)
      modifies this`fsm
      ensures ok == accepted(c)
      ensures fsm == if ok then Fsm.Apply(old(fsm), c).0 else old(fsm)
    {
      ok := accepted(c);
      if ok {
        fsm := Fsm.Apply(fsm, c).0;
      }
    }

    /** Phase 1: propose silent nodes down and fail what ran on them, in any order of the nodes. */
    method CheckHeartbeats(now: Time, timeout: nat, accepted: Command -> bool)
      modifies this`fsm, this`tracker, this`discovered, this`backoff
      ensures View() == Ticked(old(View()), now, timeout, accepted)
      ensures backoff == old(backoff)
                         - ServicesOn(old(fsm), set id | id in Proposed(old(View()), now, timeout) && accepted(NodeDown(id)))
    {
      var seen := fsm;
      tracker := Track(fsm, tracker, discovered);
      discovered := Discover(fsm, discovered, now);
      var track, disc := tracker, discovered;
      ghost var late, down := set id | id in Proposed(old(View()), now, timeout) && accepted(NodeDown(id)), {};
      NothingDown(seen, accepted);
      var todo := seen.nodes.Keys;
      while todo != {}
        invariant todo <= seen.nodes.Keys && down == late - todo
        invariant tracker == track && discovered == disc
        invariant fsm == TakenDown(seen, down, accepted)
        invariant backoff == old(backoff) - ServicesOn(seen, down)
        decreases |todo|
      {
        var id :| id in todo;
        MoveOne(late, todo, id);
        todo := todo - {id};
        if Late(seen, track, disc, now, timeout, id) {
          var ok := TakeDown(seen, down, id, accepted, old(backoff));
          if ok {
            down := down + {id};
          }
        }
      }
      assert down == late;
    }

    /** One silent node: propose it down and, if accepted, fail what runs on it. */
    method TakeDown(
      seen: FsmState, ghost down: set<RaftId>, id: RaftId, accepted: Command -> bool,
      ghost before: map<string, RestartState>)
      returns (ok: bool)
      requires down <= seen.nodes.Keys && id in seen.nodes && fsm == TakenDown(seen, down, accepted)
      requires backoff == before - ServicesOn(seen, down)
      modifies this`fsm, this`backoff
      ensures ok == accepted(NodeDown(id))
      ensures fsm == TakenDown(seen, if ok then down + {id} else down, accepted)
      ensures backoff == before - ServicesOn(seen, if ok then down + {id} else down)
    {
      ok := Propose(NodeDown(id), accepted);
      if ok {
        DownStep(seen, down, id, accepted);
        ServicesStep(seen, down, id, accepted);
        ghost var names := ServiceNames(fsm.allocs, RunningOn(fsm.allocs, seen.nodes[id].millId));
        DropTwice(before, ServicesOn(seen, down), names);
        MarkNodeAllocsFailed(seen.nodes[id].millId, accepted);
      }
    }

    /** Fail every running allocation of a node, in any order; reset the backoff of its services. */
    method MarkNodeAllocsFailed(mill: NodeId, accepted: Command -> bool)
      modifies this`fsm, this`backoff
      ensures fsm == old(fsm).(allocs := FailedAmong(old(fsm).allocs, RunningOn(old(fsm).allocs, mill), accepted))
      ensures backoff == old(backoff) - ServiceNames(old(fsm).allocs, RunningOn(old(fsm).allocs, mill))
    {
      var seen := fsm.allocs;
      var all := RunningOn(seen, mill);
      var todo := all;
      ghost var done: set<AllocId> := {};
      assert FailedAmong(seen, done, accepted) == seen;
      while todo != {}
        invariant todo <= all && done == all - todo
        invariant fsm.allocs == FailedAmong(seen, done, accepted) && fsm.(allocs := seen) == old(fsm)
        invariant backoff == old(backoff) - ServiceNames(seen, done)
        decreases |todo|
      {
        var id :| id in todo;
        MoveOne(all, todo, id);
        todo := todo - {id};
        FailOne(seen, done, id, accepted, old(backoff));
        done := done + {id};
      }
      assert done == all;
    }

    /** Phase 2: how many replicas of each service to start, the services taken in any order. */
    method CheckServiceRestarts(now: Time) returns (dispatched: map<string, nat>)
      modifies this`backoff
      ensures backoff == Restarted(fsm, old(backoff), now)
      ensures dispatched.Keys == ServicesOf(fsm.config).Keys
      ensures forall name | name in dispatched :: dispatched[name] == ServiceTick(fsm, Lookup(old(backoff), name), name, now).1
    {
      var names := ServicesOf(fsm.config).Keys;
      backoff := Retain(backoff, names);
      RetainKeeps(old(backoff), names);
      dispatched := RestartServices(names, now);
      AllRestarted(fsm, old(backoff), backoff, now);
    }

    method RestartServices(names: set<string>, now: Time) returns (dispatched: map<string, nat>)
      requires names == ServicesOf(fsm.config).Keys && backoff.Keys <= names
      modifies this`backoff
      ensures dispatched.Keys == names && backoff.Keys <= names
      ensures forall name | name in names ::
                (Lookup(backoff, name), dispatched[name]) == ServiceTick(fsm, Lookup(old(backoff), name), name, now)
    {
      dispatched := map[];
      var todo := names;
      while todo != {}
        invariant todo <= names && backoff.Keys <= names && dispatched.Keys == names - todo
        invariant forall name | name in todo :: Lookup(backoff, name) == Lookup(old(backoff), name)
        invariant forall name | name in dispatched ::
            (Lookup(backoff, name), dispatched[name]) == ServiceTick(fsm, Lookup(old(backoff), name), name, now)
        decreases |todo|
      {
        var name :| name in todo;
        todo := todo - {name};
        var started := RestartService(name, now);
        dispatched := dispatched[name := started];
      }
    }

    method RestartService(name: string, now: Time) returns (started: nat)
      requires name in ServicesOf(fsm.config) && backoff.Keys <= ServicesOf(fsm.config).Keys
      modifies this`backoff
      ensures (Lookup(backoff, name), started) == ServiceTick(fsm, Lookup(old(backoff), name), name, now)
      ensures backoff.Keys <= ServicesOf(fsm.config).Keys
      ensures forall other | other != name :: Lookup(backoff, other) == Lookup(old(backoff), other)
    {
      var active, nonTerminal := |ActiveIds(fsm.allocs, name)|, |NonTerminalIds(fsm.allocs, name)|;
      var replicas := ServicesOf(fsm.config)[name].replicas;
      started := 0;
      if active >= replicas {
        backoff := backoff - {name};
      } else if nonTerminal < replicas {
        if name !in backoff {
          backoff := backoff[name := RestartState(0, now)];
        } else if Elapsed(backoff[name].lastAttemptAt, now) >= Backoff(backoff[name].attempts) {
          backoff := backoff[name := RestartState(backoff[name].attempts + 1, now)];
          started := replicas - active;
        }
      }
    }

    /** One running allocation of a down node: propose it failed, reset the backoff of its service. */
    method FailOne(
      seen: map<AllocId, Alloc>, ghost done: set<AllocId>, id: AllocId, accepted: Command -> bool,
      ghost before: map<string, RestartState>)
      requires done <= seen.Keys && id in seen && id !in done
      requires fsm.allocs == FailedAmong(seen, done, accepted)
      requires backoff == before - ServiceNames(seen, done)
      modifies this`fsm, this`backoff
      ensures fsm == old(fsm).(allocs := FailedAmong(seen, done + {id}, accepted))
      ensures backoff == before - ServiceNames(seen, done + {id})
    {
      FailStep(seen, done, id, accepted);
      var ok := Propose(SetAllocStatus(id, NodeIsDown()), accepted);
      if seen[id].kind == Service {
        DropTwice(before, ServiceNames(seen, done), {seen[id].name});
        backoff := backoff - {seen[id].name};
      }
    }
  }

  function Retain(m: map<string, RestartState>, names: set<string>): map<string, RestartState> {
    map name | name in m && name in names :: m[name]
  }

  lemma RetainKeeps(m: map<string, RestartState>, names: set<string>)
    ensures Retain(m, names).Keys <= names
    ensures forall name | name in names :: Lookup(Retain(m, names), name) == Lookup(m, name)
  {
  }

  lemma AllRestarted(s: FsmState, before: map<string, RestartState>, after: map<string, RestartState>, now: Time)
    requires after.Keys <= ServicesOf(s.config).Keys
    requires forall name | name in ServicesOf(s.config) :: Lookup(after, name) == ServiceTick(s, Lookup(before, name), name, now).0
    ensures after == Restarted(s, before, now)
  {
    forall name | name in ServicesOf(s.config)
      ensures name in after <==> name in Restarted(s, before, now)
      ensures name in after ==> after[name] == Restarted(s, before, now)[name]
    {
      assert Lookup(after, name) == ServiceTick(s, Lookup(before, name), name, now).0;
    }
  }

  lemma MoveOne<T>(all: set<T>, todo: set<T>, x: T)
    requires x in todo
    ensures all - (todo - {x}) == if x in all then all - todo + {x} else all - todo
  {
  }

  /** The running allocations of a node. */
  function RunningOn(allocs: map<AllocId, Alloc>, mill: NodeId): set<AllocId> {
    set id | id in allocs && allocs[id].node == mill && !allocs[id].status.IsTerminal()
  }

  function FailedAmong(allocs: map<AllocId, Alloc>, ids: set<AllocId>, accepted: Command -> bool): map<AllocId, Alloc> {
    map id | id in allocs ::
      if id in ids && accepted(SetAllocStatus(id, NodeIsDown()))
      then allocs[id].(status := NodeIsDown()) else allocs[id]
  }

  function ServiceNames(allocs: map<AllocId, Alloc>, ids: set<AllocId>): set<string>
    requires ids <= allocs.Keys
  {
    set id | id in ids && allocs[id].kind == Service :: allocs[id].name
  }

  /** The services with a running allocation on a node of the set. */
  function ServicesOn(s: FsmState, down: set<RaftId>): set<string>
    requires down <= s.nodes.Keys
  {
    set a | a in s.allocs && OnDowned(s, down, s.allocs[a]) && s.allocs[a].kind == Service :: s.allocs[a].name
  }

  lemma FailStep(allocs: map<AllocId, Alloc>, done: set<AllocId>, id: AllocId, accepted: Command -> bool)
    requires done <= allocs.Keys && id in allocs && id !in done
    ensures var before := FailedAmong(allocs, done, accepted);
            && before[id] == allocs[id]
            && FailedAmong(allocs, done + {id}, accepted)
               == (if accepted(SetAllocStatus(id, NodeIsDown())) then before[id := allocs[id].(status := NodeIsDown())]
                   else before)
    ensures ServiceNames(allocs, done + {id})
            == if allocs[id].kind == Service then ServiceNames(allocs, done) + {allocs[id].name}
               else ServiceNames(allocs, done)
  {
  }

  lemma DropTwice(m: map<string, RestartState>, a: set<string>, b: set<string>)
    ensures m - a - b == m - (a + b)
  {
  }

  lemma NothingDown(s: FsmState, accepted: Command -> bool)
    ensures TakenDown(s, {}, accepted) == s && ServicesOn(s, {}) == {}
  {
  }

  /** Taking down one more node: exactly its own running allocations fail in addition. */
  lemma DownStep(s: FsmState, down: set<RaftId>, id: RaftId, accepted: Command -> bool)
    requires down <= s.nodes.Keys && id in s.nodes
    ensures var before := TakenDown(s, down, accepted);
            var after := Fsm.Apply(before, NodeDown(id)).0;
            after.(allocs := FailedAmong(after.allocs, RunningOn(after.allocs, s.nodes[id].millId), accepted))
            == TakenDown(s, down + {id}, accepted)
  {
    var before, all := TakenDown(s, down, accepted), TakenDown(s, down + {id}, accepted);
    var allocs := before.allocs;
    forall a | a in s.allocs
      ensures FailedAmong(allocs, RunningOn(allocs, s.nodes[id].millId), accepted)[a] == all.allocs[a]
    {
      OnDownedStep(s, down, id, s.allocs[a]);
    }
  }

  lemma OnDownedStep(s: FsmState, down: set<RaftId>, id: RaftId, a: Alloc)
    requires down <= s.nodes.Keys && id in s.nodes
    ensures OnDowned(s, down + {id}, a) <==>
            OnDowned(s, down, a) || (!a.status.IsTerminal() && s.nodes[id].millId == a.node)
  {
  }

  lemma ServicesStep(s: FsmState, down: set<RaftId>, id: RaftId, accepted: Command -> bool)
    requires down <= s.nodes.Keys && id in s.nodes
    ensures var allocs := TakenDown(s, down, accepted).allocs;
            ServicesOn(s, down) + ServiceNames(allocs, RunningOn(allocs, s.nodes[id].millId))
            == ServicesOn(s, down + {id})
  {
    var allocs := TakenDown(s, down, accepted).allocs;
    var names := ServiceNames(allocs, RunningOn(allocs, s.nodes[id].millId));
    forall name | name in ServicesOn(s, down + {id}) ensures name in ServicesOn(s, down) + names {
      var a :| a in s.allocs && OnDowned(s, down + {id}, s.allocs[a]) && s.allocs[a].kind == Service
               && s.allocs[a].name == name;
      OnDownedStep(s, down, id, s.allocs[a]);
      if !OnDowned(s, down, s.allocs[a]) {
        assert a in RunningOn(allocs, s.nodes[id].millId) && allocs[a] == s.allocs[a];
      }
    }
    forall name | name in names ensures name in ServicesOn(s, down + {id}) {
      var a :| a in RunningOn(allocs, s.nodes[id].millId) && allocs[a].kind == Service && allocs[a].name == name;
      OnDownedStep(s, down, id, s.allocs[a]);
    }
    forall name | name in ServicesOn(s, down) ensures name in ServicesOn(s, down + {id}) {
      var a :| a in s.allocs && OnDowned(s, down, s.allocs[a]) && s.allocs[a].kind == Service
               && s.allocs[a].name == name;
      OnDownedStep(s, down, id, s.allocs[a]);
    }
  }
}
