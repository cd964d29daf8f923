/**
 Containers on one node: starting, stopping, exit waiters and recovery, as steps of
 one lock region each. One thread executes recovery and then commands; every started
 container has an exit waiter that runs on its own.
 */
module Runner {
  import opened Types
  import opened Ports

  datatype Local = Local(status: AllocStatus, hostPort: Option<nat>)

  datatype Phase = Waiting | Marked | Freed

  datatype Waiter = Waiter(id: AllocId, port: Option<nat>, phase: Phase)

  /** Where the command thread is. */
  datatype Thread =
    | Idle
    | Preparing(id: AllocId, exposes: bool)
    | Holding(id: AllocId, port: Option<nat>, recovered: bool)
    | Inserted(id: AllocId, port: Option<nat>)
    | Stopping(id: AllocId, port: Option<nat>)
    | Removing(id: AllocId)

  /** `used` are the ids that have ever been started or recovered. */
  datatype State = State(
    pool: Pool, allocs: map<AllocId, Local>, thread: Thread, waiters: map<nat, Waiter>, spawned: nat,
    used: set<AllocId>)

  datatype Step =
    | RunBegin(id: AllocId, exposes: bool)             // not already running
    | RunAllocate                                      // take a port, or give up
    | RunFail                                          // the runtime refused: release the port
    | Insert                                           // record the allocation
    | Spawn                                            // start its exit waiter
    | StopBegin(id: AllocId)                           // read the port from the record
    | StopRelease
    | StopRemove
    | Exit(waiter: nat, code: int)                     // set the terminal status
    | WaiterRelease(waiter: nat)
    | WaiterRemove(waiter: nat)
    | RecoverReserve(id: AllocId, port: Option<nat>)   // take a specific port again

  ghost predicate Enabled(s: State, step: Step) {
    match step
    case RunBegin(_, _) => s.thread.Idle?
    case RecoverReserve(_, _) => s.thread.Idle?
    case RunAllocate => s.thread.Preparing?
    case RunFail => s.thread.Holding? && !s.thread.recovered
    case Insert => s.thread.Holding?
    case Spawn => s.thread.Inserted?
    case StopBegin(_) => s.thread.Idle?
    case StopRelease => s.thread.Stopping?
    case StopRemove => s.thread.Removing?
    case Exit(k, _) => k in s.waiters && s.waiters[k].phase.Waiting?
    case WaiterRelease(k) => k in s.waiters && s.waiters[k].phase.Marked?
    case WaiterRemove(k) => k in s.waiters && s.waiters[k].phase.Freed?
  }

  function HostPort(allocs: map<AllocId, Local>, id: AllocId): Option<nat> {
    if id in allocs then allocs[id].hostPort else None
  }

  function ReleaseIfAny(pool: Pool, port: Option<nat>): Pool {
    if port.Some? then Release(pool, port.value) else pool
  }

  function ExitStatus(code: int): AllocStatus {
    if code == 0 then Stopped(code) else Failed("exit code")
  }

  function SetStatus(allocs: map<AllocId, Local>, id: AllocId, status: AllocStatus): map<AllocId, Local> {
    if id in allocs then allocs[id := allocs[id].(status := status)] else allocs
  }

  function InsertNew(allocs: map<AllocId, Local>, id: AllocId, port: Option<nat>): map<AllocId, Local> {
    if id in allocs then allocs else allocs[id := Local(Running, port)]
  }

  ghost function Reserve(pool: Pool, id: AllocId, port: Option<nat>): (Pool, bool) {
    if port.None? then (pool, true) else AllocateSpecific(pool, id, port.value)
  }

  ghost function After(s: State, step: Step): State
    requires Enabled(s, step)
  {
    match step
    case RunBegin(id, exposes) =>
      if id in s.allocs then s else s.(thread := Preparing(id, exposes), used := s.used + {id})
    case RunAllocate =>
      if !s.thread.exposes then s.(thread := Holding(s.thread.id, None, false))
      else
        var (pool, port) := Allocate(s.pool, s.thread.id);
        if port.None? then s.(thread := Idle)
        else s.(pool := pool, thread := Holding(s.thread.id, port, false))
    case RunFail => s.(pool := ReleaseIfAny(s.pool, s.thread.port), thread := Idle)
    case Insert =>
      s.(allocs := InsertNew(s.allocs, s.thread.id, s.thread.port), thread := Inserted(s.thread.id, s.thread.port))
    case Spawn =>
      s.(waiters := s.waiters[s.spawned := Waiter(s.thread.id, s.thread.port, Waiting)], spawned := s.spawned + 1,
         thread := Idle)
    case StopBegin(id) => s.(thread := Stopping(id, HostPort(s.allocs, id)))
    case StopRelease => s.(pool := ReleaseIfAny(s.pool, s.thread.port), thread := Removing(s.thread.id))
    case StopRemove => s.(allocs := s.allocs - {s.thread.id}, thread := Idle)
    case Exit(k, code) =>
      var w := s.waiters[k];
      s.(allocs := SetStatus(s.allocs, w.id, ExitStatus(code)), waiters := s.waiters[k := w.(phase := Marked)])
    case WaiterRelease(k) =>
      var w := s.waiters[k];
      s.(pool := ReleaseIfAny(s.pool, w.port), waiters := s.waiters[k := w.(phase := Freed)])
    case WaiterRemove(k) =>
      s.(allocs := s.allocs - {s.waiters[k].id}, waiters := s.waiters - {k})
    case RecoverReserve(id, port) =>
      s.(pool := Reserve(s.pool, id, port).0, thread := Holding(id, port, true), used := s.used + {id})
  }

  /** `run_container` without interruption; the image or the runtime may fail. */
  ghost function RunUninterrupted(s: State, id: AllocId, exposes: bool, imageReady: bool, runOk: bool): State
    requires s.thread.Idle?
  {
    if id in s.allocs then s
    else
      var s1 := After(s, RunBegin(id, exposes));
      if !imageReady then s1.(thread := Idle)
      else
        var s2 := After(s1, RunAllocate);
        if s2.thread.Idle? then s2
        else if !runOk then After(s2, RunFail)
        else After(After(s2, Insert), Spawn)
  }

  /** `stop_container` without interruption. */
  ghost function StopUninterrupted(s: State, id: AllocId): State
    requires s.thread.Idle?
  {
    After(After(After(s, StopBegin(id)), StopRelease), StopRemove)
  }

  /** The exit waiter's task without interruption. */
  ghost function ExitUninterrupted(s: State, k: nat, code: int): State
    requires k in s.waiters && s.waiters[k].phase.Waiting?
  {
    After(After(After(s, Exit(k, code)), WaiterRelease(k)), WaiterRemove(k))
  }

  /** Recovery of one container without interruption. */
  ghost function RecoverUninterrupted(s: State, id: AllocId, port: Option<nat>): State
    requires s.thread.Idle?
  {
    var s1 := After(s, RecoverReserve(id, port));
    if id in s.allocs then s1.(thread := Idle) else After(After(s1, Insert), Spawn)
  }

  /** What starting a prepared container comes to: no port, a refusal, or a recorded container. */
  ghost function Launched(s: State, id: AllocId, exposes: bool, runOk: bool): State
    requires id !in s.allocs
  {
    var (pool, port) := if exposes then Allocate(s.pool, id) else (s.pool, None);
    if exposes && port.None? then s
    else if !runOk then s.(pool := ReleaseIfAny(pool, port))
    else
      s.(pool := pool, allocs := s.allocs[id := Local(Running, port)],
         waiters := s.waiters[s.spawned := Waiter(id, port, Waiting)], spawned := s.spawned + 1)
  }

  lemma RunIsLaunched(s: State, id: AllocId, exposes: bool, runOk: bool)
    requires s.thread.Idle? && id !in s.allocs
    ensures RunUninterrupted(s, id, exposes, true, runOk) == Launched(s.(used := s.used + {id}), id, exposes, runOk)
  {
  }

  // ----- Port ownership -----

  /** In the map, not marked as ended by its waiter, and its port not just released by a stop. */
  predicate Live(s: State, id: AllocId) {
    id in s.allocs && !s.allocs[id].status.IsTerminal() && s.thread != Removing(id)
  }

  predicate ThreadHolds(s: State, id: AllocId, port: nat) {
    s.thread.Holding? && s.thread.id == id && s.thread.port == Some(port)
  }

  predicate HoldsPort(s: State, id: AllocId, port: nat) {
    (Live(s, id) && s.allocs[id].hostPort == Some(port)) || ThreadHolds(s, id, port)
  }

  /** Whoever holds a port is its recorded owner. */
  ghost predicate Owned(s: State) {
    forall id, port :: HoldsPort(s, id, port) ==> port in s.pool.owners && s.pool.owners[port] == id
  }

  ghost predicate Consistent(s: State) {
    && ValidPool(s.pool)
    && (forall p | p in s.pool.owners :: s.pool.owners[p] in s.used)
    && (forall k | k in s.waiters :: k < s.spawned && s.waiters[k].id in s.used)
    && (forall id | id in s.allocs :: id in s.used)
    && (forall k | k in s.waiters && !s.waiters[k].phase.Waiting? ::
          s.waiters[k].id in s.allocs ==> s.allocs[s.waiters[k].id].status.IsTerminal())
    && (s.thread.Preparing? || s.thread.Holding? ==>
          s.thread.id in s.used && s.thread.id !in s.allocs
          && forall k | k in s.waiters :: s.waiters[k].id != s.thread.id)
    && (s.thread.Inserted? ==>
          s.thread.id in s.used && forall k | k in s.waiters :: s.waiters[k].id != s.thread.id)
  }

  /** A port given back by a stop or an exit waiter is still that allocation's, or nobody's. */
  ghost predicate ReleasesOwn(s: State, step: Step)
    requires Enabled(s, step)
  {
    match step
    case StopRelease =>
      s.thread.port.Some? && s.thread.port.value in s.pool.owners ==>
        s.pool.owners[s.thread.port.value] == s.thread.id
    case WaiterRelease(k) =>
      var w := s.waiters[k];
      w.port.Some? && w.port.value in s.pool.owners ==> s.pool.owners[w.port.value] == w.id
    case _ => true
  }

  /** A recovered port is in range and free. */
  ghost predicate RecoversPort(s: State, step: Step) {
    step.RecoverReserve? ==> Reserve(s.pool, step.id, step.port).1
  }

  /** No allocation id is started or recovered twice; deploying a service anew uses its ids again. */
  ghost predicate FreshId(s: State, step: Step) {
    step.RunBegin? || step.RecoverReserve? ==> step.id !in s.used
  }

  lemma StepKeepsPool(s: State, step: Step)
    requires ValidPool(s.pool) && Enabled(s, step)
    ensures ValidPool(After(s, step).pool)
  {
  }

  lemma WaiterStepKeepsConsistent(s: State, step: Step)
    requires Consistent(s) && Enabled(s, step)
    requires step.Exit? || step.WaiterRelease? || step.WaiterRemove? || step.Spawn?
    ensures Consistent(After(s, step))
  {
  }

  lemma StepKeepsConsistent(s: State, step: Step)
    requires Consistent(s) && Enabled(s, step) && FreshId(s, step)
    ensures Consistent(After(s, step))
  {
    match step
    case Exit(_, _) => WaiterStepKeepsConsistent(s, step);
    case WaiterRelease(_) => WaiterStepKeepsConsistent(s, step);
    case WaiterRemove(_) => WaiterStepKeepsConsistent(s, step);
    case Spawn => WaiterStepKeepsConsistent(s, step);
    case _ => StepKeepsPool(s, step);
  }

  lemma ReleaseKeepsOwned(s: State, s': State, port: Option<nat>)
    requires Owned(s) && s'.pool == ReleaseIfAny(s.pool, port)
    requires forall id, p :: HoldsPort(s', id, p) ==> HoldsPort(s, id, p)
    requires port.Some? ==> forall id :: !HoldsPort(s', id, port.value)
    ensures Owned(s')
  {
  }

  lemma StepKeepsOwned(s: State, step: Step)
    requires Consistent(s) && Owned(s) && Enabled(s, step) && FreshId(s, step)
    requires ReleasesOwn(s, step) && RecoversPort(s, step)
    ensures Owned(After(s, step))
  {
    var s' := After(s, step);
    match step
    case StopRelease => ReleaseKeepsOwned(s, s', s.thread.port);
    case WaiterRelease(k) => ReleaseKeepsOwned(s, s', s.waiters[k].port);
    case RunFail =>
      forall id, p: nat | HoldsPort(s', id, p) ensures HoldsPort(s, id, p) && Some(p) != s.thread.port {
        assert HoldsPort(s, id, p);
        if Some(p) == s.thread.port { assert HoldsPort(s, s.thread.id, p); }
      }
      ReleaseKeepsOwned(s, s', s.thread.port);
    case _ =>
      forall id, p: nat | HoldsPort(s', id, p) ensures p in s'.pool.owners && s'.pool.owners[p] == id {
        assert HoldsPort(s, id, p) || ThreadHolds(s', id, p);
      }
  }

  /** A run of the node from an empty record and a fresh pool. */
  ghost predicate IsRun(states: seq<State>, steps: seq<Step>, start: nat, end: nat, inUse: set<nat>) {
    && |states| == |steps| + 1
    && states[0] == InitialState(start, end, inUse)
    && forall k {:trigger steps[k]} | 0 <= k < |steps| ::
         Enabled(states[k], steps[k]) && states[k + 1] == After(states[k], steps[k])
  }

  function InitialState(start: nat, end: nat, inUse: set<nat>): State {
    State(FreshPool(start, end, inUse), map[], Idle, map[], 0, {})
  }

  /** On every run, without further conditions, available and allocated ports are disjoint and in range. */
  lemma {:induction false} RunKeepsPool(
    states: seq<State>, steps: seq<Step>, start: nat, end: nat, inUse: set<nat>, k: nat)
    requires IsRun(states, steps, start, end, inUse) && k < |states|
    ensures ValidPool(states[k].pool)
  {
    if k > 0 {
      RunKeepsPool(states, steps, start, end, inUse, k - 1);
      StepKeepsPool(states[k - 1], steps[k - 1]);
    }
  }

  lemma {:induction false} RunKeepsConsistent(
    states: seq<State>, steps: seq<Step>, start: nat, end: nat, inUse: set<nat>, k: nat)
    requires IsRun(states, steps, start, end, inUse) && k < |states|
    requires forall j | 0 <= j < k :: FreshId(states[j], steps[j])
    ensures Consistent(states[k])
  {
    if k > 0 {
      RunKeepsConsistent(states, steps, start, end, inUse, k - 1);
      StepKeepsConsistent(states[k - 1], steps[k - 1]);
    }
  }

  /**
   Port ownership: on every run with fresh ids where a release finds the port still its
   own and recovered ports are free, every live allocation with a port is its recorded owner, so
   no two share one.
   */
  lemma {:induction false} RunKeepsOwned(
    states: seq<State>, steps: seq<Step>, start: nat, end: nat, inUse: set<nat>, k: nat)
    requires IsRun(states, steps, start, end, inUse) && k < |states|
    requires forall j | 0 <= j < k :: FreshId(states[j], steps[j])
    requires forall j | 0 <= j < k :: ReleasesOwn(states[j], steps[j]) && RecoversPort(states[j], steps[j])
    ensures Owned(states[k])
    ensures forall a, b, port | HoldsPort(states[k], a, port) && HoldsPort(states[k], b, port) :: a == b
  {
    if k > 0 {
      RunKeepsOwned(states, steps, start, end, inUse, k - 1);
      RunKeepsConsistent(states, steps, start, end, inUse, k - 1);
      StepKeepsOwned(states[k - 1], steps[k - 1]);
    }
  }

  /**
   Exactly when giving back a port keeps ownership: its recorded owner is not another
   allocation that holds it. The pool checks no owner, so nothing enforces this.
   */
  lemma WaiterReleaseKeepsOwnedIff(s: State, k: nat)
    requires Consistent(s) && Owned(s) && Enabled(s, WaiterRelease(k)) && s.waiters[k].port.Some?
    ensures var port := s.waiters[k].port.value;
            Owned(After(s, WaiterRelease(k))) <==>
            !(port in s.pool.owners && HoldsPort(s, s.pool.owners[port], port))
  {
    var s', port := After(s, WaiterRelease(k)), s.waiters[k].port.value;
    if port in s.pool.owners {
      var owner := s.pool.owners[port];
      assert HoldsPort(s', owner, port) <==> HoldsPort(s, owner, port);
    }
    if !(port in s.pool.owners && HoldsPort(s, s.pool.owners[port], port)) {
      ReleaseKeepsOwned(s, s', Some(port));
    }
  }

  lemma StopReleaseKeepsOwnedIff(s: State)
    requires Consistent(s) && Owned(s) && Enabled(s, StopRelease) && s.thread.port.Some?
    ensures var port := s.thread.port.value;
            Owned(After(s, StopRelease)) <==>
            !(port in s.pool.owners && s.pool.owners[port] != s.thread.id
              && HoldsPort(s, s.pool.owners[port], port))
  {
    var s', port := After(s, StopRelease), s.thread.port.value;
    if port in s.pool.owners && s.pool.owners[port] != s.thread.id {
      var owner := s.pool.owners[port];
      assert HoldsPort(s', owner, port) <==> HoldsPort(s, owner, port);
    }
    if !(port in s.pool.owners && s.pool.owners[port] != s.thread.id && HoldsPort(s, s.pool.owners[port], port)) {
      forall id ensures !HoldsPort(s', id, port) {
        assert HoldsPort(s', id, port) ==> HoldsPort(s, id, port) && id != s.thread.id;
      }
      ReleaseKeepsOwned(s, s', Some(port));
    }
  }

  /** Exactly when a recovered allocation owns its port: the port is in range and free. */
  lemma RecoveryKeepsOwnedIff(s: State, step: Step)
    requires Consistent(s) && Owned(s) && step.RecoverReserve? && Enabled(s, step) && FreshId(s, step)
    ensures Owned(After(s, step)) <==> RecoversPort(s, step)
  {
    if RecoversPort(s, step) {
      StepKeepsOwned(s, step);
    } else {
      assert HoldsPort(After(s, step), step.id, step.port.value);
    }
  }

  // ----- Two interleavings that share a port -----

  /** Reached by some run in which all ids are fresh. */
  ghost predicate Reachable(s: State) {
    exists states, steps, start: nat, end: nat, inUse :: RunsFreshTo(states, steps, start, end, inUse, s)
  }

  ghost predicate RunsFreshTo(
    states: seq<State>, steps: seq<Step>, start: nat, end: nat, inUse: set<nat>, s: State)
  {
    && IsRun(states, steps, start, end, inUse) && s == states[|steps|]
    && forall j | 0 <= j < |steps| :: FreshId(states[j], steps[j])
  }

  lemma StepReaches(s: State, step: Step)
    requires Reachable(s) && Enabled(s, step) && FreshId(s, step)
    ensures Reachable(After(s, step))
  {
    var states, steps, start: nat, end: nat, inUse :| RunsFreshTo(states, steps, start, end, inUse, s);
    assert RunsFreshTo(states + [After(s, step)], steps + [step], start, end, inUse, After(s, step));
  }

  /** Starting a container without interruption, when one port is free. */
  lemma StartReaches(s: State, id: AllocId, port: nat) returns (s': State)
    requires Reachable(s) && s.thread.Idle? && id !in s.used && id !in s.allocs && IsLeast(port, s.pool.available)
    ensures Reachable(s')
    ensures s' == s.(pool := s.pool.(available := s.pool.available - {port}, owners := s.pool.owners[port := id]),
                     allocs := s.allocs[id := Local(Running, Some(port))],
                     waiters := s.waiters[s.spawned := Waiter(id, Some(port), Waiting)],
                     spawned := s.spawned + 1, used := s.used + {id})
  {
    StepReaches(s, RunBegin(id, true));
    s' := After(s, RunBegin(id, true));
    StepReaches(s', RunAllocate);
    s' := After(s', RunAllocate);
    StepReaches(s', Insert);
    s' := After(s', Insert);
    StepReaches(s', Spawn);
    s' := After(s', Spawn);
  }

  function A(): AllocId {
    AllocId("a")
  }

  function B(): AllocId {
    AllocId("b")
  }

  lemma StartFirst() returns (s: State)
    ensures Reachable(s) && s.thread.Idle? && s.used == {A()} && s.spawned == 1
    ensures s.pool == Pool(1, 1, {}, map[1 := A()]) && s.allocs == map[A() := Local(Running, Some(1))]
    ensures s.waiters == map[0 := Waiter(A(), Some(1), Waiting)]
  {
    var s0 := InitialState(1, 1, {});
    assert RunsFreshTo([s0], [], 1, 1, {}, s0);
    assert s0.pool.available == {1};
    s := StartReaches(s0, A(), 1);
  }

  /** A stop without interruption. */
  lemma StopReaches(s: State, id: AllocId) returns (s': State)
    requires Reachable(s) && s.thread.Idle?
    ensures Reachable(s')
    ensures s' == s.(pool := ReleaseIfAny(s.pool, HostPort(s.allocs, id)), allocs := s.allocs - {id})
  {
    StepReaches(s, StopBegin(id));
    s' := After(s, StopBegin(id));
    StepReaches(s', StopRelease);
    s' := After(s', StopRelease);
    StepReaches(s', StopRemove);
    s' := After(s', StopRemove);
  }

  /** A container's exit up to the release of its port. */
  lemma ExitReaches(s: State, k: nat) returns (s': State)
    requires Reachable(s) && k in s.waiters && s.waiters[k].phase.Waiting?
    ensures Reachable(s')
    ensures var w := s.waiters[k];
            s' == s.(allocs := SetStatus(s.allocs, w.id, Stopped(0)), pool := ReleaseIfAny(s.pool, w.port),
                     waiters := s.waiters[k := w.(phase := Freed)])
  {
    StepReaches(s, Exit(k, 0));
    s' := After(s, Exit(k, 0));
    StepReaches(s', WaiterRelease(k));
    s' := After(s', WaiterRelease(k));
    assert s'.waiters == s.waiters[k := s.waiters[k].(phase := Freed)];
  }

  lemma StopFirst() returns (s: State)
    ensures Reachable(s) && s.thread.Idle? && s.used == {A()} && s.spawned == 1
    ensures s.pool == Pool(1, 1, {1}, map[]) && s.allocs == map[]
    ensures s.waiters == map[0 := Waiter(A(), Some(1), Waiting)]
  {
    s := StartFirst();
    s := StopReaches(s, A());
  }

  lemma ExitFirst() returns (s: State)
    ensures Reachable(s) && s.thread.Idle? && s.used == {A()} && s.spawned == 1
    ensures s.pool == Pool(1, 1, {1}, map[]) && s.allocs == map[A() := Local(Stopped(0), Some(1))]
  {
    s := StartFirst();
    s := ExitReaches(s, 0);
  }

  /**
   A late exit waiter: the stop of `a` frees its port, `b` takes it, and then the waiter of
   `a` frees it again under `b`.
   */
  lemma LateWaiterTakesPort() returns (s: State)
    ensures Reachable(s) && Live(s, B()) && s.allocs[B()].hostPort == Some(1)
    ensures 1 in s.pool.available && !Owned(s)
  {
    s := StopFirst();
    s := StartReaches(s, B(), 1);
    s := ExitReaches(s, 0);
    assert HoldsPort(s, B(), 1);
  }

  /**
   A stop during an exit: the waiter of `a` has freed the port but not yet removed the
   record, `b` takes the port, and then a stop of `a` reads the old record and frees it.
   */
  lemma LateStopTakesPort() returns (s: State)
    ensures Reachable(s) && Live(s, B()) && s.allocs[B()].hostPort == Some(1)
    ensures 1 in s.pool.available && !Owned(s)
  {
    s := ExitFirst();
    s := StartReaches(s, B(), 1);
    s := StopReaches(s, A());
    assert HoldsPort(s, B(), 1);
  }

  // ----- An id that is used again -----

  /** Start number `j` is up: its waiter waits, and its record and its port are its own. */
  ghost predicate IsUp(s: State, j: nat) {
    && j in s.waiters && s.waiters[j].phase.Waiting?
    && var w := s.waiters[j];
    && w.id in s.allocs && !s.allocs[w.id].status.IsTerminal() && s.allocs[w.id].hostPort == w.port
    && (w.port.Some? ==> w.port.value in s.pool.owners && s.pool.owners[w.port.value] == w.id)
  }

  /**
   Exactly when the steps of another start's waiter leave a container up: marking and removing the
   record, if the ids differ; giving back the port, if the ports do.
   */
  lemma OtherWaiterKeepsUpIff(s: State, k: nat, j: nat)
    requires IsUp(s, j) && k in s.waiters && k != j
    ensures forall code :: Enabled(s, Exit(k, code)) ==>
              (IsUp(After(s, Exit(k, code)), j) <==> s.waiters[k].id != s.waiters[j].id)
    ensures Enabled(s, WaiterRelease(k)) ==>
              (IsUp(After(s, WaiterRelease(k)), j) <==> s.waiters[k].port.None? || s.waiters[k].port != s.waiters[j].port)
    ensures Enabled(s, WaiterRemove(k)) ==>
              (IsUp(After(s, WaiterRemove(k)), j) <==> s.waiters[k].id != s.waiters[j].id)
  {
  }

  /** Reached by a run in which every port given back is its allocation's own, or nobody's. */
  ghost predicate ReachableByOwn(s: State) {
    exists states, steps, start: nat, end: nat, inUse :: RunsOwnTo(states, steps, start, end, inUse, s)
  }

  ghost predicate RunsOwnTo(
    states: seq<State>, steps: seq<Step>, start: nat, end: nat, inUse: set<nat>, s: State)
  {
    && IsRun(states, steps, start, end, inUse) && s == states[|steps|]
    && forall j | 0 <= j < |steps| :: ReleasesOwn(states[j], steps[j])
  }

  lemma OwnStepReaches(s: State, step: Step)
    requires ReachableByOwn(s) && Enabled(s, step) && ReleasesOwn(s, step)
    ensures ReachableByOwn(After(s, step))
  {
    var states, steps, start: nat, end: nat, inUse :| RunsOwnTo(states, steps, start, end, inUse, s);
    assert RunsOwnTo(states + [After(s, step)], steps + [step], start, end, inUse, After(s, step));
  }

  lemma OwnStartReaches(s: State, id: AllocId, port: nat) returns (s': State)
    requires ReachableByOwn(s) && s.thread.Idle? && id !in s.allocs && IsLeast(port, s.pool.available)
    ensures ReachableByOwn(s')
    ensures s' == s.(pool := s.pool.(available := s.pool.available - {port}, owners := s.pool.owners[port := id]),
                     allocs := s.allocs[id := Local(Running, Some(port))],
                     waiters := s.waiters[s.spawned := Waiter(id, Some(port), Waiting)],
                     spawned := s.spawned + 1, used := s.used + {id})
  {
    OwnStepReaches(s, RunBegin(id, true));
    s' := After(s, RunBegin(id, true));
    OwnStepReaches(s', RunAllocate);
    s' := After(s', RunAllocate);
    OwnStepReaches(s', Insert);
    s' := After(s', Insert);
    OwnStepReaches(s', Spawn);
    s' := After(s', Spawn);
  }

  /** The first container is started and stopped; its waiter is late. */
  lemma StopFirstByOwn() returns (s: State)
    ensures ReachableByOwn(s) && s.thread.Idle? && s.spawned == 1 && s.allocs == map[]
    ensures s.pool == Pool(1, 1, {1}, map[]) && s.waiters == map[0 := Waiter(A(), Some(1), Waiting)]
  {
    var s0 := InitialState(1, 1, {});
    assert RunsOwnTo([s0], [], 1, 1, {}, s0);
    assert s0.pool.available == {1};
    s := OwnStartReaches(s0, A(), 1);
    s := OwnStopReaches(s, A(), 1);
  }

  lemma OwnStopReaches(s: State, id: AllocId, port: nat) returns (s': State)
    requires ReachableByOwn(s) && s.thread.Idle? && HostPort(s.allocs, id) == Some(port)
    requires port in s.pool.owners && s.pool.owners[port] == id
    ensures ReachableByOwn(s') && s' == s.(pool := Release(s.pool, port), allocs := s.allocs - {id})
  {
    OwnStepReaches(s, StopBegin(id));
    s' := After(s, StopBegin(id));
    OwnStepReaches(s', StopRelease);
    s' := After(s', StopRelease);
    OwnStepReaches(s', StopRemove);
    s' := After(s', StopRemove);
  }

  /**
   The same id is started again, as deploying a service once more does. The late waiter of the first
   start gives back a port that is recorded as its own, and with it the second container's.
   */
  lemma ReusedIdLosesPort() returns (before: State, s: State)
    ensures ReachableByOwn(before) && IsUp(before, 1) && before.waiters[1] == Waiter(A(), Some(1), Waiting)
    ensures ReachableByOwn(s) && s.waiters == before.waiters[0 := Waiter(A(), Some(1), Freed)]
    ensures 1 in s.pool.available && s.allocs == map[A() := Local(Stopped(0), Some(1))] && !IsUp(s, 1)
  {
    before := StopFirstByOwn();
    before := OwnStartReaches(before, A(), 1);
    s := OwnExitReaches(before, 0, 1);
  }

  lemma OwnExitReaches(s: State, k: nat, port: nat) returns (s': State)
    requires ReachableByOwn(s) && k in s.waiters && s.waiters[k].phase.Waiting? && s.waiters[k].port == Some(port)
    requires port in s.pool.owners && s.pool.owners[port] == s.waiters[k].id
    ensures ReachableByOwn(s')
    ensures var w := s.waiters[k];
            s' == s.(allocs := SetStatus(s.allocs, w.id, Stopped(0)), pool := Release(s.pool, port),
                     waiters := s.waiters[k := w.(phase := Freed)])
  {
    OwnStepReaches(s, Exit(k, 0));
    s' := After(s, Exit(k, 0));
    OwnStepReaches(s', WaiterRelease(k));
    s' := After(s', WaiterRelease(k));
    assert s'.waiters == s.waiters[k := s.waiters[k].(phase := Freed)];
  }
}
