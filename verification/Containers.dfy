/**
 What happens to one container from its start to its end: what the record, the pool of ports and the
 exit waiters hold while it is up, and that nothing of it is left afterwards.
 */
module Containers {
  import opened Types
  import opened Ports
  import opened Runner
  import opened Secondary

  /** Nobody waits under the number of the next waiter. */
  predicate IsReady(s: State) {
    s.thread.Idle? && s.spawned !in s.waiters
  }

  /** Up: recorded as running, watched, and with a port of its own exactly if it exposes one. */
  ghost predicate IsStarted(before: State, after: State, id: AllocId, exposes: bool) {
    && id in after.allocs && after.allocs[id].status == Running
    && var port := after.allocs[id].hostPort;
    && (port.Some? <==> exposes)
    && (port.Some? ==> port.value in before.pool.available && port.value in after.pool.owners
                       && after.pool.owners[port.value] == id)
    && after.waiters == before.waiters[before.spawned := Waiter(id, port, Waiting)]
    && after.allocs - {id} == before.allocs
    && Managed(after.pool) == Managed(before.pool)
  }

  /** Nothing of a container is left. */
  predicate IsLike(before: State, after: State) {
    after.pool == before.pool && after.allocs == before.allocs && after.thread.Idle?
  }

  /** A start succeeds exactly if the image is there, the runtime agrees and a port is free if one is needed. */
  lemma StartedIff(s: State, id: AllocId, exposes: bool, imageReady: bool, runOk: bool)
    requires IsReady(s) && ValidPool(s.pool) && id !in s.allocs
    ensures var after := RunUninterrupted(s, id, exposes, imageReady, runOk);
            if imageReady && runOk && (exposes ==> s.pool.available != {})
            then after.thread.Idle? && IsStarted(s, after, id, exposes)
            else IsLike(s, after) && after.waiters == s.waiters
  {
    if imageReady {
      RunIsLaunched(s, id, exposes, runOk);
      PortsAreConserved(s.pool, id, 0);
      if runOk && (exposes ==> s.pool.available != {}) {
        LaunchedIsStarted(s, id, exposes);
      }
    }
  }

  lemma LaunchedIsStarted(s: State, id: AllocId, exposes: bool)
    requires IsReady(s) && ValidPool(s.pool) && id !in s.allocs && (exposes ==> s.pool.available != {})
    ensures IsStarted(s, Launched(s.(used := s.used + {id}), id, exposes, true), id, exposes)
  {
    PortsAreConserved(s.pool, id, 0);
    var port := if exposes then Allocate(s.pool, id).1 else None;
    assert s.allocs[id := Local(Running, port)] - {id} == s.allocs;
  }

  lemma PortIsGivenBack(before: State, after: State, id: AllocId, exposes: bool)
    requires ValidPool(before.pool) && id !in before.allocs
    requires exposes ==> before.pool.available != {}
    requires after == Launched(before.(used := before.used + {id}), id, exposes, true)
    ensures id in after.allocs && ReleaseIfAny(after.pool, after.allocs[id].hostPort) == before.pool
  {
    PortsAreConserved(before.pool, id, 0);
  }

  /** A container that is stopped leaves the record and the pool as they were before its start. */
  lemma StopUndoesStart(s: State, id: AllocId, exposes: bool)
    requires IsReady(s) && ValidPool(s.pool) && id !in s.allocs && (exposes ==> s.pool.available != {})
    ensures IsLike(s, StopUninterrupted(RunUninterrupted(s, id, exposes, true, true), id))
  {
    var up := Launched(s.(used := s.used + {id}), id, exposes, true);
    RunIsLaunched(s, id, exposes, true);
    LaunchedIsStarted(s, id, exposes);
    PortIsGivenBack(s, up, id, exposes);
  }

  /** So does one that exits, and its waiter goes as well. */
  lemma ExitUndoesStart(s: State, id: AllocId, exposes: bool, code: int)
    requires IsReady(s) && ValidPool(s.pool) && id !in s.allocs && (exposes ==> s.pool.available != {})
    ensures var up := RunUninterrupted(s, id, exposes, true, true);
            && s.spawned in up.waiters && up.waiters[s.spawned].phase.Waiting?
            && IsLike(s, ExitUninterrupted(up, s.spawned, code))
            && ExitUninterrupted(up, s.spawned, code).waiters == s.waiters
  {
    var up := Launched(s.(used := s.used + {id}), id, exposes, true);
    RunIsLaunched(s, id, exposes, true);
    LaunchedIsStarted(s, id, exposes);
    PortIsGivenBack(s, up, id, exposes);
    ExitRemoves(up, s.spawned, code);
    assert up.waiters - {s.spawned} == s.waiters;
  }

  lemma ExitRemoves(s: State, k: nat, code: int)
    requires k in s.waiters && s.waiters[k].phase.Waiting?
    ensures var after, w := ExitUninterrupted(s, k, code), s.waiters[k];
            && after.pool == ReleaseIfAny(s.pool, w.port) && after.thread == s.thread
            && after.allocs == s.allocs - {w.id} && after.waiters == s.waiters - {k}
  {
    var w := s.waiters[k];
    assert SetStatus(s.allocs, w.id, ExitStatus(code)) - {w.id} == s.allocs - {w.id};
    assert s.waiters[k := w.(phase := Marked)][k := w.(phase := Freed)] - {k} == s.waiters - {k};
  }

  /** In between, heartbeats tell how it ended: stopped if its code is zero, or else failed. */
  lemma ExitIsMarked(s: State, k: nat, code: int)
    requires Enabled(s, Exit(k, code)) && s.waiters[k].id in s.allocs
    ensures var status := After(s, Exit(k, code)).allocs[s.waiters[k].id].status;
            && status.IsTerminal()
            && (status == Stopped(0) <==> code == 0)
            && (status.Failed? <==> code != 0)
  {
  }

  // ----- After recovery -----

  /** The runtime still has the container, and says so. */
  predicate Survives(id: AllocId, running: set<AllocId>, rt: Runtime) {
    id in running && rt.recover(id).Some?
  }

  function PortOf(id: AllocId, rt: Runtime): Option<nat> {
    if rt.recover(id).Some? then rt.recover(id).value.hostPort else None
  }

  /** Exactly the expected containers that survived are recorded, with their ports, and each is watched. */
  ghost predicate IsRecovered(s: State, done: seq<AllocId>, running: set<AllocId>, rt: Runtime) {
    && ValidPool(s.pool) && Records(s.allocs, done, running, rt)
    && Watches(s.waiters, s.spawned, s.allocs, rt) && HoldsPorts(s.pool, s.allocs, rt)
  }

  ghost predicate Records(allocs: map<AllocId, Local>, done: seq<AllocId>, running: set<AllocId>, rt: Runtime) {
    && (forall id :: id in allocs <==> id in done && Survives(id, running, rt))
    && (forall id | id in allocs :: allocs[id] == Local(Running, PortOf(id, rt)))
  }

  ghost predicate Watches(waiters: map<nat, Waiter>, spawned: nat, allocs: map<AllocId, Local>, rt: Runtime) {
    && (forall id | id in allocs :: IsWatched(waiters, id, PortOf(id, rt)))
    && (forall k | k in waiters :: k < spawned && waiters[k].id in allocs)
  }

  ghost predicate IsWatched(waiters: map<nat, Waiter>, id: AllocId, port: Option<nat>) {
    exists k | k in waiters :: waiters[k] == Waiter(id, port, Waiting)
  }

  /** Their ports, as far as the pool manages them, are taken. */
  ghost predicate HoldsPorts(pool: Pool, allocs: map<AllocId, Local>, rt: Runtime) {
    forall id, p: nat | id in allocs && PortOf(id, rt) == Some(p) && InRange(pool, p) ::
      p in pool.owners && p !in pool.available
  }

  lemma StillWatches(
    waiters: map<nat, Waiter>, spawned: nat, allocs: map<AllocId, Local>, id: AllocId, local: Local, rt: Runtime)
    requires Watches(waiters, spawned, allocs, rt)
    ensures Watches(waiters[spawned := Waiter(id, PortOf(id, rt), Waiting)], spawned + 1, allocs[id := local], rt)
  {
    var more := waiters[spawned := Waiter(id, PortOf(id, rt), Waiting)];
    assert more[spawned] == Waiter(id, PortOf(id, rt), Waiting);
    forall other | other in allocs ensures IsWatched(more, other, PortOf(other, rt)) {
      var k :| k in waiters && waiters[k] == Waiter(other, PortOf(other, rt), Waiting);
      assert more[k] == waiters[k];
    }
  }

  lemma StillHolds(pool: Pool, allocs: map<AllocId, Local>, id: AllocId, local: Local, rt: Runtime)
    requires ValidPool(pool) && HoldsPorts(pool, allocs, rt)
    ensures var after := Reserve(pool, id, PortOf(id, rt)).0;
            ValidPool(after) && HoldsPorts(after, allocs[id := local], rt)
  {
  }

  /** What recovery of a surviving container comes to. */
  lemma RecoverOneIs(s: State, id: AllocId, running: set<AllocId>, rt: Runtime)
    requires s.thread.Idle? && Survives(id, running, rt)
    ensures var after, port := RecoverOne(s, id, running, rt).0, PortOf(id, rt);
            && after.pool == Reserve(s.pool, id, port).0
            && (id in s.allocs ==> after.allocs == s.allocs && after.waiters == s.waiters && after.spawned == s.spawned)
            && (id !in s.allocs ==>
                  && after.allocs == s.allocs[id := Local(Running, port)] && after.spawned == s.spawned + 1
                  && after.waiters == s.waiters[s.spawned := Waiter(id, port, Waiting)])
  {
  }

  lemma RecoverNextOne(s: State, done: seq<AllocId>, id: AllocId, running: set<AllocId>, rt: Runtime)
    requires s.thread.Idle? && IsRecovered(s, done, running, rt)
    ensures IsRecovered(RecoverOne(s, id, running, rt).0, done + [id], running, rt)
  {
    if Survives(id, running, rt) {
      var local := Local(Running, PortOf(id, rt));
      RecoverOneIs(s, id, running, rt);
      StillHolds(s.pool, s.allocs, id, local, rt);
      if id in s.allocs {
        assert s.allocs[id := local] == s.allocs;
      } else {
        StillWatches(s.waiters, s.spawned, s.allocs, id, local, rt);
      }
    }
  }

  /** What a restarted node holds once it has gone through the allocations expected of it. */
  lemma {:induction false} RecoveredIsRecorded(
    s: State, expected: seq<AllocId>, running: set<AllocId>, rt: Runtime)
    requires s.thread.Idle? && ValidPool(s.pool) && s.allocs == map[] && s.waiters == map[]
    ensures IsRecovered(RecoverAll(s, expected, running, rt).0, expected, running, rt)
  {
    if expected != [] {
      var n := |expected| - 1;
      RecoveredIsRecorded(s, expected[..n], running, rt);
      RecoverNextOne(RecoverAll(s, expected[..n], running, rt).0, expected[..n], expected[n], running, rt);
      assert expected[..n] + [expected[n]] == expected;
    }
  }
}
