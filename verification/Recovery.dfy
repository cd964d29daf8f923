/**
 Crash recovery end to end: after a node's reconciliation reports have been processed
 by the primary, the replicated state and the containers on the node agree.
 */
module Recovery {
  import opened Types
  import opened Runner
  import opened Report
  import opened Secondary
  import Fsm

  /** The allocation is not terminal and belongs to the node. */
  predicate ActiveOn(s: FsmState, mill: NodeId, id: AllocId) {
    id in s.allocs && s.allocs[id].node == mill && !s.allocs[id].status.IsTerminal()
  }

  /** What the daemon expects at start: the node's active allocations, each once, in some order. */
  ghost predicate IsExpected(s: FsmState, mill: NodeId, expected: seq<AllocId>) {
    && (forall i, j | 0 <= i < j < |expected| :: expected[i] != expected[j])
    && (forall id :: id in expected <==> ActiveOn(s, mill, id))
  }

  /** The status an expected allocation ends up with. */
  function Outcome(a: Alloc, id: AllocId, running: set<AllocId>, rt: Runtime): AllocStatus {
    if id !in running then Stopped(-1)
    else if rt.recover(id).Some? && (a.status.Pulling? || a.status.Starting?) then Running
    else a.status
  }

  /** `now` is `then'` with the statuses of `done` brought to their outcome and nothing else changed. */
  ghost predicate Updated(then': FsmState, now: FsmState, done: seq<AllocId>, running: set<AllocId>, rt: Runtime) {
    && now == then'.(allocs := now.allocs) && now.allocs.Keys == then'.allocs.Keys
    && (forall id | id in then'.allocs ::
          if id in done then
            Fsm.SameAlloc(now.allocs[id], then'.allocs[id])
            && now.allocs[id].status == Outcome(then'.allocs[id], id, running, rt)
          else now.allocs[id] == then'.allocs[id])
  }

  /** Reports delivered one after another; `at` gives the order of nodes and the time of each. */
  function Delivered(reports: seq<NodeReport>, at: nat -> (seq<FsmNode>, Time)): (d: seq<Delivery>)
    ensures |d| == |reports|
    ensures forall i | 0 <= i < |d| :: d[i] == Delivery(reports[i], at(i).0, at(i).1)
  {
    if reports == [] then []
    else
      var n := |reports| - 1;
      Delivered(reports[..n], at) + [Delivery(reports[n], at(n).0, at(n).1)]
  }

  lemma DeliverOne(s: FsmState, reports: seq<NodeReport>, r: NodeReport, at: nat -> (seq<FsmNode>, Time))
    ensures ProcessAll(s, Delivered(reports + [r], at))
            == Process(ProcessAll(s, Delivered(reports, at)), at(|reports|).0, r, at(|reports|).1)
  {
    var all := Delivered(reports + [r], at);
    assert (reports + [r])[..|reports|] == reports;
    assert all[..|reports|] == Delivered(reports, at);
  }

  lemma UpdatedNext(
    s: FsmState, now: FsmState, done: seq<AllocId>, id: AllocId, a: Alloc, running: set<AllocId>, rt: Runtime)
    requires Updated(s, now, done, running, rt) && id in s.allocs && id !in done
    requires Fsm.SameAlloc(a, s.allocs[id]) && a.status == Outcome(s.allocs[id], id, running, rt)
    ensures Updated(s, now.(allocs := now.allocs[id := a]), done + [id], running, rt)
  {
  }

  /** Processing the report of one expected allocation brings it to its outcome. */
  lemma ReportUpdates(
    s: FsmState, now: FsmState, done: seq<AllocId>, id: AllocId, local: State, running: set<AllocId>, rt: Runtime,
    nodes: seq<FsmNode>, time: Time)
    requires Updated(s, now, done, running, rt) && id in s.allocs && id !in done
    requires local.thread.Idle? && id !in local.allocs
    ensures var sent := RecoverOne(local, id, running, rt).1;
            |sent| <= 1 && Updated(s, if sent == [] then now else Process(now, nodes, sent[0], time),
                                   done + [id], running, rt)
  {
    var sent := RecoverOne(local, id, running, rt).1;
    var a := now.allocs[id];
    if sent == [] {
      UpdatedNext(s, now, done, id, a, running, rt);
      assert now.allocs[id := a] == now.allocs;
    } else {
      ReportProcessed(now, nodes, sent[0], time);
      UpdatedNext(s, now, done, id, Process(now, nodes, sent[0], time).allocs[id], running, rt);
    }
  }

  /** A report of an end sets the status; one of a start does so only for what has not run yet. */
  lemma ReportProcessed(now: FsmState, nodes: seq<FsmNode>, r: NodeReport, time: Time)
    requires (r.ReportStopped? || r.RunStarted?) && r.allocId in now.allocs
    ensures var (a, after) := (now.allocs[r.allocId], Process(now, nodes, r, time));
            && r.allocId in after.allocs && after == now.(allocs := now.allocs[r.allocId := after.allocs[r.allocId]])
            && var b := after.allocs[r.allocId];
            && Fsm.SameAlloc(b, a)
            && b.status == if r.ReportStopped? then Stopped(r.exitCode)
                           else if a.status.Pulling? || a.status.Starting? then Running else a.status
  {
    var a := now.allocs[r.allocId];
    assert now.allocs[r.allocId := a] == now.allocs;
  }

  /** Only the recovered allocations enter the node's own record. */
  lemma {:induction false} RecoveredAreExpected(
    local: State, expected: seq<AllocId>, running: set<AllocId>, rt: Runtime, id: AllocId)
    requires local.thread.Idle? && local.allocs == map[]
    ensures id in RecoverAll(local, expected, running, rt).0.allocs ==> id in expected
  {
    if expected != [] {
      var n := |expected| - 1;
      RecoveredAreExpected(local, expected[..n], running, rt, id);
      var before := RecoverAll(local, expected[..n], running, rt).0;
      assert id in RecoverOne(before, expected[n], running, rt).0.allocs ==> id in before.allocs || id == expected[n];
    }
  }

  /** The reports about the visited allocations have brought exactly these to their outcome. */
  ghost predicate Reported(
    s: FsmState, visited: seq<AllocId>, local: State, running: set<AllocId>, rt: Runtime, at: nat -> (seq<FsmNode>, Time))
    requires local.thread.Idle?
  {
    Updated(s, ProcessAll(s, Delivered(RecoverAll(local, visited, running, rt).1, at)), visited, running, rt)
  }

  /** Recovering and reporting one more expected allocation. */
  lemma OneMoreReport(
    s: FsmState, done: seq<AllocId>, id: AllocId, local: State, running: set<AllocId>, rt: Runtime,
    at: nat -> (seq<FsmNode>, Time))
    requires local.thread.Idle? && local.allocs == map[] && id in s.allocs && id !in done
    requires Reported(s, done, local, running, rt, at)
    ensures Reported(s, done + [id], local, running, rt, at)
  {
    var (before, sent) := RecoverAll(local, done, running, rt);
    RecoveredAreExpected(local, done, running, rt, id);
    var more := RecoverOne(before, id, running, rt).1;
    ReportUpdates(s, ProcessAll(s, Delivered(sent, at)), done, id, before, running, rt, at(|sent|).0, at(|sent|).1);
    RecoverNext(local, done, id, running, rt);
    DeliverMore(s, sent, more, at);
  }

  lemma RecoverNext(local: State, done: seq<AllocId>, id: AllocId, running: set<AllocId>, rt: Runtime)
    requires local.thread.Idle?
    ensures var (before, sent) := RecoverAll(local, done, running, rt);
            RecoverAll(local, done + [id], running, rt).1 == sent + RecoverOne(before, id, running, rt).1
  {
    assert (done + [id])[..|done|] == done;
  }

  lemma DeliverMore(s: FsmState, sent: seq<NodeReport>, more: seq<NodeReport>, at: nat -> (seq<FsmNode>, Time))
    requires |more| <= 1
    ensures ProcessAll(s, Delivered(sent + more, at))
            == var now := ProcessAll(s, Delivered(sent, at));
               if more == [] then now else Process(now, at(|sent|).0, more[0], at(|sent|).1)
  {
    if more == [] {
      assert sent + more == sent;
    } else {
      assert more == [more[0]];
      DeliverOne(s, sent, more[0], at);
    }
  }

  lemma {:induction false} ReportsUpdate(
    s: FsmState, visited: seq<AllocId>, local: State, running: set<AllocId>, rt: Runtime,
    at: nat -> (seq<FsmNode>, Time))
    requires local.thread.Idle? && local.allocs == map[]
    requires forall i, j | 0 <= i < j < |visited| :: visited[i] != visited[j]
    requires forall id | id in visited :: id in s.allocs
    ensures Reported(s, visited, local, running, rt, at)
  {
    if visited == [] {
      NothingReported(s, local, running, rt, at);
    } else {
      var n := |visited| - 1;
      var done, id := visited[..n], visited[n];
      assert done + [id] == visited;
      ReportsUpdate(s, done, local, running, rt, at);
      OneMoreReport(s, done, id, local, running, rt, at);
    }
  }

  lemma NothingReported(
    s: FsmState, local: State, running: set<AllocId>, rt: Runtime, at: nat -> (seq<FsmNode>, Time))
    requires local.thread.Idle?
    ensures Reported(s, [], local, running, rt, at)
  {
    assert RecoverAll(local, [], running, rt).1 == [];
    assert Delivered([], at) == [];
  }

  /** The active allocations of the node in the state are exactly the containers in the set. */
  ghost predicate Agree(s: FsmState, mill: NodeId, containers: set<AllocId>) {
    forall id :: ActiveOn(s, mill, id) <==> id in containers
  }

  /**
   Crash recovery agreement: once the reports of a reconciliation are processed, each
   missing allocation is Stopped(-1), each one still running keeps its status or moves
   from Pulling or Starting to Running, nothing else has changed; and the node's active
   allocations are exactly its containers if and only if every orphan could be stopped.
   */
  lemma RecoveryAgreement(
    s: FsmState, mill: NodeId, expected: seq<AllocId>, local: State, running: set<AllocId>, rt: Runtime,
    at: nat -> (seq<FsmNode>, Time))
    requires IsExpected(s, mill, expected) && local.thread.Idle? && local.allocs == map[]
    ensures var s' := ProcessAll(s, Delivered(RecoverAll(local, expected, running, rt).1, at));
            && Updated(s, s', expected, running, rt)
            && (Agree(s', mill, Remaining(running, expected, rt)) <==>
                forall id | id in running && id !in expected :: rt.stopOk(id))
  {
    ReportsUpdate(s, expected, local, running, rt, at);
    var s' := ProcessAll(s, Delivered(RecoverAll(local, expected, running, rt).1, at));
    forall id ensures ActiveOn(s', mill, id) <==> id in expected && id in running {
      if id in s.allocs && id !in expected {
        assert !ActiveOn(s, mill, id);
      }
    }
  }
}
