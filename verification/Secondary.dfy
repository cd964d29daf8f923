/**
 The secondary role of a node: running and stopping containers, their exit waiters,
 and reconciliation with the primary's state after a restart.
 */
module Secondary {
  import opened Types
  import opened Ports
  import opened Runner
  import opened Report

  /** What the container runtime knows about a container that survived a restart. */
  datatype Recovered = Recovered(hostPort: Option<nat>)

  function MeshAddress(mesh: Option<IpAddr>, port: Option<nat>): Option<SocketAddr> {
    if mesh.Some? && port.Some? then Some(SocketAddr(mesh.value, port.value)) else None
  }

  /** The reports of starting a container; running out of ports sends none of its own. */
  function RunReports(
    id: AllocId, imageReady: bool, exhausted: bool, runOk: bool, port: Option<nat>, mesh: Option<IpAddr>):
    seq<NodeReport>
  {
    if !imageReady then [StatusUpdate(id, Pulling)] + [RunFailed(id, "image pull failed")]
    else
      [StatusUpdate(id, Pulling)] + [StatusUpdate(id, Starting)] + LaunchReports(id, exhausted, runOk, port, mesh)
  }

  function LaunchReports(id: AllocId, exhausted: bool, runOk: bool, port: Option<nat>, mesh: Option<IpAddr>):
    seq<NodeReport>
  {
    if exhausted then []
    else if !runOk then [RunFailed(id, "container start failed")]
    else [RunStarted(id, port, MeshAddress(mesh, port))]
  }

  /** The reports are delivered in their order. */
  ghost predicate Delivers(deliveries: seq<Delivery>, reports: seq<NodeReport>) {
    |deliveries| == |reports| && forall i | 0 <= i < |reports| :: deliveries[i].report == reports[i]
  }

  predicate IsUnderWay(status: AllocStatus) {
    !status.IsActive() && !status.IsTerminal()
  }

  lemma OneMoreProcessed(s: FsmState, deliveries: seq<Delivery>, reports: seq<NodeReport>)
    requires Delivers(deliveries, reports) && reports != []
    ensures var n, d := |reports| - 1, deliveries[|reports| - 1];
            && Delivers(deliveries[..n], reports[..n])
            && ProcessAll(s, deliveries) == Process(ProcessAll(s, deliveries[..n]), d.nodes, reports[n], d.now)
  {
  }

  lemma PullingThen(s: FsmState, deliveries: seq<Delivery>, id: AllocId, next: NodeReport)
    requires id in s.allocs && Delivers(deliveries, [StatusUpdate(id, Pulling), next])
    requires next == StatusUpdate(id, Starting) || next == RunFailed(id, "image pull failed")
    ensures var after := ProcessAll(s, deliveries);
            && id in after.allocs
            && after.allocs[id].status == if next.StatusUpdate? then Starting else Failed("image pull failed")
  {
    var reports := [StatusUpdate(id, Pulling), next];
    OneMoreProcessed(s, deliveries, reports);
    assert reports[..1] == [StatusUpdate(id, Pulling)];
    OneMoreProcessed(s, deliveries[..1], [StatusUpdate(id, Pulling)]);
  }

  /**
   Once its reports are processed, a started allocation runs or has failed, unless there was no port
   for it: then nothing says so, and it stays under way until whoever waits for it gives up.
   */
  lemma StartIsSettledIff(
    s: FsmState, deliveries: seq<Delivery>, id: AllocId, imageReady: bool, exhausted: bool, runOk: bool,
    port: Option<nat>, mesh: Option<IpAddr>)
    requires id in s.allocs && Delivers(deliveries, RunReports(id, imageReady, exhausted, runOk, port, mesh))
    ensures var after := ProcessAll(s, deliveries);
            && id in after.allocs
            && (IsUnderWay(after.allocs[id].status) <==> imageReady && exhausted)
            && (after.allocs[id].status == Running <==> imageReady && !exhausted && runOk)
            && (after.allocs[id].status == Starting <==> imageReady && exhausted)
            && (after.allocs[id].status.Failed? <==> !imageReady || (!exhausted && !runOk))
  {
    var reports := RunReports(id, imageReady, exhausted, runOk, port, mesh);
    if !imageReady {
      PullingThen(s, deliveries, id, RunFailed(id, "image pull failed"));
    } else if exhausted {
      PullingThen(s, deliveries, id, StatusUpdate(id, Starting));
    } else {
      OneMoreProcessed(s, deliveries, reports);
      assert reports[..2] == [StatusUpdate(id, Pulling), StatusUpdate(id, Starting)];
      PullingThen(s, deliveries[..2], id, StatusUpdate(id, Starting));
    }
  }

  /** The address under which a started allocation is reached: on the mesh, or else at its node, with its port. */
  predicate IsReachable(address: Option<SocketAddr>, port: Option<nat>, mesh: Option<IpAddr>, own: IpAddr) {
    if port.None? then address.None?
    else address == Some(SocketAddr(if mesh.Some? then mesh.value else own, port.value))
  }

  lemma UpdatesKeepRest(s: FsmState, deliveries: seq<Delivery>, id: AllocId)
    requires id in s.allocs && Delivers(deliveries, [StatusUpdate(id, Pulling), StatusUpdate(id, Starting)])
    ensures var after := ProcessAll(s, deliveries);
            && after.nodes == s.nodes && id in after.allocs
            && after.allocs[id] == s.allocs[id].(status := Starting)
  {
    var reports := [StatusUpdate(id, Pulling), StatusUpdate(id, Starting)];
    OneMoreProcessed(s, deliveries, reports);
    assert reports[..1] == [StatusUpdate(id, Pulling)];
    OneMoreProcessed(s, deliveries[..1], [StatusUpdate(id, Pulling)]);
  }

  lemma StartIsProcessed(now: FsmState, nodes: seq<FsmNode>, n: FsmNode, r: NodeReport, time: Time, mesh: Option<IpAddr>)
    requires r.RunStarted? && r.allocId in now.allocs && now.allocs[r.allocId].status == Starting
    requires r.address == MeshAddress(mesh, r.hostPort)
    requires n in nodes && n.millId == now.allocs[r.allocId].node
    requires forall m | m in nodes && m.millId == n.millId :: m == n
    ensures var after := Process(now, nodes, r, time);
            && r.allocId in after.allocs && after.allocs[r.allocId].startedAt == Some(time)
            && IsReachable(after.allocs[r.allocId].address, r.hostPort, mesh, n.address.ip)
  {
  }

  /**
   The address of an allocation whose start succeeded, once its reports are processed: the node's
   address on the mesh, or else its own address, with the port that the start has taken.
   */
  lemma StartedIsReachable(
    s: FsmState, deliveries: seq<Delivery>, id: AllocId, port: Option<nat>, mesh: Option<IpAddr>, n: FsmNode)
    requires id in s.allocs && Delivers(deliveries, RunReports(id, true, false, true, port, mesh))
    requires n in deliveries[2].nodes && n.millId == s.allocs[id].node
    requires forall m | m in deliveries[2].nodes && m.millId == n.millId :: m == n
    ensures var after := ProcessAll(s, deliveries);
            && id in after.allocs && after.allocs[id].startedAt == Some(deliveries[2].now)
            && IsReachable(after.allocs[id].address, port, mesh, n.address.ip)
  {
    var reports := RunReports(id, true, false, true, port, mesh);
    OneMoreProcessed(s, deliveries, reports);
    assert reports[..2] == [StatusUpdate(id, Pulling), StatusUpdate(id, Starting)];
    UpdatesKeepRest(s, deliveries[..2], id);
    StartIsProcessed(ProcessAll(s, deliveries[..2]), deliveries[2].nodes, n, reports[2], deliveries[2].now, mesh);
  }

  /** What the runtime answers during recovery. */
  datatype Runtime = Runtime(
    listOk: bool, stopOk: AllocId -> bool, recover: AllocId -> Option<Recovered>, mesh: Option<IpAddr>)

  /** Recovery of one expected allocation: the node's next state and the report it sends, if any. */
  ghost function RecoverOne(s: State, id: AllocId, running: set<AllocId>, rt: Runtime): (State, seq<NodeReport>)
    requires s.thread.Idle?
  {
    if id !in running then (s, [ReportStopped(id, -1)])
    else
      match rt.recover(id)
      case None => (s, [])
      case Some(Recovered(port)) =>
        (RecoverUninterrupted(s, id, port),
         if id in s.allocs then [] else [RunStarted(id, port, MeshAddress(rt.mesh, port))])
  }

  ghost function RecoverAll(s: State, expected: seq<AllocId>, running: set<AllocId>, rt: Runtime):
    (r: (State, seq<NodeReport>))
    requires s.thread.Idle?
    ensures r.0.thread.Idle?
  {
    if expected == [] then (s, [])
    else
      var (s1, sent) := RecoverAll(s, expected[..|expected| - 1], running, rt);
      var (s2, more) := RecoverOne(s1, expected[|expected| - 1], running, rt);
      (s2, sent + more)
  }

  /** The containers left after the orphans that can be stopped are stopped. */
  function Remaining(running: set<AllocId>, expected: seq<AllocId>, rt: Runtime): set<AllocId> {
    set id | id in running && (id in expected || !rt.stopOk(id))
  }

  class Secondary {
    const ports: PortAllocator
    var allocs: map<AllocId, Local>
    var waiters: map<nat, Waiter>
    var spawned: nat
    var used: set<AllocId>
    /** The containers that run on the node. */
    var running: set<AllocId>
    var reports: seq<NodeReport>

    /** The state as the step machine of `Runner` sees it, between two commands. */
    function View(): State
      reads this, ports
    {
      State(ports.View(), allocs, Idle, waiters, spawned, used)
    }

    constructor (ports: PortAllocator, running: set<AllocId>)
      ensures this.ports == ports && View() == State(ports.View(), map[], Idle, map[], 0, {})
      ensures this.running == running && reports == []
    {
      this.ports, this.running := ports, running;
      allocs, waiters, spawned, used, reports := map[], map[], 0, {}, [];
    }

    /** Start a container: the image may not be there and the runtime may refuse. */
    method RunContainer(id: AllocId, exposes: bool, mesh: Option<IpAddr>, imageReady: bool, runOk: bool)
      returns (ok: bool)
      modifies this, ports
      ensures View() == RunUninterrupted(old(View()), id, exposes, imageReady, runOk)
      ensures running == if ok then old(running) + {id} else old(running)
      ensures ok <==> id !in old(allocs) && imageReady && runOk && (exposes ==> old(ports.available) != {})
      ensures id in old(allocs) ==> reports == old(reports)
      ensures id !in old(allocs) ==>
                reports == old(reports) + RunReports(id, imageReady, exposes && old(ports.available) == {}, runOk,
                                                     HostPort(allocs, id), mesh)
    {
      if id in allocs {
        return false;
      }
      RunIsLaunched(View(), id, exposes, runOk);
      used := used + {id};
      Report(StatusUpdate(id, Pulling));
      if !imageReady {
        Report(RunFailed(id, "image pull failed"));
        return false;
      }
      Report(StatusUpdate(id, Starting));
      ok := Launch(id, exposes, mesh, runOk);
    }

    /** The second half of `RunContainer`: take a port, run, record, report and watch. */
    method Launch(id: AllocId, exposes: bool, mesh: Option<IpAddr>, runOk: bool) returns (ok: bool)
      requires id !in allocs
      modifies this, ports
      ensures View() == Launched(old(View()), id, exposes, runOk)
      ensures running == if ok then old(running) + {id} else old(running)
      ensures ok <==> runOk && (exposes ==> old(ports.available) != {})
      ensures reports == old(reports) + LaunchReports(id, exposes && old(ports.available) == {}, runOk,
                                                      HostPort(allocs, id), mesh)
    {
      var port: Option<nat> := None;
      if exposes {
        port := ports.AllocatePort(id);
        if port.None? {
          return false;
        }
      }
      if !runOk {
        if port.Some? {
          ports.ReleasePort(port.value);
        }
        Report(RunFailed(id, "container start failed"));
        return false;
      }
      running := running + {id};
      allocs := InsertNew(allocs, id, port);
      Report(RunStarted(id, port, MeshAddress(mesh, port)));
      waiters, spawned := waiters[spawned := Waiter(id, port, Waiting)], spawned + 1;
      ok := true;
    }

    /** Send a report to the primary. */
    method Report(report: NodeReport)
      modifies this`reports
      ensures reports == old(reports) + [report]
    {
      reports := reports + [report];
    }

    /** Stop a container; the record and the port go whether or not the runtime could stop it. */
    method StopContainer(id: AllocId, stopped: Option<int>)
      modifies this, ports
      ensures View() == StopUninterrupted(old(View()), id)
      ensures running == if stopped.Some? then old(running) - {id} else old(running)
      ensures reports == old(reports) + [ReportStopped(id, if stopped.Some? then stopped.value else -1)]
    {
      var port := HostPort(allocs, id);
      if stopped.Some? {
        running := running - {id};
      }
      if port.Some? {
        ports.ReleasePort(port.value);
      }
      allocs := allocs - {id};
      reports := reports + [ReportStopped(id, if stopped.Some? then stopped.value else -1)];
    }

    /**
     The waiter for a container's exit; a wait that fails counts as an exit. Either way a container of
     this id may still run: the wait failed, or the id has been started again.
     */
    method ExitWaiter(k: nat, outcome: Option<int>, still: bool)
      requires k in waiters && waiters[k].phase.Waiting?
      modifies this, ports
      ensures var code := if outcome.Some? then outcome.value else -1;
              View() == ExitUninterrupted(old(View()), k, code)
              && reports == old(reports) + [ReportStopped(old(waiters)[k].id, code)]
      ensures running == if still then old(running) else old(running) - {old(waiters)[k].id}
    {
      var w, code := waiters[k], if outcome.Some? then outcome.value else -1;
      if !still {
        running := running - {w.id};
      }
      allocs := SetStatus(allocs, w.id, ExitStatus(code));
      if w.port.Some? {
        ports.ReleasePort(w.port.value);
      }
      allocs := allocs - {w.id};
      ghost var before := waiters[k := w.(phase := Marked)][k := w.(phase := Freed)];
      assert before - {k} == waiters - {k};
      waiters := waiters - {k};
      reports := reports + [ReportStopped(w.id, code)];
    }

    /** Reconcile the containers that run with the allocations the primary expects here. */
    method Reconcile(expected: seq<AllocId>, rt: Runtime)
      modifies this, ports
      ensures !rt.listOk ==>
                View() == old(View()) && running == old(running) && reports == old(reports)
      ensures rt.listOk ==>
                && running == Remaining(old(running), expected, rt)
                && View() == RecoverAll(old(View()), expected, old(running), rt).0
                && reports == old(reports) + RecoverAll(old(View()), expected, old(running), rt).1
    {
      if !rt.listOk {
        return;
      }
      var listed := running;
      StopOrphans(expected, rt);
      for i := 0 to |expected|
        invariant running == Remaining(old(running), expected, rt)
        invariant View() == RecoverAll(old(View()), expected[..i], listed, rt).0
        invariant reports == old(reports) + RecoverAll(old(View()), expected[..i], listed, rt).1
      {
        assert expected[..i + 1][..i] == expected[..i];
        RecoverContainer(expected[i], listed, rt);
      }
      assert expected[..|expected|] == expected;
    }

    method StopOrphans(expected: seq<AllocId>, rt: Runtime)
      modifies this`running
      ensures running == Remaining(old(running), expected, rt)
    {
      var todo := running;
      while todo != {}
        invariant todo <= old(running)
        invariant running == set id | id in old(running) && (id in todo || id in expected || !rt.stopOk(id))
        decreases |todo|
      {
        var id :| id in todo;
        todo := todo - {id};
        if id !in expected {
          if rt.stopOk(id) {
            running := running - {id};
          }
        }
      }
    }

    method RecoverContainer(id: AllocId, listed: set<AllocId>, rt: Runtime)
      modifies this, ports
      ensures running == old(running)
      ensures View() == RecoverOne(old(View()), id, listed, rt).0
      ensures reports == old(reports) + RecoverOne(old(View()), id, listed, rt).1
    {
      if id !in listed {
        Report(ReportStopped(id, -1));
        return;
      }
      var recovered := rt.recover(id);
      if recovered.None? {
        return;
      }
      var port := recovered.value.hostPort;
      used := used + {id};
      if port.Some? {
        // a refusal is only logged: the container keeps its port
        var _ := ports.AllocateSpecificPort(id, port.value);
      }
      if id in allocs {
        return;
      }
      allocs := InsertNew(allocs, id, port);
      waiters, spawned := waiters[spawned := Waiter(id, port, Waiting)], spawned + 1;
      Report(RunStarted(id, port, MeshAddress(rt.mesh, port)));
    }
  }
}
