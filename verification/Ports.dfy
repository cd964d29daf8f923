/** The pool of host ports for containers. */
module Ports {
  import opened Types

  /** A port belongs to at most one of the two collections; ports in neither are in use by the host. */
  datatype Pool = Pool(start: nat, end: nat, available: set<nat>, owners: map<nat, AllocId>)

  predicate InRange(pool: Pool, port: nat) {
    pool.start <= port <= pool.end
  }

  ghost predicate ValidPool(pool: Pool) {
    && pool.available !! pool.owners.Keys
    && (forall p | p in pool.available :: InRange(pool, p))
    && (forall p | p in pool.owners :: InRange(pool, p))
  }

  ghost predicate IsLeast(p: nat, ports: set<nat>) {
    p in ports && forall q | q in ports :: p <= q
  }

  lemma {:induction false} LeastExists(ports: set<nat>)
    requires ports != {}
    ensures exists p :: IsLeast(p, ports)
    decreases |ports|
  {
    var p :| p in ports;
    var others := ports - {p};
    assert forall q | q in ports :: q == p || q in others;
    if others == {} {
      assert IsLeast(p, ports);
    } else {
      LeastExists(others);
      var rest :| IsLeast(rest, others);
      assert IsLeast(if p <= rest then p else rest, ports);
    }
  }

  /** The least available port, taken for the allocation. */
  ghost function Allocate(pool: Pool, id: AllocId): (r: (Pool, Option<nat>))
    ensures pool.available == {} ==> r == (pool, None)
    ensures pool.available != {} ==>
              && r.1.Some? && IsLeast(r.1.value, pool.available)
              && r.0 == pool.(available := pool.available - {r.1.value},
                              owners := pool.owners[r.1.value := id])
  {
    if pool.available == {} then (pool, None)
    else
      LeastExists(pool.available);
      var p :| IsLeast(p, pool.available);
      (pool.(available := pool.available - {p}, owners := pool.owners[p := id]), Some(p))
  }

  function AllocateSpecific(pool: Pool, id: AllocId, port: nat): (Pool, bool) {
    if !InRange(pool, port) || port in pool.owners then (pool, false)
    else (pool.(available := pool.available - {port}, owners := pool.owners[port := id]), true)
  }

  /** Releasing is by port alone, whoever owns it. */
  function Release(pool: Pool, port: nat): Pool {
    if port in pool.owners then
      pool.(available := pool.available + {port}, owners := pool.owners - {port})
    else pool
  }

  /** The entries of a snapshot that can be taken up again. */
  function Restorable(pool: Pool, snapshot: map<nat, AllocId>, inUse: set<nat>): map<nat, AllocId> {
    map p | p in snapshot && InRange(pool, p) && p !in inUse :: snapshot[p]
  }

  function Restore(pool: Pool, snapshot: map<nat, AllocId>, inUse: set<nat>): Pool {
    var back := Restorable(pool, snapshot, inUse);
    pool.(available := pool.available - back.Keys, owners := pool.owners + back)
  }

  function PortRange(start: nat, end: nat): (ports: set<nat>)
    ensures forall p :: p in ports <==> start <= p <= end
    decreases end - start
  {
    if start > end then {} else {start} + PortRange(start + 1, end)
  }

  function FreshPool(start: nat, end: nat, inUse: set<nat>): Pool {
    Pool(start, end, PortRange(start, end) - inUse, map[])
  }

  class PortAllocator {
    const start: nat
    const end: nat
    var available: set<nat>
    var owners: map<nat, AllocId>

    function View(): Pool
      reads this
    {
      Pool(start, end, available, owners)
    }

    /** The whole range except the ports the host uses. */
    constructor (start: nat, end: nat, inUse: set<nat>)
      ensures View() == FreshPool(start, end, inUse)
    {
      this.start, this.end := start, end;
      owners := map[];
      var ports := PortRange(start, end);
      new;
      var todo := inUse;
      available := ports;
      while todo != {}
        invariant todo <= inUse && available == ports - (inUse - todo)
        invariant owners == map[]
        decreases |todo|
      {
        var p :| p in todo;
        todo := todo - {p};
        available := available - {p};
      }
    }

    method AllocatePort(id: AllocId) returns (port: Option<nat>)
      modifies this
      ensures (View(), port) == Allocate(old(View()), id)
    {
      if available == {} {
        return None;
      }
      var least :| least in available;
      var todo := available - {least};
      while todo != {}
        invariant todo <= available && least in available
        invariant forall p | p in available && p !in todo :: least <= p
        decreases |todo|
      {
        var p :| p in todo;
        todo := todo - {p};
        if p < least {
          least := p;
        }
      }
      available := available - {least};
      owners := owners[least := id];
      port := Some(least);
    }

    method AllocateSpecificPort(id: AllocId, port: nat) returns (ok: bool)
      modifies this
      ensures (View(), ok) == AllocateSpecific(old(View()), id, port)
    {
      if port < start || port > end {
        return false;
      }
      if port in owners {
        return false;
      }
      available := available - {port};
      owners := owners[port := id];
      ok := true;
    }

    method ReleasePort(port: nat)
      modifies this
      ensures View() == Release(old(View()), port)
    {
      if port in owners {
        owners := owners - {port};
        available := available + {port};
      }
    }

    method Snapshot() returns (snapshot: map<nat, AllocId>)
      ensures snapshot == owners
    {
      snapshot := owners;
    }

    /** Take up a snapshot in any order, skipping ports out of range or now used by the host. */
    method RestorePorts(snapshot: map<nat, AllocId>, inUse: set<nat>)
      modifies this
      ensures View() == Restore(old(View()), snapshot, inUse)
    {
      ghost var pool := View();
      var todo := snapshot.Keys;
      NoneRestored(pool, snapshot, inUse);
      while todo != {}
        invariant todo <= snapshot.Keys
        invariant View() == Restore(pool, snapshot - todo, inUse)
        decreases |todo|
      {
        var port :| port in todo;
        OneRestored(pool, snapshot, todo, port, inUse);
        todo := todo - {port};
        if start <= port <= end && port !in inUse {
          available := available - {port};
          owners := owners[port := snapshot[port]];
        }
      }
      assert snapshot - todo == snapshot;
    }
  }

  lemma NoneRestored(pool: Pool, snapshot: map<nat, AllocId>, inUse: set<nat>)
    ensures Restore(pool, snapshot - snapshot.Keys, inUse) == pool
  {
    assert Restorable(pool, snapshot - snapshot.Keys, inUse) == map[];
  }

  lemma OneRestored(pool: Pool, snapshot: map<nat, AllocId>, todo: set<nat>, port: nat, inUse: set<nat>)
    requires port in todo && todo <= snapshot.Keys
    ensures var before := Restore(pool, snapshot - todo, inUse);
            Restore(pool, snapshot - (todo - {port}), inUse)
            == if pool.start <= port <= pool.end && port !in inUse
               then before.(available := before.available - {port}, owners := before.owners[port := snapshot[port]])
               else before
  {
    var old', new' := Restorable(pool, snapshot - todo, inUse), Restorable(pool, snapshot - (todo - {port}), inUse);
    if pool.start <= port <= pool.end && port !in inUse {
      assert new' == old'[port := snapshot[port]];
      assert pool.available - new'.Keys == pool.available - old'.Keys - {port};
      assert pool.owners + new' == (pool.owners + old')[port := snapshot[port]];
    } else {
      assert new' == old';
    }
  }

  // ----- Invariants -----

  /** The ports the pool manages at all. */
  ghost function Managed(pool: Pool): set<nat> {
    pool.available + pool.owners.Keys
  }

  /** Every operation keeps available and allocated ports apart and in range. */
  lemma OperationsKeepValid(
    pool: Pool, id: AllocId, port: nat, snapshot: map<nat, AllocId>, inUse: set<nat>)
    requires ValidPool(pool)
    ensures ValidPool(Allocate(pool, id).0) && ValidPool(AllocateSpecific(pool, id, port).0)
    ensures ValidPool(Release(pool, port)) && ValidPool(Restore(pool, snapshot, inUse))
    ensures ValidPool(FreshPool(pool.start, pool.end, inUse))
  {
  }

  /** Taking the least port and releasing one neither lose nor gain a port, and the one undoes the other. */
  lemma PortsAreConserved(pool: Pool, id: AllocId, port: nat)
    requires ValidPool(pool)
    ensures Managed(Allocate(pool, id).0) == Managed(pool)
    ensures Managed(Release(pool, port)) == Managed(pool)
    ensures Allocate(pool, id).1.Some? ==> Release(Allocate(pool, id).0, Allocate(pool, id).1.value) == pool
  {
    var (pool', taken) := Allocate(pool, id);
    if taken.Some? {
      assert pool'.owners - {taken.value} == pool.owners;
    }
  }

  /**
   Reserving a specific port gains the pool a port exactly if it succeeds for one that was not
   available, such as one the host had in use when the pool was made.
   */
  lemma SpecificConservesIff(pool: Pool, id: AllocId, port: nat)
    requires ValidPool(pool)
    ensures var (pool', ok) := AllocateSpecific(pool, id, port);
            && (ok <==> InRange(pool, port) && port !in pool.owners)
            && Managed(pool') == Managed(pool) + (if ok then {port} else {})
            && (Managed(pool') == Managed(pool) <==> !ok || port in pool.available)
            && (ok ==> Managed(Release(pool', port)) == Managed(pool) + {port})
  {
    var (pool', ok) := AllocateSpecific(pool, id, port);
    if ok {
      assert port in Managed(pool');
      PortsAreConserved(pool', id, port);
    }
  }

  /** A snapshot restored into a fresh pool of the same range gives the same pool back. */
  lemma RestoreRoundTrip(pool: Pool)
    requires ValidPool(pool) && Managed(pool) == PortRange(pool.start, pool.end)
    ensures Restore(FreshPool(pool.start, pool.end, {}), pool.owners, {}) == pool
  {
    var fresh' := FreshPool(pool.start, pool.end, {});
    assert Restorable(fresh', pool.owners, {}) == pool.owners;
    assert fresh'.available == Managed(pool);
  }

  /**
   A snapshot restored into a new pool: of the ports in range that the host does not use, exactly
   those in the snapshot belong to their former owners, and all others are available.
   */
  lemma RestoredIff(start: nat, end: nat, snapshot: map<nat, AllocId>, inUse: set<nat>, port: nat)
    ensures var pool := Restore(FreshPool(start, end, inUse), snapshot, inUse);
            && pool.start == start && pool.end == end
            && (port in Managed(pool) <==> start <= port <= end && port !in inUse)
            && (port in pool.owners <==> start <= port <= end && port !in inUse && port in snapshot)
            && (port in pool.owners ==> pool.owners[port] == snapshot[port] && port !in pool.available)
  {
  }
}
