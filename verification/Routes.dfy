/**
 From the state machine to the backend of a request: the routes computed for the proxy, its
 table with the longest paths first, and the lookup. Paths are sequences of characters.
 */
module Routes {
  import opened Types

  datatype ProxyRoute = ProxyRoute(hostname: string, path: string, backend: SocketAddr, websocket: bool)

  datatype RouteEntry = RouteEntry(path: string, backend: SocketAddr, websocket: bool)

  datatype RouteMatch = RouteMatch(backend: SocketAddr, websocket: bool, path: string)

  // ----- Computing the routes -----

  /** The allocation of the service runs and can be reached. */
  predicate Reachable(s: FsmState, a: AllocId, name: string) {
    a in s.allocs && s.allocs[a].name == name && s.allocs[a].status.IsActive() && s.allocs[a].address.Some?
  }

  predicate Leads(def: RouteDef, backend: SocketAddr, r: ProxyRoute) {
    r == ProxyRoute(def.hostname, def.path, backend, def.websocket)
  }

  /** The route stands for a configured route of a service and one of its reachable allocations. */
  ghost predicate Routable(s: FsmState, r: ProxyRoute) {
    exists name, i, a ::
      && name in ServicesOf(s.config)
      && 0 <= i < |ServicesOf(s.config)[name].routes|
      && Reachable(s, a, name)
      && Leads(ServicesOf(s.config)[name].routes[i], s.allocs[a].address.value, r)
  }

  ghost predicate IsRouteList(s: FsmState, routes: seq<ProxyRoute>) {
    forall r :: r in routes <==> Routable(s, r)
  }

  /** One route per configured route and reachable allocation, services and allocations in any order. */
  method ComputeProxyRoutes(s: FsmState) returns (routes: seq<ProxyRoute>)
    ensures IsRouteList(s, routes)
  {
    var services := ServicesOf(s.config);
    routes := [];
    ghost var done: set<string> := {};
    var todo := services.Keys;
    while todo != {}
      invariant todo <= services.Keys && done == services.Keys - todo
      invariant forall r :: r in routes <==> RoutableAmong(s, done, r)
      decreases |todo|
    {
      var name :| name in todo;
      todo := todo - {name};
      var addrs := Addresses(s, name);
      var more := RoutesTo(services[name].routes, addrs);
      forall r ensures r in routes + more <==> RoutableAmong(s, done + {name}, r) {
        OneService(s, done, name, addrs, more, r);
      }
      routes := routes + more;
      done := done + {name};
    }
    assert done == services.Keys;
    forall r ensures r in routes <==> Routable(s, r) {
      AllServices(s, r);
    }
  }

  ghost predicate RoutableFor(s: FsmState, name: string, r: ProxyRoute)
    requires name in ServicesOf(s.config)
  {
    exists i, a ::
      && 0 <= i < |ServicesOf(s.config)[name].routes|
      && Reachable(s, a, name)
      && Leads(ServicesOf(s.config)[name].routes[i], s.allocs[a].address.value, r)
  }

  ghost predicate RoutableAmong(s: FsmState, names: set<string>, r: ProxyRoute)
    requires names <= ServicesOf(s.config).Keys
  {
    exists name | name in names :: RoutableFor(s, name, r)
  }

  lemma AllServices(s: FsmState, r: ProxyRoute)
    ensures RoutableAmong(s, ServicesOf(s.config).Keys, r) <==> Routable(s, r)
  {
    if RoutableAmong(s, ServicesOf(s.config).Keys, r) {
      var name :| name in ServicesOf(s.config).Keys && RoutableFor(s, name, r);
      var i, a :| 0 <= i < |ServicesOf(s.config)[name].routes| && Reachable(s, a, name)
                  && Leads(ServicesOf(s.config)[name].routes[i], s.allocs[a].address.value, r);
    }
    if Routable(s, r) {
      var name, i, a :| name in ServicesOf(s.config) && 0 <= i < |ServicesOf(s.config)[name].routes| && Reachable(s, a, name)
                        && Leads(ServicesOf(s.config)[name].routes[i], s.allocs[a].address.value, r);
      assert RoutableFor(s, name, r);
    }
  }

  method Addresses(s: FsmState, name: string) returns (addrs: seq<SocketAddr>)
    ensures forall x :: x in addrs <==> exists a :: Reachable(s, a, name) && s.allocs[a].address == Some(x)
  {
    addrs := [];
    var todo := s.allocs.Keys;
    while todo != {}
      invariant todo <= s.allocs.Keys
      invariant forall x :: x in addrs <==>
                  exists a :: Reachable(s, a, name) && a !in todo && s.allocs[a].address == Some(x)
      decreases |todo|
    {
      var a :| a in todo;
      todo := todo - {a};
      if Reachable(s, a, name) {
        addrs := addrs + [s.allocs[a].address.value];
      }
    }
  }

  method RoutesTo(defs: seq<RouteDef>, addrs: seq<SocketAddr>) returns (routes: seq<ProxyRoute>)
    ensures forall r :: r in routes <==> exists i, x | 0 <= i < |defs| && x in addrs :: Leads(defs[i], x, r)
  {
    routes := [];
    for i := 0 to |defs|
      invariant forall r :: r in routes <==> exists j, x | 0 <= j < i && x in addrs :: Leads(defs[j], x, r)
    {
      for k := 0 to |addrs|
        invariant forall r :: r in routes <==>
                    || (exists j, x | 0 <= j < i && x in addrs :: Leads(defs[j], x, r))
                    || (exists x | x in addrs[..k] :: Leads(defs[i], x, r))
      {
        routes := routes + [ProxyRoute(defs[i].hostname, defs[i].path, addrs[k], defs[i].websocket)];
        assert addrs[..k + 1] == addrs[..k] + [addrs[k]];
        assert Leads(defs[i], addrs[k], routes[|routes| - 1]);
      }
      assert addrs[..|addrs|] == addrs;
    }
  }

  lemma OneService(
    s: FsmState, done: set<string>, name: string, addrs: seq<SocketAddr>, more: seq<ProxyRoute>, r: ProxyRoute)
    requires done <= ServicesOf(s.config).Keys && name in ServicesOf(s.config)
    requires forall x :: x in addrs <==> exists a :: Reachable(s, a, name) && s.allocs[a].address == Some(x)
    requires var defs := ServicesOf(s.config)[name].routes;
             r in more <==> exists i, x | 0 <= i < |defs| && x in addrs :: Leads(defs[i], x, r)
    ensures RoutableAmong(s, done + {name}, r) <==> RoutableAmong(s, done, r) || r in more
  {
    var defs := ServicesOf(s.config)[name].routes;
    if r in more {
      var i, x :| 0 <= i < |defs| && x in addrs && Leads(defs[i], x, r);
      var a :| Reachable(s, a, name) && s.allocs[a].address == Some(x);
      assert RoutableFor(s, name, r);
    }
    if RoutableFor(s, name, r) {
      var i, a :| 0 <= i < |defs| && Reachable(s, a, name) && Leads(defs[i], s.allocs[a].address.value, r);
      assert s.allocs[a].address.value in addrs;
    }
  }

  // ----- The table -----

  function EntryOf(r: ProxyRoute): RouteEntry {
    RouteEntry(r.path, r.backend, r.websocket)
  }

  /** The entries of one hostname, in the order of the routes. */
  function EntriesFor(routes: seq<ProxyRoute>, hostname: string): (entries: seq<RouteEntry>)
    ensures forall e :: e in entries <==> exists r | r in routes :: r.hostname == hostname && EntryOf(r) == e
  {
    if routes == [] then []
    else
      var n := |routes| - 1;
      assert routes == routes[..n] + [routes[n]];
      EntriesFor(routes[..n], hostname) + if routes[n].hostname == hostname then [EntryOf(routes[n])] else []
  }

  predicate LongestFirst(entries: seq<RouteEntry>) {
    forall i, j | 0 <= i < j < |entries| :: |entries[i].path| >= |entries[j].path|
  }

  /** Put an entry behind all that are as long. */
  function Insert(entries: seq<RouteEntry>, e: RouteEntry): seq<RouteEntry> {
    if entries == [] || |entries[|entries| - 1].path| >= |e.path| then entries + [e]
    else
      var n := |entries| - 1;
      Insert(entries[..n], e) + [entries[n]]
  }

  /** A stable sort by descending length of path. */
  function Sort(entries: seq<RouteEntry>): seq<RouteEntry> {
    if entries == [] then []
    else
      var n := |entries| - 1;
      Insert(Sort(entries[..n]), entries[n])
  }

  lemma {:induction false} InsertAdds(entries: seq<RouteEntry>, e: RouteEntry)
    ensures multiset(Insert(entries, e)) == multiset(entries) + multiset{e}
    ensures forall x | x in Insert(entries, e) :: x in entries || x == e
    decreases |entries|
  {
    if entries != [] && |entries[|entries| - 1].path| < |e.path| {
      var n := |entries| - 1;
      InsertAdds(entries[..n], e);
      assert entries == entries[..n] + [entries[n]];
    }
  }

  lemma {:induction false} InsertSorts(entries: seq<RouteEntry>, e: RouteEntry)
    requires LongestFirst(entries)
    ensures LongestFirst(Insert(entries, e))
    decreases |entries|
  {
    if entries != [] && |entries[|entries| - 1].path| < |e.path| {
      var n := |entries| - 1;
      var front := Insert(entries[..n], e);
      InsertSorts(entries[..n], e);
      InsertAdds(entries[..n], e);
      forall i | 0 <= i < |front| ensures |front[i].path| >= |entries[n].path| {
        assert front[i] in front;
      }
    }
  }

  lemma {:induction false} SortIsSorted(entries: seq<RouteEntry>)
    ensures multiset(Sort(entries)) == multiset(entries) && LongestFirst(Sort(entries))
    decreases |entries|
  {
    if entries != [] {
      var n := |entries| - 1;
      assert entries == entries[..n] + [entries[n]];
      SortIsSorted(entries[..n]);
      InsertAdds(Sort(entries[..n]), entries[n]);
      InsertSorts(Sort(entries[..n]), entries[n]);
    }
  }

  /** The entries whose path has a given length, in order. */
  function OfLength(entries: seq<RouteEntry>, length: nat): seq<RouteEntry> {
    if entries == [] then []
    else
      var n := |entries| - 1;
      OfLength(entries[..n], length) + if |entries[n].path| == length then [entries[n]] else []
  }

  lemma OneMore(entries: seq<RouteEntry>, e: RouteEntry, length: nat)
    ensures OfLength(entries + [e], length) == OfLength(entries, length) + if |e.path| == length then [e] else []
  {
    assert (entries + [e])[..|entries|] == entries;
  }

  lemma {:induction false} InsertIsStable(entries: seq<RouteEntry>, e: RouteEntry, length: nat)
    ensures OfLength(Insert(entries, e), length)
            == OfLength(entries, length) + if |e.path| == length then [e] else []
    decreases |entries|
  {
    if entries == [] || |entries[|entries| - 1].path| >= |e.path| {
      OneMore(entries, e, length);
    } else {
      var n := |entries| - 1;
      InsertIsStable(entries[..n], e, length);
      OneMore(Insert(entries[..n], e), entries[n], length);
      var front := OfLength(entries[..n], length);
      assert front + [] == front;
      assert |e.path| != length || |entries[n].path| != length;
    }
  }

  /** Entries of the same length keep their order. */
  lemma {:induction false} SortIsStable(entries: seq<RouteEntry>, length: nat)
    ensures OfLength(Sort(entries), length) == OfLength(entries, length)
    decreases |entries|
  {
    if entries != [] {
      var n := |entries| - 1;
      SortIsStable(entries[..n], length);
      InsertIsStable(Sort(entries[..n]), entries[n], length);
    }
  }

  function Hostnames(routes: seq<ProxyRoute>): set<string> {
    set r | r in routes :: r.hostname
  }

  function TableOf(routes: seq<ProxyRoute>): map<string, seq<RouteEntry>> {
    map h | h in Hostnames(routes) :: Sort(EntriesFor(routes, h))
  }

  predicate IsPrefix(prefix: string, path: string) {
    prefix <= path
  }

  function FirstMatch(entries: seq<RouteEntry>, path: string): Option<RouteMatch> {
    if entries == [] then None
    else if IsPrefix(entries[0].path, path) then
      Some(RouteMatch(entries[0].backend, entries[0].websocket, entries[0].path))
    else FirstMatch(entries[1..], path)
  }

  function Found(table: map<string, seq<RouteEntry>>, hostname: string, path: string): Option<RouteMatch> {
    if hostname in table then FirstMatch(table[hostname], path) else None
  }

  class RouteTable {
    var routes: map<string, seq<RouteEntry>>

    /** Group the routes by hostname, then sort each group. */
    constructor (proxyRoutes: seq<ProxyRoute>)
      ensures routes == TableOf(proxyRoutes)
    {
      var groups := Group(proxyRoutes);
      var sorted := SortEach(groups);
      routes := sorted;
    }

    method Lookup(hostname: string, path: string) returns (found: Option<RouteMatch>)
      ensures found == Found(routes, hostname, path)
    {
      if hostname !in routes { return None; }
      var entries := routes[hostname];
      for i := 0 to |entries|
        invariant FirstMatch(entries, path) == FirstMatch(entries[i..], path)
      {
        if IsPrefix(entries[i].path, path) {
          return Some(RouteMatch(entries[i].backend, entries[i].websocket, entries[i].path));
        }
        assert entries[i..][1..] == entries[i + 1..];
      }
      return None;
    }
  }

  function Grouped(routes: seq<ProxyRoute>): map<string, seq<RouteEntry>> {
    map h | h in Hostnames(routes) :: EntriesFor(routes, h)
  }

  method Group(proxyRoutes: seq<ProxyRoute>) returns (routes: map<string, seq<RouteEntry>>)
    ensures routes == Grouped(proxyRoutes)
  {
    routes := map[];
    for i := 0 to |proxyRoutes|
      invariant routes == Grouped(proxyRoutes[..i])
    {
      var r := proxyRoutes[i];
      OneRoute(proxyRoutes, i);
      var entries := if r.hostname in routes then routes[r.hostname] else [];
      routes := routes[r.hostname := entries + [EntryOf(r)]];
    }
    assert proxyRoutes[..|proxyRoutes|] == proxyRoutes;
  }

  method SortEach(groups: map<string, seq<RouteEntry>>) returns (routes: map<string, seq<RouteEntry>>)
    ensures routes == map h | h in groups :: Sort(groups[h])
  {
    routes := groups;
    var todo := groups.Keys;
    while todo != {}
      invariant routes.Keys == groups.Keys && todo <= groups.Keys
      invariant forall h | h in groups :: routes[h] == if h in todo then groups[h] else Sort(groups[h])
      decreases |todo|
    {
      var h :| h in todo;
      todo := todo - {h};
      routes := routes[h := Sort(groups[h])];
    }
  }

  lemma OneRoute(routes: seq<ProxyRoute>, i: nat)
    requires i < |routes|
    ensures var (h, before) := (routes[i].hostname, Grouped(routes[..i]));
            Grouped(routes[..i + 1]) == before[h := (if h in before then before[h] else []) + [EntryOf(routes[i])]]
  {
    var h := routes[i].hostname;
    assert routes[..i + 1][..i] == routes[..i];
    assert routes[..i + 1] == routes[..i] + [routes[i]];
    assert Hostnames(routes[..i + 1]) == Hostnames(routes[..i]) + {h};
    forall k ensures EntriesFor(routes[..i + 1], k)
                     == if k == h then EntriesFor(routes[..i], h) + [EntryOf(routes[i])] else EntriesFor(routes[..i], k)
    {
    }
    NoEntries(routes[..i], h);
  }

  lemma NoEntries(routes: seq<ProxyRoute>, hostname: string)
    ensures hostname !in Hostnames(routes) ==> EntriesFor(routes, hostname) == []
  {
    var entries := EntriesFor(routes, hostname);
    if entries != [] {
      assert entries[0] in entries;
    }
  }

  /** The first match of a sorted list is a longest one. */
  lemma {:induction false} FirstMatchIsLongest(entries: seq<RouteEntry>, path: string)
    requires LongestFirst(entries)
    ensures var m := FirstMatch(entries, path);
            if m.None? then forall e | e in entries :: !IsPrefix(e.path, path)
            else
              && RouteEntry(m.value.path, m.value.backend, m.value.websocket) in entries
              && IsPrefix(m.value.path, path)
              && forall e | e in entries && IsPrefix(e.path, path) :: |e.path| <= |m.value.path|
  {
    if entries != [] {
      FirstMatchIsLongest(entries[1..], path);
      assert forall e | e in entries :: e == entries[0] || e in entries[1..];
    }
  }

  lemma SortKeeps(entries: seq<RouteEntry>, e: RouteEntry)
    ensures e in Sort(entries) <==> e in entries
  {
    SortIsSorted(entries);
    assert e in Sort(entries) <==> e in multiset(Sort(entries));
    assert e in entries <==> e in multiset(entries);
  }

  /** The route matches the request. */
  predicate Matches(r: ProxyRoute, hostname: string, path: string) {
    r.hostname == hostname && IsPrefix(r.path, path)
  }

  lemma TableHolds(routes: seq<ProxyRoute>, hostname: string, e: RouteEntry)
    ensures hostname in TableOf(routes) && e in TableOf(routes)[hostname] <==>
            ProxyRoute(hostname, e.path, e.backend, e.websocket) in routes
  {
    var r := ProxyRoute(hostname, e.path, e.backend, e.websocket);
    if hostname in TableOf(routes) {
      SortKeeps(EntriesFor(routes, hostname), e);
      assert r in routes ==> EntryOf(r) == e;
    }
    assert r in routes ==> r.hostname in Hostnames(routes);
  }

  /**
   End to end: a request finds a backend exactly if some configured route of its hostname prefixes
   its path and has a reachable allocation; the match is a longest such route, and its backend is
   the address of such an allocation.
   */
  lemma RoutingIsCorrect(s: FsmState, routes: seq<ProxyRoute>, hostname: string, path: string)
    requires IsRouteList(s, routes)
    ensures var m := Found(TableOf(routes), hostname, path);
            if m.None? then forall r | Routable(s, r) :: !Matches(r, hostname, path)
            else
              var best := ProxyRoute(hostname, m.value.path, m.value.backend, m.value.websocket);
              && Routable(s, best) && Matches(best, hostname, path)
              && forall r | Routable(s, r) && Matches(r, hostname, path) :: |r.path| <= |best.path|
  {
    var table := TableOf(routes);
    if hostname in table {
      SortIsSorted(EntriesFor(routes, hostname));
      FirstMatchIsLongest(table[hostname], path);
    }
    var m := Found(table, hostname, path);
    if m.Some? {
      TableHolds(routes, hostname, RouteEntry(m.value.path, m.value.backend, m.value.websocket));
    }
    forall r | Routable(s, r) && Matches(r, hostname, path)
      ensures hostname in table && EntryOf(r) in table[hostname]
    {
      TableHolds(routes, hostname, EntryOf(r));
    }
  }

  /** A service, one of its routes and one of its allocations. */
  datatype Way = Way(service: string, route: nat, alloc: AllocId)

  ghost predicate IsWay(s: FsmState, w: Way) {
    s.config.Some? && w.service in s.config.value.services && w.route < |s.config.value.services[w.service].routes|
  }

  function RouteOf(s: FsmState, w: Way): RouteDef
    requires IsWay(s, w)
  {
    s.config.value.services[w.service].routes[w.route]
  }

  /** The route is for the request, and the allocation is running or healthy and has an address. */
  ghost predicate Serves(s: FsmState, w: Way, hostname: string, path: string) {
    && IsWay(s, w)
    && RouteOf(s, w).hostname == hostname && RouteOf(s, w).path <= path
    && w.alloc in s.allocs && s.allocs[w.alloc].name == w.service && s.allocs[w.alloc].address.Some?
    && (s.allocs[w.alloc].status == Running || s.allocs[w.alloc].status == Healthy)
  }

  lemma WayIsRoutable(s: FsmState, w: Way, hostname: string, path: string) returns (r: ProxyRoute)
    requires Serves(s, w, hostname, path)
    ensures Routable(s, r) && Matches(r, hostname, path) && r.path == RouteOf(s, w).path
  {
    var def, at := RouteOf(s, w), s.allocs[w.alloc].address.value;
    r := ProxyRoute(def.hostname, def.path, at, def.websocket);
    assert Reachable(s, w.alloc, w.service) && Leads(ServicesOf(s.config)[w.service].routes[w.route], at, r);
  }

  lemma RoutableIsWay(s: FsmState, r: ProxyRoute, hostname: string, path: string) returns (w: Way)
    requires Routable(s, r) && Matches(r, hostname, path)
    ensures Serves(s, w, hostname, path)
    ensures Leads(RouteOf(s, w), s.allocs[w.alloc].address.value, r)
  {
    var name, i, a :| name in ServicesOf(s.config) && 0 <= i < |ServicesOf(s.config)[name].routes| && Reachable(s, a, name)
                      && Leads(ServicesOf(s.config)[name].routes[i], s.allocs[a].address.value, r);
    w := Way(name, i, a);
  }

  /** The same from the state: which requests are served, and by whom. */
  lemma RequestIsServedIff(s: FsmState, routes: seq<ProxyRoute>, hostname: string, path: string)
    requires IsRouteList(s, routes)
    ensures var m := Found(TableOf(routes), hostname, path);
            if m.None? then forall w :: !Serves(s, w, hostname, path)
            else exists w :: IsChosen(s, w, hostname, path, m.value)
  {
    RoutingIsCorrect(s, routes, hostname, path);
    var m := Found(TableOf(routes), hostname, path);
    forall w | Serves(s, w, hostname, path)
      ensures m.Some? && |RouteOf(s, w).path| <= |m.value.path|
    {
      var r := WayIsRoutable(s, w, hostname, path);
    }
    if m.Some? {
      var best := ProxyRoute(hostname, m.value.path, m.value.backend, m.value.websocket);
      var w := RoutableIsWay(s, best, hostname, path);
      assert IsChosen(s, w, hostname, path, m.value);
    }
  }

  /** The match leads to the allocation, by a longest route. */
  ghost predicate IsChosen(s: FsmState, w: Way, hostname: string, path: string, m: RouteMatch) {
    && Serves(s, w, hostname, path)
    && s.allocs[w.alloc].address == Some(m.backend)
    && m.path == RouteOf(s, w).path && m.websocket == RouteOf(s, w).websocket
    && forall v | Serves(s, v, hostname, path) :: |RouteOf(s, v).path| <= |m.path|
  }
}
