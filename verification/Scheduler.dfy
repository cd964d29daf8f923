/**
 The placement function: volume affinity, filtering by capacity, spreading of
 services, and bin-packing; with a reference description of the node it picks.
 */
module Scheduler {
  import opened Types

  datatype ScheduleRequest = ScheduleRequest(
    need: Resources, name: string, kind: AllocKind, volume: Option<string>)

  datatype PlacedAlloc = PlacedAlloc(node: NodeId, name: string, kind: AllocKind)

  datatype NamedVolume = NamedVolume(name: string, volume: FsmVolume)

  datatype Candidate = Candidate(node: FsmNode, available: NodeResources)

  type AvailableFn = RaftId -> Option<NodeResources>

  predicate HasCapacity(available: Option<NodeResources>, need: Resources) {
    match available
    case None => false
    case Some(avail) => avail.cpuAvailable >= need.cpu && avail.memoryAvailable >= need.memory
  }

  /** Lower is more packed and preferred; memory counts in GiB. */
  function BinPackScore(avail: NodeResources): real {
    avail.cpuAvailable + avail.memoryAvailable as real / 1073741824.0
  }

  /** No more room than the other: what it has more of CPU it has less of memory, one GiB for one CPU. */
  predicate AtMostAsFree(a: NodeResources, b: NodeResources) {
    (a.cpuAvailable - b.cpuAvailable) * 1073741824.0 <= b.memoryAvailable as real - a.memoryAvailable as real
  }

  lemma ScoreIsRoom(a: NodeResources, b: NodeResources)
    ensures BinPackScore(a) <= BinPackScore(b) <==> AtMostAsFree(a, b)
  {
    var gib := 1073741824.0;
    var x, y := a.memoryAvailable as real / gib, b.memoryAvailable as real / gib;
    assert x * gib == a.memoryAvailable as real && y * gib == b.memoryAvailable as real;
    assert (a.cpuAvailable - b.cpuAvailable) * gib <= y * gib - x * gib <==> a.cpuAvailable - b.cpuAvailable <= y - x;
  }

  /** No more of either, and less of one. */
  predicate IsFuller(a: NodeResources, b: NodeResources) {
    && a.cpuAvailable <= b.cpuAvailable && a.memoryAvailable <= b.memoryAvailable
    && (a.cpuAvailable < b.cpuAvailable || a.memoryAvailable < b.memoryAvailable)
  }

  function FindVolume(volumes: seq<NamedVolume>, name: string): Option<FsmVolume> {
    if volumes == [] then None
    else if volumes[0].name == name then Some(volumes[0].volume)
    else FindVolume(volumes[1..], name)
  }

  /** The node a request is bound to because its volume is attached there. */
  function PinnedNode(request: ScheduleRequest, volumes: seq<NamedVolume>): Option<NodeId> {
    if request.volume.None? then None
    else
      match FindVolume(volumes, request.volume.value)
      case Some(FsmVolume(_, Attached(node))) => Some(node)
      case _ => None
  }

  predicate Fits(n: FsmNode, available: AvailableFn, need: Resources) {
    n.status == Ready && HasCapacity(available(n.raftId), need)
  }

  function Candidates(nodes: seq<FsmNode>, available: AvailableFn, need: Resources): (cs: seq<Candidate>)
    ensures forall c | c in cs ::
              c.node in nodes && Fits(c.node, available, need) && available(c.node.raftId) == Some(c.available)
    ensures forall n | n in nodes && Fits(n, available, need) ::
              Candidate(n, available(n.raftId).value) in cs
  {
    if nodes == [] then []
    else
      var rest := Candidates(nodes[1..], available, need);
      if Fits(nodes[0], available, need) then
        [Candidate(nodes[0], available(nodes[0].raftId).value)] + rest
      else rest
  }

  /** Some placed service of that name is on the node. */
  predicate Hosts(allocs: seq<PlacedAlloc>, mill: NodeId, name: string) {
    exists a | a in allocs :: a.node == mill && a.name == name && a.kind == Service
  }

  function Spread(cs: seq<Candidate>, allocs: seq<PlacedAlloc>, name: string): (kept: seq<Candidate>)
    ensures forall c :: c in kept <==> c in cs && !Hosts(allocs, c.node.millId, name)
  {
    if cs == [] then []
    else
      var rest := Spread(cs[1..], allocs, name);
      if Hosts(allocs, cs[0].node.millId, name) then rest else [cs[0]] + rest
  }

  /** The first candidate with the least score. */
  function MinByScore(cs: seq<Candidate>): (best: Candidate)
    requires cs != []
    ensures best in cs
    ensures forall c | c in cs :: BinPackScore(best.available) <= BinPackScore(c.available)
  {
    if |cs| == 1 then cs[0]
    else
      var rest := MinByScore(cs[1..]);
      if BinPackScore(cs[0].available) <= BinPackScore(rest.available) then cs[0] else rest
  }

  /** Every candidate has at least as much room, so that a fuller one than the chosen is not among them. */
  lemma MinIsFullest(cs: seq<Candidate>, c: Candidate)
    requires c in cs
    ensures AtMostAsFree(MinByScore(cs).available, c.available) && !IsFuller(c.available, MinByScore(cs).available)
  {
    ScoreIsRoom(MinByScore(cs).available, c.available);
  }

  function Schedule(
    request: ScheduleRequest, nodes: seq<FsmNode>, allocs: seq<PlacedAlloc>, volumes: seq<NamedVolume>,
    available: AvailableFn): Option<NodeId>
  {
    var pinned := PinnedNode(request, volumes);
    if pinned.Some? then
      if exists n | n in nodes :: n.millId == pinned.value && Fits(n, available, request.need)
      then pinned else None
    else
      var candidates := Candidates(nodes, available, request.need);
      if candidates == [] then None
      else
        var spread := if request.kind == Service then Spread(candidates, allocs, request.name) else [];
        Some(MinByScore(if spread == [] then candidates else spread).node.millId)
  }

  /** The node may be chosen: it fits, and it hosts no replica of the service if another fitting node hosts none. */
  ghost predicate Eligible(
    request: ScheduleRequest, nodes: seq<FsmNode>, allocs: seq<PlacedAlloc>, available: AvailableFn, n: FsmNode)
  {
    && n in nodes
    && Fits(n, available, request.need)
    && (request.kind == Service && Hosts(allocs, n.millId, request.name) ==>
          forall other | other in nodes && Fits(other, available, request.need) ::
            Hosts(allocs, other.millId, request.name))
  }

  /** An eligible node none of the eligible nodes is more packed than. */
  ghost predicate BestChoice(
    request: ScheduleRequest, nodes: seq<FsmNode>, allocs: seq<PlacedAlloc>, available: AvailableFn, n: FsmNode)
  {
    && Eligible(request, nodes, allocs, available, n)
    && forall other | Eligible(request, nodes, allocs, available, other) ::
         && AtMostAsFree(available(n.raftId).value, available(other.raftId).value)
         && !IsFuller(available(other.raftId).value, available(n.raftId).value)
  }

  /**
   What is scheduled: with an attached volume exactly its node, if that node is ready and
   has capacity; otherwise a most packed eligible node, and nothing exactly if no ready
   node has capacity.
   */
  lemma ScheduleChoosesBest(
    request: ScheduleRequest, nodes: seq<FsmNode>, allocs: seq<PlacedAlloc>, volumes: seq<NamedVolume>,
    available: AvailableFn)
    ensures var chosen := Schedule(request, nodes, allocs, volumes, available);
            var pinned := PinnedNode(request, volumes);
            if pinned.Some? then
              && (chosen.Some? <==>
                   exists n | n in nodes :: n.millId == pinned.value && Fits(n, available, request.need))
              && (chosen.Some? ==> chosen == pinned)
            else
              && (chosen.None? <==> forall n | n in nodes :: !Fits(n, available, request.need))
              && (chosen.Some? ==>
                    exists n :: BestChoice(request, nodes, allocs, available, n) && n.millId == chosen.value)
  {
    var candidates := Candidates(nodes, available, request.need);
    if PinnedNode(request, volumes).None? && candidates != [] {
      var spread := if request.kind == Service then Spread(candidates, allocs, request.name) else [];
      var pool := if spread == [] then candidates else spread;
      var best := MinByScore(pool);
      SpreadIsEmptyIff(request, nodes, allocs, available);
      forall other | Eligible(request, nodes, allocs, available, other)
        ensures AtMostAsFree(best.available, available(other.raftId).value)
        ensures !IsFuller(available(other.raftId).value, best.available)
      {
        MinIsFullest(pool, Candidate(other, available(other.raftId).value));
      }
      assert BestChoice(request, nodes, allocs, available, best.node);
    }
  }

  lemma SpreadIsEmptyIff(
    request: ScheduleRequest, nodes: seq<FsmNode>, allocs: seq<PlacedAlloc>, available: AvailableFn)
    ensures Spread(Candidates(nodes, available, request.need), allocs, request.name) == [] <==>
            forall n | n in nodes && Fits(n, available, request.need) :: Hosts(allocs, n.millId, request.name)
  {
    var cs := Candidates(nodes, available, request.need);
    var kept := Spread(cs, allocs, request.name);
    if kept != [] {
      assert kept[0] in kept;
    } else {
      forall n | n in nodes && Fits(n, available, request.need)
        ensures Hosts(allocs, n.millId, request.name)
      {
        assert Candidate(n, available(n.raftId).value) !in kept;
      }
    }
  }
}
