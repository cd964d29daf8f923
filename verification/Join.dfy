/** Joining nodes: the raft id and the tunnel address a new node gets, and why they stay unique. */
module Join {
  import opened Types
  import Fsm

  // ----- The tunnel address -----

  /** 10.99.0.0, counted up from; the last address given out is 10.99.255.253. */
  const SUBNET: nat := 0x0A630000
  const LAST: nat := 65533

  function Tunnel(i: nat): IpAddr {
    V4(SUBNET + i)
  }

  /** The `i`-th address is the first that is not used. */
  predicate FirstUnused(used: set<IpAddr>, i: nat) {
    && 1 <= i <= LAST
    && Tunnel(i) !in used
    && forall j | 1 <= j < i :: Tunnel(j) in used
  }

  predicate AllUsed(used: set<IpAddr>, n: nat) {
    forall j | 1 <= j <= n :: Tunnel(j) in used
  }

  /** The search for the least unused address. */
  method AllocateTunnelIp(used: seq<IpAddr>) returns (ip: Option<IpAddr>)
    ensures var taken := set a | a in used;
            if ip.Some? then exists i :: FirstUnused(taken, i) && ip.value == Tunnel(i)
            else AllUsed(taken, LAST)
  {
    var i := 1;
    while i < LAST + 1
      invariant 1 <= i <= LAST + 1
      invariant forall j | 1 <= j < i :: Tunnel(j) in used
    {
      if Tunnel(i) !in used {
        assert FirstUnused((set a | a in used), i);
        return Some(Tunnel(i));
      }
      i := i + 1;
    }
    return None;
  }

  /** If the first `n` addresses are all used, at least `n` are. */
  lemma {:induction false} Pigeonhole(used: set<IpAddr>, n: nat)
    requires AllUsed(used, n)
    ensures |used| >= n
  {
    if n > 0 {
      assert Tunnel(n) in used;
      Pigeonhole(used - {Tunnel(n)}, n - 1);
    }
  }

  /** An address is found whenever fewer than 65533 are used. */
  lemma AddressIsFound(used: set<IpAddr>)
    requires |used| < LAST
    ensures !AllUsed(used, LAST)
  {
    if AllUsed(used, LAST) {
      Pigeonhole(used, LAST);
    }
  }

  // ----- Joining -----

  datatype JoinInfo = JoinInfo(raftId: RaftId, tunnelIp: IpAddr)

  function UsedIps(s: FsmState): set<IpAddr> {
    set id | id in s.nodes :: s.nodes[id].address.ip
  }

  /** One more than the greatest raft id, and the first unused address. */
  ghost predicate IsJoinInfo(s: FsmState, info: JoinInfo) {
    && (forall id | id in s.nodes :: id < info.raftId)
    && (if s.nodes.Keys == {} then info.raftId == 1 else info.raftId > 0 && info.raftId - 1 in s.nodes)
    && exists i :: FirstUnused(UsedIps(s), i) && info.tunnelIp == Tunnel(i)
  }

  method GetJoinInfo(s: FsmState) returns (info: Option<JoinInfo>)
    ensures if info.Some? then IsJoinInfo(s, info.value) else AllUsed(UsedIps(s), LAST)
  {
    var used, max := [], 0;
    var todo := s.nodes.Keys;
    while todo != {}
      invariant todo <= s.nodes.Keys
      invariant forall id | id in s.nodes && id !in todo :: id <= max && s.nodes[id].address.ip in used
      invariant forall a | a in used :: a in UsedIps(s)
      invariant if todo == s.nodes.Keys then max == 0 else max == 0 || max in s.nodes
      decreases |todo|
    {
      var id :| id in todo;
      todo := todo - {id};
      used := used + [s.nodes[id].address.ip];
      max := if id > max then id else max;
    }
    assert (set a | a in used) == UsedIps(s);
    var ip := AllocateTunnelIp(used);
    info := if ip.Some? then Some(JoinInfo(max + 1, ip.value)) else None;
  }

  /** The registration a node sends with the identity it was given. */
  predicate Registers(c: Command, info: JoinInfo) {
    c.NodeRegister? && c.id == info.raftId && c.address == SocketAddr(info.tunnelIp, 4400)
  }

  // ----- Runs of joins -----

  ghost predicate UniqueIps(s: FsmState) {
    forall m, n | m in s.nodes && n in s.nodes && m != n :: s.nodes[m].address.ip != s.nodes[n].address.ip
  }

  datatype Step =
    /** A node reads its identity and registers with it, with no other join in between. */
    | JoinNode(info: JoinInfo, command: Command)
    | Other(command: Command)

  /** Other commands register no new node, and let a registered one keep its address. */
  ghost predicate Enabled(s: FsmState, step: Step) {
    match step
    case JoinNode(info, c) => IsJoinInfo(s, info) && Registers(c, info)
    case Other(c) =>
      c.NodeRegister? ==> c.id in s.nodes && c.address.ip == s.nodes[c.id].address.ip
  }

  ghost predicate IsRun(states: seq<FsmState>, steps: seq<Step>) {
    && |states| == |steps| + 1
    && forall k {:trigger steps[k]} | 0 <= k < |steps| ::
         Enabled(states[k], steps[k]) && states[k + 1] == Fsm.Apply(states[k], steps[k].command).0
  }

  /** A join adds one node, under an id and an address that no other node has. */
  lemma JoinAddsOne(s: FsmState, info: JoinInfo, c: Command)
    requires IsJoinInfo(s, info) && Registers(c, info)
    ensures info.raftId !in s.nodes && info.tunnelIp !in UsedIps(s)
    ensures Fsm.Apply(s, c).0.nodes == s.nodes[info.raftId := Fsm.MakeNode(c)]
    ensures |Fsm.Apply(s, c).0.nodes| == |s.nodes| + 1
  {
    var nodes := s.nodes[info.raftId := Fsm.MakeNode(c)];
    assert nodes.Keys == s.nodes.Keys + {info.raftId};
  }

  lemma StepKeepsUnique(s: FsmState, step: Step)
    requires UniqueIps(s) && Enabled(s, step)
    ensures UniqueIps(Fsm.Apply(s, step.command).0)
  {
    match step
    case JoinNode(info, c) =>
      JoinAddsOne(s, info, c);
      assert forall n | n in s.nodes :: s.nodes[n].address.ip in UsedIps(s);
    case Other(c) =>
      if !c.NodeRegister? {
        Fsm.NodesFrame(s, c);
      }
  }

  /** On every run of sequential joins, registered nodes have pairwise different addresses. */
  lemma {:induction false} RunKeepsUnique(states: seq<FsmState>, steps: seq<Step>, k: nat)
    requires IsRun(states, steps) && UniqueIps(states[0]) && k <= |steps|
    ensures UniqueIps(states[k])
  {
    if k > 0 {
      RunKeepsUnique(states, steps, k - 1);
      StepKeepsUnique(states[k - 1], steps[k - 1]);
    }
  }

  /** Whenever fewer than 65533 addresses are used, a joining node is offered an identity. */
  lemma JoinIsOffered(s: FsmState)
    requires |s.nodes| < LAST
    ensures !AllUsed(UsedIps(s), LAST)
  {
    ImageIsSmaller(s.nodes, s.nodes.Keys);
    assert UsedIps(s) == set id | id in s.nodes.Keys :: s.nodes[id].address.ip;
    AddressIsFound(UsedIps(s));
  }

  lemma {:induction false} ImageIsSmaller(nodes: map<RaftId, FsmNode>, ids: set<RaftId>)
    requires ids <= nodes.Keys
    ensures |set id | id in ids :: nodes[id].address.ip| <= |ids|
    decreases |ids|
  {
    var image := set id | id in ids :: nodes[id].address.ip;
    if ids != {} {
      var x :| x in ids;
      ImageIsSmaller(nodes, ids - {x});
      var rest := set id | id in ids - {x} :: nodes[id].address.ip;
      assert image == rest + {nodes[x].address.ip};
    } else {
      assert image == {};
    }
  }

  // ----- Joins that overlap -----

  /**
   A registration with an identity read earlier loses no node and keeps addresses unique exactly if
   neither the id nor the address has been taken since.
   */
  lemma LateJoinIsSafeIff(s: FsmState, info: JoinInfo, c: Command)
    requires UniqueIps(s) && Registers(c, info)
    ensures s.nodes.Items <= Fsm.Apply(s, c).0.nodes.Items && UniqueIps(Fsm.Apply(s, c).0) <==>
            (info.raftId !in s.nodes || s.nodes[info.raftId] == Fsm.MakeNode(c))
            && forall n | n in s.nodes && n != info.raftId :: s.nodes[n].address.ip != info.tunnelIp
  {
    var after := Fsm.Apply(s, c).0.nodes;
    if info.raftId in s.nodes {
      assert (info.raftId, s.nodes[info.raftId]) in s.nodes.Items;
    }
    assert after[info.raftId].address.ip == info.tunnelIp;
    forall n | n in s.nodes && n != info.raftId ensures n in after && after[n] == s.nodes[n] {
    }
  }

  /** The identity offered is determined by the state. */
  lemma OneIdentity(s: FsmState, a: JoinInfo, b: JoinInfo)
    requires IsJoinInfo(s, a) && IsJoinInfo(s, b)
    ensures a == b
  {
    var i :| FirstUnused(UsedIps(s), i) && a.tunnelIp == Tunnel(i);
    var j :| FirstUnused(UsedIps(s), j) && b.tunnelIp == Tunnel(j);
    assert i == j;
  }

  /** Two nodes that read the same state get the same identity, and the second replaces the first. */
  lemma OverlappingJoinsCollide(s: FsmState, a: JoinInfo, b: JoinInfo, first: Command, second: Command)
    requires IsJoinInfo(s, a) && IsJoinInfo(s, b) && Registers(first, a) && Registers(second, b)
    ensures var after := Fsm.Apply(Fsm.Apply(s, first).0, second).0;
            after.nodes == s.nodes[a.raftId := Fsm.MakeNode(second)] && |after.nodes| == |s.nodes| + 1
  {
    OneIdentity(s, a, b);
    JoinAddsOne(s, b, second);
  }

  /** The addresses offered are 10.99.x.y, one for each number below 65534 but 10.99.0.0. */
  lemma TunnelIsDotted(i: nat)
    requires i <= LAST
    ensures LAST == 256 * 256 - 3
    ensures Tunnel(i) == V4(((10 * 256 + 99) * 256 + i / 256) * 256 + i % 256) && i / 256 < 256
  {
  }
}
