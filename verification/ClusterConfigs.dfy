/** The static cluster configuration: what Validate accepts, and what routing over an accepted configuration
    guarantees. */
module ClusterConfigs {
  import opened ByteStrings
  import opened Wrappers
  import Routers
  import HashRings

  type NodeID = string
  type GroupID = Routers.GroupID

  datatype Node = Node(id: NodeID, clientAddr: string)

  datatype GroupReplica = GroupReplica(nodeID: NodeID, raftAddr: string)

  datatype Group = Group(id: GroupID, replicas: seq<GroupReplica>)

  datatype Shard = Shard(id: int, groupID: GroupID)

  datatype Config = Config(nodes: seq<Node>, shardCount: int, virtualNodes: int, shardRoutes: seq<Shard>,
      groups: seq<Group>)

  datatype ConfigError =
    | NodesEmpty
    | NodeIDEmpty
    | ClientAddrEmpty(node: NodeID)
    | DuplicateNode(node: NodeID)
    | ShardCountMissing
    | VirtualNodesMissing
    | ShardsEmpty
    | GroupsEmpty
    | GroupIDEmpty
    | DuplicateGroup(group: GroupID)
    | ReplicasEmpty(group: GroupID)
    | ReplicaNodeEmpty(group: GroupID)
    | ReplicaNodeUnknown(group: GroupID, node: NodeID)
    | DuplicateReplicaNode(group: GroupID, node: NodeID)
    | RaftAddrEmpty(group: GroupID, node: NodeID)
    | DuplicateRaftAddr(group: GroupID, addr: string)
    | DuplicateShard(shard: int)
    | ShardGroupUnknown(shard: int, group: GroupID)
    | RouterRefused(error: HashRings.RingError)

  // ----- validity, declared -----

  function NodeIDs(nodes: seq<Node>): set<NodeID>
  {
    set n | n in nodes :: n.id
  }

  function GroupIDs(groups: seq<Group>): set<GroupID>
  {
    set g | g in groups :: g.id
  }

  function ShardIDs(routes: seq<Shard>): set<int>
  {
    set s | s in routes :: s.id
  }

  function ReplicaNodes(replicas: seq<GroupReplica>): set<NodeID>
  {
    set r | r in replicas :: r.nodeID
  }

  function RaftAddrs(replicas: seq<GroupReplica>): set<string>
  {
    set r | r in replicas :: r.raftAddr
  }

  ghost predicate ValidNodes(nodes: seq<Node>)
  {
    && (forall i :: 0 <= i < |nodes| ==> nodes[i].id != "" && nodes[i].clientAddr != "")
    && (forall i, j :: 0 <= i < j < |nodes| ==> nodes[i].id != nodes[j].id)
  }

  ghost predicate ValidReplicas(replicas: seq<GroupReplica>, declared: set<NodeID>)
  {
    && (forall i :: 0 <= i < |replicas| ==>
        replicas[i].nodeID != "" && replicas[i].nodeID in declared && replicas[i].raftAddr != "")
    && (forall i, j :: 0 <= i < j < |replicas| ==>
        replicas[i].nodeID != replicas[j].nodeID && replicas[i].raftAddr != replicas[j].raftAddr)
  }

  ghost predicate ValidGroups(groups: seq<Group>, declared: set<NodeID>)
  {
    && (forall i :: 0 <= i < |groups| ==>
        groups[i].id != "" && groups[i].replicas != [] && ValidReplicas(groups[i].replicas, declared))
    && (forall i, j :: 0 <= i < j < |groups| ==> groups[i].id != groups[j].id)
  }

  ghost predicate ValidRoutes(routes: seq<Shard>, groupIDs: set<GroupID>)
  {
    && (forall i :: 0 <= i < |routes| ==> routes[i].groupID in groupIDs)
    && (forall i, j :: 0 <= i < j < |routes| ==> routes[i].id != routes[j].id)
  }

  /** Nodes, groups and replicas are named and unique where they must be; the shards are exactly 0 to shardCount - 1,
      each assigned once, to a declared group. */
  ghost predicate ValidConfig(c: Config)
  {
    && c.nodes != [] && ValidNodes(c.nodes)
    && c.shardCount > 0 && c.virtualNodes > 0
    && c.groups != [] && ValidGroups(c.groups, NodeIDs(c.nodes))
    && ValidRoutes(c.shardRoutes, GroupIDs(c.groups))
    && forall s :: s in ShardIDs(c.shardRoutes) <==> 0 <= s < c.shardCount
  }

  /** What each error says is so. */
  ghost predicate Justified(c: Config, e: ConfigError)
  {
    match e
    case NodesEmpty => c.nodes == []
    case NodeIDEmpty => "" in NodeIDs(c.nodes)
    case ClientAddrEmpty(n) => Node(n, "") in c.nodes
    case DuplicateNode(n) => exists i, j :: 0 <= i < j < |c.nodes| && c.nodes[i].id == c.nodes[j].id == n
    case ShardCountMissing => c.shardCount <= 0
    case VirtualNodesMissing => c.virtualNodes <= 0
    case ShardsEmpty => c.shardRoutes == []
    case GroupsEmpty => c.groups == []
    case GroupIDEmpty => "" in GroupIDs(c.groups)
    case DuplicateGroup(g) => exists i, j :: 0 <= i < j < |c.groups| && c.groups[i].id == c.groups[j].id == g
    case ReplicasEmpty(g) => Group(g, []) in c.groups
    case DuplicateShard(s) =>
      exists i, j :: 0 <= i < j < |c.shardRoutes| && c.shardRoutes[i].id == c.shardRoutes[j].id == s
    case ShardGroupUnknown(s, g) => Shard(s, g) in c.shardRoutes && g !in GroupIDs(c.groups)
    case RouterRefused(_) => exists s :: s in ShardIDs(c.shardRoutes) <==> !(0 <= s < c.shardCount)
    case _ => exists g :: g in c.groups && ReplicaError(g, NodeIDs(c.nodes), e)
  }

  ghost predicate ReplicaError(g: Group, declared: set<NodeID>, e: ConfigError)
  {
    var rs := g.replicas;
    match e
    case ReplicaNodeEmpty(id) => id == g.id && "" in ReplicaNodes(rs)
    case ReplicaNodeUnknown(id, n) => id == g.id && n in ReplicaNodes(rs) && n !in declared
    case DuplicateReplicaNode(id, n) =>
      id == g.id && exists i, j :: 0 <= i < j < |rs| && rs[i].nodeID == rs[j].nodeID == n
    case RaftAddrEmpty(id, n) => id == g.id && GroupReplica(n, "") in rs
    case DuplicateRaftAddr(id, a) =>
      id == g.id && exists i, j :: 0 <= i < j < |rs| && rs[i].raftAddr == rs[j].raftAddr == a
    case _ => false
  }

  // ----- Validate -----

  method ValidateNodes(nodes: seq<Node>, ghost c: Config) returns (err: Option<ConfigError>, seen: set<NodeID>)
    requires c.nodes == nodes
    ensures err == None <==> ValidNodes(nodes)
    ensures err == None ==> seen == NodeIDs(nodes)
    ensures err.Some? ==> Justified(c, err.value)
  {
    seen := {};
    for i := 0 to |nodes|
      invariant ValidNodes(nodes[..i]) && seen == NodeIDs(nodes[..i])
    {
      var node := nodes[i];
      assert node in nodes && nodes[..i + 1] == nodes[..i] + [node];
      if node.id == "" {
        return Some(NodeIDEmpty), seen;
      }
      if node.clientAddr == "" {
        return Some(ClientAddrEmpty(node.id)), seen;
      }
      if node.id in seen {
        return Some(DuplicateNode(node.id)), seen;
      }
      seen := seen + {node.id};
    }
    assert nodes[..|nodes|] == nodes;
    err := None;
  }

  /** The inner loop over one group's replicas. */
  method ValidateReplicas(group: Group, declared: set<NodeID>) returns (err: Option<ConfigError>)
    ensures err == None <==> ValidReplicas(group.replicas, declared)
    ensures err.Some? ==> ReplicaError(group, declared, err.value)
  {
    var replicas := group.replicas;
    var seenNodes: set<NodeID>, seenAddrs: set<string> := {}, {};
    for i := 0 to |replicas|
      invariant ValidReplicas(replicas[..i], declared)
      invariant seenNodes == ReplicaNodes(replicas[..i]) && seenAddrs == RaftAddrs(replicas[..i])
    {
      var replica := replicas[i];
      assert replica in replicas && replicas[..i + 1] == replicas[..i] + [replica];
      if replica.nodeID == "" {
        return Some(ReplicaNodeEmpty(group.id));
      }
      if replica.nodeID !in declared {
        return Some(ReplicaNodeUnknown(group.id, replica.nodeID));
      }
      if replica.nodeID in seenNodes {
        return Some(DuplicateReplicaNode(group.id, replica.nodeID));
      }
      seenNodes := seenNodes + {replica.nodeID};
      if replica.raftAddr == "" {
        return Some(RaftAddrEmpty(group.id, replica.nodeID));
      }
      if replica.raftAddr in seenAddrs {
        return Some(DuplicateRaftAddr(group.id, replica.raftAddr));
      }
      seenAddrs := seenAddrs + {replica.raftAddr};
    }
    assert replicas[..|replicas|] == replicas;
    err := None;
  }

  method ValidateGroups(groups: seq<Group>, declared: set<NodeID>, ghost c: Config)
    returns (err: Option<ConfigError>, seenGroups: set<GroupID>)
    requires c.groups == groups && declared == NodeIDs(c.nodes)
    ensures err == None <==> ValidGroups(groups, declared)
    ensures err == None ==> seenGroups == GroupIDs(groups)
    ensures err.Some? ==> Justified(c, err.value)
  {
    hide ValidReplicas, ReplicaError;
    seenGroups := {};
    for i := 0 to |groups|
      invariant ValidGroups(groups[..i], declared) && seenGroups == GroupIDs(groups[..i])
    {
      var group := groups[i];
      assert group in groups && groups[..i + 1] == groups[..i] + [group];
      if group.id == "" {
        return Some(GroupIDEmpty), seenGroups;
      }
      if group.id in seenGroups {
        return Some(DuplicateGroup(group.id)), seenGroups;
      }
      seenGroups := seenGroups + {group.id};
      if |group.replicas| == 0 {
        assert group == Group(group.id, []);
        return Some(ReplicasEmpty(group.id)), seenGroups;
      }
      err := ValidateReplicas(group, declared);
      if err.Some? {
        ReplicaErrorCounts(c, group, err.value);
        return;
      }
    }
    assert groups[..|groups|] == groups;
    err := None;
  }

  lemma ReplicaErrorCounts(c: Config, g: Group, e: ConfigError)
    requires g in c.groups && ReplicaError(g, NodeIDs(c.nodes), e)
    ensures Justified(c, e)
  {
  }

  method ValidateRoutes(routes: seq<Shard>, groupIDs: set<GroupID>, ghost c: Config) returns (err: Option<ConfigError>)
    requires c.shardRoutes == routes && groupIDs == GroupIDs(c.groups)
    ensures err == None <==> ValidRoutes(routes, groupIDs)
    ensures err.Some? ==> Justified(c, err.value)
  {
    var seen: set<int> := {};
    for i := 0 to |routes|
      invariant ValidRoutes(routes[..i], groupIDs) && seen == ShardIDs(routes[..i])
    {
      var shard := routes[i];
      assert shard in routes && routes[..i + 1] == routes[..i] + [shard];
      if shard.id in seen {
        return Some(DuplicateShard(shard.id));
      }
      seen := seen + {shard.id};
      if shard.groupID !in groupIDs {
        assert shard == Shard(shard.id, shard.groupID);
        return Some(ShardGroupUnknown(shard.id, shard.groupID));
      }
    }
    assert routes[..|routes|] == routes;
    err := None;
  }

  /** Entry i is the last one for its shard. */
  ghost predicate Last(routes: seq<Shard>, i: int)
  {
    0 <= i < |routes| && forall j :: i < j < |routes| ==> routes[j].id != routes[i].id
  }

  /** RouterConfig's shard map: every id listed, with the group of its last entry. */
  method ShardGroups(routes: seq<Shard>) returns (m: map<int, GroupID>)
    ensures m.Keys == ShardIDs(routes)
    ensures forall i :: Last(routes, i) ==> routes[i].id in m && m[routes[i].id] == routes[i].groupID
  {
    m := map[];
    for n := 0 to |routes|
      invariant m.Keys == ShardIDs(routes[..n])
      invariant forall i :: Last(routes[..n], i) ==> routes[i].id in m && m[routes[i].id] == routes[i].groupID
    {
      var s := routes[n];
      assert routes[..n + 1] == routes[..n] + [s];
      forall i | Last(routes[..n + 1], i) && i != n ensures Last(routes[..n], i) && routes[i].id != s.id {
        assert routes[..n + 1][n] == s;
        assert forall j :: 0 <= j < n ==> routes[..n + 1][j] == routes[..n][j];
      }
      m := m[s.id := s.groupID];
    }
    assert routes[..|routes|] == routes;
  }

  lemma LastEntry(routes: seq<Shard>, s: int) returns (i: nat)
    requires s in ShardIDs(routes)
    ensures Last(routes, i) && routes[i].id == s
  {
    i := |routes| - 1;
    while routes[i].id != s
      invariant i < |routes| && (forall j :: i < j < |routes| ==> routes[j].id != s)
      decreases i
    {
      if i == 0 {
        var k :| 0 <= k < |routes| && routes[k].id == s;
      }
      i := i - 1;
    }
  }

  /** The router accepts the shard map exactly when it has the shards 0 to shardCount - 1, the last entry of each with a
      group. */
  lemma AssignedIff(c: Config, m: map<int, GroupID>)
    requires m.Keys == ShardIDs(c.shardRoutes)
    requires forall i :: Last(c.shardRoutes, i) ==>
             c.shardRoutes[i].id in m && m[c.shardRoutes[i].id] == c.shardRoutes[i].groupID
    ensures Routers.Assigned(c.shardCount, m) <==>
            && (forall s :: s in ShardIDs(c.shardRoutes) <==> 0 <= s < c.shardCount)
            && (forall i :: Last(c.shardRoutes, i) ==> c.shardRoutes[i].groupID != "")
  {
    hide Last, ShardIDs;
    assert forall s :: s in m <==> s in ShardIDs(c.shardRoutes);
    forall s | s in m
      ensures exists i :: 0 <= i < |c.shardRoutes| && Last(c.shardRoutes, i) && c.shardRoutes[i].id == s {
      var i := LastEntry(c.shardRoutes, s);
    }
    LastIsListed(c.shardRoutes);
  }

  lemma LastIsListed(routes: seq<Shard>)
    ensures forall i :: Last(routes, i) ==> 0 <= i < |routes| && routes[i].id in ShardIDs(routes)
  {
  }

  /** NewRouter, on any configuration. */
  method NewRouter(c: Config, hash: Bytes -> nat) returns (r: HashRings.RingResult<Routers.Router>)
    ensures r.Ok? <==>
            && c.shardCount > 0 && c.virtualNodes > 0
            && (forall s :: s in ShardIDs(c.shardRoutes) <==> 0 <= s < c.shardCount)
            && (forall i :: Last(c.shardRoutes, i) ==> c.shardRoutes[i].groupID != "")
    ensures r.Ok? ==> fresh(r.value) && RoutesLast(c, r.value)
  {
    hide Last, ShardIDs, Routers.Assigned;
    var m := ShardGroups(c.shardRoutes);
    AssignedIff(c, m);
    LastIsListed(c.shardRoutes);
    r := Routers.NewRouter(c.shardCount, c.virtualNodes, m, hash);
  }

  /** A router for the configuration: it sends each shard to the group its last entry names. */
  ghost predicate RoutesLast(c: Config, router: Routers.Router)
  {
    && router.Valid() && router.shardCount == c.shardCount && router.shardGroups.Keys == ShardIDs(c.shardRoutes)
    && (forall i :: Last(c.shardRoutes, i) ==> c.shardRoutes[i].id in router.shardGroups
                                               && router.shardGroups[c.shardRoutes[i].id] == c.shardRoutes[i].groupID)
  }

  /** A router for a valid configuration: it sends each shard to the group the configuration lists for it. */
  ghost predicate Routes(c: Config, router: Routers.Router)
  {
    && router.Valid() && router.shardCount == c.shardCount
    && (forall s :: s in c.shardRoutes ==> s.id in router.shardGroups && router.shardGroups[s.id] == s.groupID)
    && (forall s :: s in router.shardGroups ==> router.shardGroups[s] in GroupIDs(c.groups))
  }

  lemma UniqueRoutes(c: Config, router: Routers.Router)
    requires ValidRoutes(c.shardRoutes, GroupIDs(c.groups)) && RoutesLast(c, router)
    ensures Routes(c, router)
  {
    hide Routers.Assigned;
    forall s | s in c.shardRoutes ensures s.id in router.shardGroups && router.shardGroups[s.id] == s.groupID {
      var i :| 0 <= i < |c.shardRoutes| && c.shardRoutes[i] == s;
      assert Last(c.shardRoutes, i);
    }
    forall s | s in router.shardGroups ensures router.shardGroups[s] in GroupIDs(c.groups) {
      var i := LastEntry(c.shardRoutes, s);
    }
  }

  lemma GroupsNamed(c: Config)
    requires ValidGroups(c.groups, NodeIDs(c.nodes)) && ValidRoutes(c.shardRoutes, GroupIDs(c.groups))
    ensures forall i :: Last(c.shardRoutes, i) ==> c.shardRoutes[i].groupID != ""
  {
    assert "" !in GroupIDs(c.groups);
  }

  /** Validate accepts exactly the valid configurations, and a rejection names something that is so. */
  method Validate(c: Config, hash: Bytes -> nat) returns (err: Option<ConfigError>)
    ensures err == None <==> ValidConfig(c)
    ensures err.Some? ==> Justified(c, err.value)
  {
    hide ValidNodes, ValidGroups, ValidRoutes, RoutesLast, Last;
    if |c.nodes| == 0 {
      return Some(NodesEmpty);
    }
    var seen, seenGroups;
    err, seen := ValidateNodes(c.nodes, c);
    if err.Some? {
      return;
    }
    if c.shardCount <= 0 {
      return Some(ShardCountMissing);
    }
    if c.virtualNodes <= 0 {
      return Some(VirtualNodesMissing);
    }
    if |c.shardRoutes| == 0 {
      NoShardZero(c);
      return Some(ShardsEmpty);
    }
    if |c.groups| == 0 {
      return Some(GroupsEmpty);
    }
    err, seenGroups := ValidateGroups(c.groups, seen, c);
    if err.Some? {
      return;
    }
    err := ValidateRoutes(c.shardRoutes, seenGroups, c);
    if err.Some? {
      return;
    }
    GroupsNamed(c);
    var router := NewRouter(c, hash);
    if router.Err? {
      return Some(RouterRefused(router.error));
    }
    err := None;
  }

  lemma NoShardZero(c: Config)
    requires c.shardRoutes == [] && c.shardCount > 0
    ensures !ValidConfig(c)
  {
    assert 0 !in ShardIDs(c.shardRoutes);
  }

  // ----- what validity buys -----

  /** FindGroup: the first group with the id; for a valid configuration the only one. */
  method FindGroup(c: Config, id: GroupID) returns (r: Option<Group>)
    ensures r == None <==> id !in GroupIDs(c.groups)
    ensures r.Some? ==> r.value in c.groups && r.value.id == id
    ensures r.Some? && ValidConfig(c) ==> forall g :: g in c.groups && g.id == id ==> g == r.value
  {
    for i := 0 to |c.groups|
      invariant forall k :: 0 <= k < i ==> c.groups[k].id != id
    {
      if c.groups[i].id == id {
        return Some(c.groups[i]);
      }
    }
    r := None;
  }

  /** Total routing: over a valid configuration every non-empty key goes to a declared group, whose replicas are some
      declared nodes. */
  lemma TotalRouting(c: Config, router: Routers.Router, key: Bytes) returns (g: Group)
    requires ValidConfig(c) && Routes(c, router) && key != []
    ensures g in c.groups && g.id == router.Route(key).group && g.replicas != []
    ensures forall r :: r in g.replicas ==> r.nodeID in NodeIDs(c.nodes)
  {
    assert router.Route(key).group in GroupIDs(c.groups);
    g :| g in c.groups && g.id == router.Route(key).group;
    var i :| 0 <= i < |c.groups| && c.groups[i] == g;
    assert ValidReplicas(g.replicas, NodeIDs(c.nodes));
  }
}
