/** Static routing: keys to shards to groups. */
module Routers {
  import opened ByteStrings
  import opened HashRings

  type GroupID = string

  datatype ShardRoute = ShardRoute(shard: nat, group: GroupID)

  /** The configuration a router accepts: every shard, and nothing but shards, is assigned to a named group. */
  ghost predicate Assigned(shardCount: int, shardGroups: map<int, GroupID>)
  {
    && (forall s :: s in shardGroups ==> 0 <= s < shardCount && shardGroups[s] != "")
    && (forall s :: 0 <= s < shardCount ==> s in shardGroups)
  }

  class Router {
    const ring: HashRing
    const shardCount: int
    const shardGroups: map<int, GroupID>

    constructor (ring: HashRing, shardCount: int, shardGroups: map<int, GroupID>)
      ensures this.ring == ring && this.shardCount == shardCount && this.shardGroups == shardGroups
    {
      this.ring, this.shardCount, this.shardGroups := ring, shardCount, shardGroups;
    }

    ghost predicate Valid()
    {
      && SortedPoints(ring.points) && ring.points != [] && Assigned(shardCount, shardGroups)
      && forall p :: p in ring.points ==> p.shard < shardCount
    }

    /** RouteShard. */
    method RouteShard(shard: int) returns (r: RingResult<ShardRoute>)
      requires Assigned(shardCount, shardGroups)
      ensures r == if 0 <= shard < shardCount then Ok(ShardRoute(shard, shardGroups[shard])) else Err(ErrInvalidShardID)
    {
      if shard < 0 || shard >= shardCount {
        return Err(ErrInvalidShardID);
      }
      if shard !in shardGroups {
        return Err(ErrShardNotAssigned);
      }
      r := Ok(ShardRoute(shard, shardGroups[shard]));
    }

    /** RouteKey: every non-empty key has a route, to the group of the shard it lands on. */
    method RouteKey(key: Bytes) returns (r: RingResult<ShardRoute>)
      requires Valid()
      ensures r == if key == [] then Err(ErrEmptyKey) else Ok(Route(key))
    {
      hide Owner;
      var shard := ring.PickShard(key);
      if shard.Err? {
        return Err(shard.error);
      }
      LandsAtShard(key, shard.value);
      r := RouteShard(shard.value);
    }

    /** The point a key lands on. */
    ghost function Landing(key: Bytes): (p: Point)
      requires Valid()
      ensures Owner(ring.points, ring.hash(key), p) && p in ring.points
    {
      SomeOwner(ring.points, ring.hash(key));
      var p :| Owner(ring.points, ring.hash(key), p);
      p
    }

    /** The route of a key. */
    ghost function Route(key: Bytes): (r: ShardRoute)
      requires Valid()
      ensures r.shard < shardCount && r.shard in shardGroups && r.group == shardGroups[r.shard]
    {
      var shard := Landing(key).shard;
      ShardRoute(shard, shardGroups[shard])
    }

    lemma LandsAtShard(key: Bytes, shard: nat)
      requires Valid() && exists p :: Owner(ring.points, ring.hash(key), p) && p.shard == shard
      ensures shard < shardCount && Route(key).shard == shard
    {
      hide Owner;
      var p :| Owner(ring.points, ring.hash(key), p) && p.shard == shard;
      OwnerUnique(ring.points, ring.hash(key), p, Landing(key));
    }
  }

  lemma SomeOwner(ps: seq<Point>, h: nat)
    requires SortedPoints(ps) && ps != []
    ensures exists p :: Owner(ps, h, p)
  {
    var i := FirstFrom(ps, h);
    LandsAt(ps, h, i);
  }

  lemma FirstFrom(ps: seq<Point>, h: nat) returns (i: nat)
    requires SortedPoints(ps)
    ensures i <= |ps| && (forall k :: 0 <= k < i ==> ps[k].hash < h) && (forall k :: i <= k < |ps| ==> ps[k].hash >= h)
  {
    i := 0;
    while i < |ps| && ps[i].hash < h
      invariant i <= |ps| && forall k :: 0 <= k < i ==> ps[k].hash < h
    {
      i := i + 1;
    }
  }

  lemma NoElements(s: set<int>)
    requires forall x :: x !in s
    ensures s == {}
  {
    assert forall x :: x in s <==> x in {};
  }

  lemma HasElement(s: set<int>)
    requires s != {}
    ensures exists x :: x in s
  {
    if forall x :: x !in s {
      NoElements(s);
    }
  }

  lemma SameEntries(a: map<int, GroupID>, b: map<int, GroupID>)
    requires a.Keys == b.Keys && forall s :: s in a.Keys ==> a[s] == b[s]
    ensures a == b
  {
    forall s | s in a.Keys ensures a[s] == b[s] {
    }
  }

  /** The first loop of NewRouter, over the entries of the shard map in whatever order they come. */
  method CopyShardGroups(shardCount: int, config: map<int, GroupID>) returns (r: RingResult<map<int, GroupID>>)
    ensures r.Ok? <==> forall s :: s in config ==> 0 <= s < shardCount && config[s] != ""
    ensures r.Ok? ==> r.value == config
    ensures r.Err? ==> r.error == ErrInvalidShardID || r.error == ErrEmptyGroupID
  {
    var shardGroups: map<int, GroupID> := map[];
    var left := config.Keys;
    while left != {}
      invariant left <= config.Keys && shardGroups.Keys == config.Keys - left
      invariant forall s :: s in shardGroups ==> shardGroups[s] == config[s] && 0 <= s < shardCount && config[s] != ""
      decreases left
    {
      HasElement(left);
      var shard :| shard in left;
      if shard < 0 || shard >= shardCount {
        return Err(ErrInvalidShardID);
      }
      if config[shard] == "" {
        return Err(ErrEmptyGroupID);
      }
      shardGroups, left := shardGroups[shard := config[shard]], left - {shard};
    }
    SameEntries(shardGroups, config);
    r := Ok(shardGroups);
  }

  /** NewRouter: build the ring, copy the shard map checking each entry, then check that no shard is missing. */
  method NewRouter(shardCount: int, virtualNodes: int, config: map<int, GroupID>, hash: Bytes -> nat)
    returns (r: RingResult<Router>)
    ensures r.Ok? <==> shardCount > 0 && virtualNodes > 0 && Assigned(shardCount, config)
    ensures r.Ok? ==>
              && fresh(r.value) && r.value.Valid() && r.value.shardCount == shardCount && r.value.shardGroups == config
              && r.value.ring.hash == hash
                  && multiset(r.value.ring.points) == multiset(Points(shardCount, virtualNodes, hash))
  {
    hide Points;
    var ring := NewHashRing(shardCount, virtualNodes, hash);
    if ring.Err? {
      return Err(ring.error);
    }
    var copied := CopyShardGroups(shardCount, config);
    if copied.Err? {
      return Err(copied.error);
    }
    var shardGroups := copied.value;
    for shard := 0 to shardCount
      invariant forall s :: 0 <= s < shard ==> s in shardGroups
    {
      if shard !in shardGroups {
        return Err(ErrShardNotAssigned);
      }
    }
    var router := new Router(ring.value, shardCount, shardGroups);
    RingServes(ring.value.points, shardCount, virtualNodes, hash);
    r := Ok(router);
  }

  lemma RingServes(ps: seq<Point>, shards: nat, vnodes: nat, hash: Bytes -> nat)
    requires multiset(ps) == multiset(Points(shards, vnodes, hash)) && shards > 0 && vnodes > 0
    ensures ps != [] && forall p :: p in ps ==> p.shard < shards
  {
    hide Points;
    PointsInRange(shards, vnodes, hash, Point(0, 0));
    NotEmpty(ps, Points(shards, vnodes, hash));
    forall p | p in ps ensures p.shard < shards {
      assert p in multiset(ps);
      PointsInRange(shards, vnodes, hash, p);
    }
  }
}
