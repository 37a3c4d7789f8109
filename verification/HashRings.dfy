/** The consistent-hash ring, for an arbitrary hash function. */
module HashRings {
  import opened ByteStrings
  import opened TableNames

  datatype RingError = ErrInvalidShardCount | ErrInvalidVirtualNodes | ErrEmptyRing | ErrEmptyKey
                     | ErrInvalidShardID | ErrShardNotAssigned | ErrEmptyGroupID

  datatype RingResult<+T> = Ok(value: T) | Err(error: RingError)

  datatype Point = Point(hash: nat, shard: nat)

  /** The order of the ring: by hash, colliding hashes by shard. */
  predicate Leq(p: Point, q: Point)
  {
    p.hash < q.hash || (p.hash == q.hash && p.shard <= q.shard)
  }

  /** fmt.Sprintf("shard-%d#%d", shard, vnode). */
  function NodeKey(shard: nat, vnode: nat): Bytes
  {
    [115, 104, 97, 114, 100, 45] + Decimal(shard) + [35] + Decimal(vnode)
  }

  /** k is the text "shard-", the shard in decimal, "#", the virtual node in decimal. */
  ghost predicate IsNodeKey(k: Bytes, shard: nat, vnode: nat)
  {
    exists a, b :: Padded(a, 1, shard) && Padded(b, 1, vnode) && k == Ascii("shard-") + a + Ascii("#") + b
  }

  /** What is hashed for a virtual node is this text and no other. */
  lemma NodeKeyText(shard: nat, vnode: nat, k: Bytes)
    ensures k == NodeKey(shard, vnode) <==> IsNodeKey(k, shard, vnode)
  {
    hide Padded, Decimal;
    assert Ascii("shard-") == [115, 104, 97, 114, 100, 45] && Ascii("#") == [35];
    DecimalPadded(shard);
    DecimalPadded(vnode);
    if IsNodeKey(k, shard, vnode) {
      var a, b :| Padded(a, 1, shard) && Padded(b, 1, vnode) && k == Ascii("shard-") + a + Ascii("#") + b;
      PaddedUnique(a, Decimal(shard), 1, shard);
      PaddedUnique(b, Decimal(vnode), 1, vnode);
    }
  }

  lemma NumberSignAt(head: Bytes, a: Bytes, b: Bytes)
    ensures (head + a + [35] + b)[|head| + |a|] == 35
  {
  }

  /** The number sign ends the first number. */
  lemma FirstNumberEnds(head: Bytes, a: Bytes, b: Bytes, a': Bytes, b': Bytes)
    requires Digits(a) && Digits(a') && head + a + [35] + b == head + a' + [35] + b'
    ensures a == a' && b == b'
  {
    var k, n := head + a + [35] + b, |head|;
    NumberSignAt(head, a, b);
    NumberSignAt(head, a', b');
    assert |a| == |a'|;
    assert a == k[n..n + |a|] && a' == k[n..n + |a'|];
    assert b == k[n + |a| + 1..] && b' == k[n + |a'| + 1..];
  }

  /** Different virtual nodes hash different texts. */
  lemma NodeKeysDiffer(s: nat, v: nat, s': nat, v': nat)
    requires NodeKey(s, v) == NodeKey(s', v')
    ensures s == s' && v == v'
  {
    FirstNumberEnds([115, 104, 97, 114, 100, 45], Decimal(s), Decimal(v), Decimal(s'), Decimal(v'));
    AtoiDecimal(s);
    AtoiDecimal(s');
    AtoiDecimal(v);
    AtoiDecimal(v');
  }

  /** The points a ring of this many shards and virtual nodes holds: each shard at the hash of each of its texts. */
  ghost predicate OnRing(p: Point, shards: nat, vnodes: nat, hash: Bytes -> nat)
  {
    p.shard < shards && exists v: nat, k :: v < vnodes && IsNodeKey(k, p.shard, v) && p.hash == hash(k)
  }

  /** The points of one shard, then of all shards, in the order the loops make them. */
  function ShardPoints(shard: nat, vnodes: nat, hash: Bytes -> nat): seq<Point>
  {
    if vnodes == 0 then [] else ShardPoints(shard, vnodes - 1, hash) + [Point(hash(NodeKey(shard, vnodes - 1)), shard)]
  }

  function Points(shards: nat, vnodes: nat, hash: Bytes -> nat): seq<Point>
  {
    if shards == 0 then [] else Points(shards - 1, vnodes, hash) + ShardPoints(shards - 1, vnodes, hash)
  }

  lemma HashOfText(shard: nat, v: nat, hash: Bytes -> nat, h: nat)
    ensures h == hash(NodeKey(shard, v)) <==> exists k :: IsNodeKey(k, shard, v) && h == hash(k)
  {
    hide IsNodeKey, NodeKey;
    NodeKeyText(shard, v, NodeKey(shard, v));
    if exists k :: IsNodeKey(k, shard, v) && h == hash(k) {
      var k :| IsNodeKey(k, shard, v) && h == hash(k);
      NodeKeyText(shard, v, k);
    }
  }

  lemma {:induction false} ShardPointsAre(shard: nat, vnodes: nat, hash: Bytes -> nat, p: Point)
    ensures |ShardPoints(shard, vnodes, hash)| == vnodes
    ensures p in ShardPoints(shard, vnodes, hash) <==>
            p.shard == shard && exists v: nat, k :: v < vnodes && IsNodeKey(k, shard, v) && p.hash == hash(k)
  {
    hide IsNodeKey, NodeKey;
    if vnodes > 0 {
      ShardPointsAre(shard, vnodes - 1, hash, p);
      HashOfText(shard, vnodes - 1, hash, p.hash);
    }
  }

  /** What the two loops of NewHashRing make: a point for every virtual node of every shard, at the hash of its text. */
  lemma {:induction false} PointsAre(shards: nat, vnodes: nat, hash: Bytes -> nat, p: Point)
    ensures |Points(shards, vnodes, hash)| == shards * vnodes
    ensures p in Points(shards, vnodes, hash) <==> OnRing(p, shards, vnodes, hash)
  {
    hide IsNodeKey, ShardPoints;
    if shards > 0 {
      PointsAre(shards - 1, vnodes, hash, p);
      ShardPointsAre(shards - 1, vnodes, hash, p);
    }
  }

  ghost predicate SortedPoints(s: seq<Point>)
  {
    forall i, j :: 0 <= i < j < |s| ==> Leq(s[i], s[j])
  }

  /** The sorted ring does not depend on how it is sorted, although sort.Slice is not stable. */
  lemma {:induction false} SortedRingUnique(a: seq<Point>, b: seq<Point>)
    requires SortedPoints(a) && SortedPoints(b) && multiset(a) == multiset(b)
    ensures a == b
  {
    if a == [] || b == [] {
      assert |a| == |multiset(a)| && |b| == |multiset(b)|;
    } else {
      FirstPoint(a, b[0]);
      FirstPoint(b, a[0]);
      assert a == [a[0]] + a[1..] && b == [b[0]] + b[1..];
      assert multiset(a[1..]) == multiset(a) - multiset{a[0]} && multiset(b[1..]) == multiset(b) - multiset{b[0]};
      SortedRingUnique(a[1..], b[1..]);
    }
  }

  lemma FirstPoint(s: seq<Point>, p: Point)
    requires SortedPoints(s) && s != []
    ensures p in multiset(s) ==> Leq(s[0], p)
  {
    if p in multiset(s) {
      assert p in s;
      var i :| 0 <= i < |s| && s[i] == p;
    }
  }

  function InsertPoint(s: seq<Point>, p: Point): (r: seq<Point>)
    requires SortedPoints(s)
    ensures SortedPoints(r) && multiset(r) == multiset(s) + multiset{p}
  {
    if s == [] then [p]
    else if Leq(p, s[0]) then [p] + s
    else
      assert s == [s[0]] + s[1..];
      var r := InsertPoint(s[1..], p);
      assert forall q :: q in r ==> q in multiset(r);
      assert forall j :: 0 <= j < |r| ==> Leq(s[0], r[j]) by {
        forall j | 0 <= j < |r| ensures Leq(s[0], r[j]) {
          assert r[j] in multiset(s[1..]) + multiset{p};
          FirstPoint(s, r[j]);
        }
      }
      [s[0]] + r
  }

  /** A sort by the ring's order. */
  method SortPoints(s: seq<Point>) returns (r: seq<Point>)
    ensures SortedPoints(r) && multiset(r) == multiset(s)
  {
    r := [];
    for i := 0 to |s|
      invariant SortedPoints(r) && multiset(r) == multiset(s[..i])
    {
      assert s[..i + 1] == s[..i] + [s[i]];
      r := InsertPoint(r, s[i]);
    }
    assert s[..|s|] == s;
  }

  /** p is where a key with hash h lands: the least point clockwise from h, or the least of all if there is none. */
  ghost predicate Owner(ps: seq<Point>, h: nat, p: Point)
  {
    p in ps
    && if exists q :: q in ps && q.hash >= h
       then p.hash >= h && forall q :: q in ps && q.hash >= h ==> Leq(p, q)
       else forall q :: q in ps ==> Leq(p, q)
  }

  lemma OwnerUnique(ps: seq<Point>, h: nat, p: Point, q: Point)
    requires Owner(ps, h, p) && Owner(ps, h, q)
    ensures p == q
  {
  }

  /** How far clockwise from h a point lies, on a circle of m hashes. */
  function Distance(h: nat, p: Point, m: nat): int
  {
    if p.hash >= h then p.hash - h else p.hash - h + m
  }

  /** The owner is the point the shortest way clockwise; of points with one hash, that of the lowest shard. */
  lemma OwnerIsNearest(ps: seq<Point>, h: nat, p: Point, m: nat)
    requires h < m && forall q :: q in ps ==> q.hash < m
    ensures Owner(ps, h, p) <==>
            p in ps && forall q :: q in ps ==>
              Distance(h, p, m) < Distance(h, q, m) || (p.hash == q.hash && p.shard <= q.shard)
  {
    if p in ps && !Owner(ps, h, p) {
      if exists q :: q in ps && q.hash >= h {
        var q :| q in ps && q.hash >= h && (p.hash < h || !Leq(p, q));
        assert Distance(h, q, m) <= Distance(h, p, m);
      }
    }
  }

  /** Landing depends on which points there are, not on their order. */
  lemma OwnerSameMultiset(ps: seq<Point>, qs: seq<Point>, h: nat, p: Point)
    requires multiset(ps) == multiset(qs) && Owner(ps, h, p)
    ensures Owner(qs, h, p)
  {
    assert forall q :: q in ps <==> q in multiset(ps);
    assert forall q :: q in qs <==> q in multiset(qs);
  }

  class HashRing {
    const points: seq<Point>
    const hash: Bytes -> nat

    constructor (points: seq<Point>, hash: Bytes -> nat)
      ensures this.points == points && this.hash == hash
    {
      this.points, this.hash := points, hash;
    }

    /** PickShard: binary search for the first point at or after the key's hash, wrapping round to the first. */
    method PickShard(key: Bytes) returns (r: RingResult<nat>)
      requires SortedPoints(points)
      ensures key == [] ==> r == Err(ErrEmptyKey)
      ensures key != [] && points == [] ==> r == Err(ErrEmptyRing)
      ensures key != [] && points != [] ==> r.Ok? && exists p :: Owner(points, hash(key), p) && p.shard == r.value
    {
      if |key| == 0 {
        return Err(ErrEmptyKey);
      }
      if |points| == 0 {
        return Err(ErrEmptyRing);
      }
      var keyHash := hash(key);
      var i, j := 0, |points|;
      while i < j
        invariant 0 <= i <= j <= |points|
        invariant forall k :: 0 <= k < i ==> points[k].hash < keyHash
        invariant forall k :: j <= k < |points| ==> points[k].hash >= keyHash
      {
        var mid := (i + j) / 2;
        if points[mid].hash < keyHash {
          i := mid + 1;
        } else {
          j := mid;
        }
      }
      var idx := i;
      if idx == |points| {
        idx := 0;
      }
      LandsAt(points, keyHash, i);
      r := Ok(points[idx].shard);
    }
  }

  lemma LandsAt(ps: seq<Point>, h: nat, i: nat)
    requires SortedPoints(ps) && ps != [] && i <= |ps|
    requires forall k :: 0 <= k < i ==> ps[k].hash < h
    requires forall k :: i <= k < |ps| ==> ps[k].hash >= h
    ensures Owner(ps, h, ps[if i == |ps| then 0 else i])
  {
    var p := ps[if i == |ps| then 0 else i];
    if i < |ps| {
      assert p in ps && p.hash >= h;
    }
    forall q | q in ps && (q.hash >= h || i == |ps|) ensures Leq(p, q) {
      var k :| 0 <= k < |ps| && ps[k] == q;
    }
  }

  /** NewHashRing: make the points in two nested loops, then sort them. */
  method NewHashRing(shardCount: int, virtualNodes: int, hash: Bytes -> nat) returns (r: RingResult<HashRing>)
    ensures shardCount <= 0 ==> r == Err(ErrInvalidShardCount)
    ensures shardCount > 0 && virtualNodes <= 0 ==> r == Err(ErrInvalidVirtualNodes)
    ensures shardCount > 0 && virtualNodes > 0 ==>
              && r.Ok? && fresh(r.value) && r.value.hash == hash && SortedPoints(r.value.points)
              && multiset(r.value.points) == multiset(Points(shardCount, virtualNodes, hash))
              && |r.value.points| == shardCount * virtualNodes
              && forall p :: p in r.value.points <==> OnRing(p, shardCount, virtualNodes, hash)
  {
    hide SortedPoints, IsNodeKey, OnRing, NodeKey;
    if shardCount <= 0 {
      return Err(ErrInvalidShardCount);
    }
    if virtualNodes <= 0 {
      return Err(ErrInvalidVirtualNodes);
    }
    var points: seq<Point> := [];
    for shardID := 0 to shardCount
      invariant points == Points(shardID, virtualNodes, hash)
    {
      for vnodeID := 0 to virtualNodes
        invariant points == Points(shardID, virtualNodes, hash) + ShardPoints(shardID, vnodeID, hash)
      {
        points := points + [Point(hash(NodeKey(shardID, vnodeID)), shardID)];
      }
    }
    ghost var made := points;
    points := SortPoints(points);
    RingHolds(made, points, shardCount, virtualNodes, hash);
    var ring := new HashRing(points, hash);
    r := Ok(ring);
  }

  lemma RingHolds(made: seq<Point>, points: seq<Point>, shards: nat, vnodes: nat, hash: Bytes -> nat)
    requires made == Points(shards, vnodes, hash) && multiset(points) == multiset(made)
    ensures |points| == shards * vnodes && forall p :: p in points <==> OnRing(p, shards, vnodes, hash)
  {
    hide Points, OnRing;
    assert |multiset(points)| == |points| && |multiset(made)| == |made|;
    PointsAre(shards, vnodes, hash, Point(0, 0));
    forall p ensures p in points <==> OnRing(p, shards, vnodes, hash) {
      assert p in points <==> p in multiset(points);
      assert p in made <==> p in multiset(made);
      PointsAre(shards, vnodes, hash, p);
    }
  }

  lemma {:induction false} ShardPointsOwn(shard: nat, vnodes: nat, hash: Bytes -> nat, p: Point)
    ensures p in ShardPoints(shard, vnodes, hash) ==> p.shard == shard
    ensures vnodes > 0 ==> ShardPoints(shard, vnodes, hash) != []
  {
    if vnodes > 0 {
      ShardPointsOwn(shard, vnodes - 1, hash, p);
    }
  }

  /** Every point of the ring belongs to one of its shards. */
  lemma {:induction false} PointsInRange(shards: nat, vnodes: nat, hash: Bytes -> nat, p: Point)
    ensures p in Points(shards, vnodes, hash) ==> p.shard < shards
    ensures shards > 0 && vnodes > 0 ==> Points(shards, vnodes, hash) != []
  {
    hide ShardPoints, NodeKey;
    if shards > 0 {
      PointsInRange(shards - 1, vnodes, hash, p);
      ShardPointsOwn(shards - 1, vnodes, hash, p);
    }
  }

  /** Adding points moves a key only onto one of the added points. */
  lemma OwnerAfterAdding(ps: seq<Point>, added: seq<Point>, h: nat, p: Point)
    requires Owner(ps + added, h, p) && p !in added
    ensures Owner(ps, h, p)
  {
    assert forall q :: q in ps ==> q in ps + added;
    assert p in ps;
  }

  /** Minimal movement: going from n to n + 1 shards, a key stays on its shard or moves to the new one, hash collisions
      included. */
  lemma MinimalMovement(n: nat, vnodes: nat, hash: Bytes -> nat, key: Bytes, before: Point, after: Point)
    requires Owner(Points(n, vnodes, hash), hash(key), before)
    requires Owner(Points(n + 1, vnodes, hash), hash(key), after)
    ensures after.shard == n || after == before
    ensures after.shard <= n && before.shard < n
  {
    hide Owner;
    var added := ShardPoints(n, vnodes, hash);
    PointsInRange(n, vnodes, hash, before);
    PointsInRange(n + 1, vnodes, hash, after);
    OwnerIn(Points(n, vnodes, hash), hash(key), before);
    OwnerIn(Points(n + 1, vnodes, hash), hash(key), after);
    if after in added {
      ShardPointsOwn(n, vnodes, hash, after);
    } else {
      OwnerAfterAdding(Points(n, vnodes, hash), added, hash(key), after);
      OwnerUnique(Points(n, vnodes, hash), hash(key), before, after);
    }
  }

  lemma OwnerIn(ps: seq<Point>, h: nat, p: Point)
    requires Owner(ps, h, p)
    ensures p in ps
  {
  }

  lemma NotEmpty(a: seq<Point>, b: seq<Point>)
    requires multiset(a) == multiset(b) && b != []
    ensures a != []
  {
    assert |multiset(a)| == |a| && |multiset(b)| == |b|;
  }
}
