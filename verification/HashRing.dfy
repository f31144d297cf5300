/** Consistent hashing with virtual nodes (cluster/hash_ring.hpp). The hash functions are parameters. */
module HashRings {

  const VIRTUAL_NODES_PER_SHARD := 200

  /** `seed` hashes a shard id and `mix` hashes a hash again. */
  datatype Hash = Hash(seed: int -> nat, mix: nat -> nat)

  /** A virtual node of a shard; pairs are ordered by hash, then by shard. */
  datatype Point = Point(hash: nat, shard: int)

  function Iterate(mix: nat -> nat, h: nat, times: nat): nat {
    if times == 0 then h else mix(Iterate(mix, h, times - 1))
  }

  function VnodePoint(f: Hash, shard: int, v: nat): nat {
    Iterate(f.mix, f.seed(shard), v + 1)
  }

  method ChainedVnodePoint(f: Hash, shard: int, v: nat) returns (h: nat)
    ensures h == VnodePoint(f, shard, v)
  {
    h := f.seed(shard);
    for i := 0 to v + 1
      invariant h == Iterate(f.mix, f.seed(shard), i)
    {
      h := f.mix(h);
    }
  }

  /** The virtual nodes of a shard form a chain: the first is the hash of the shard's own, and each of the
      others is the hash of the one before. */
  lemma VnodesAreChained(f: Hash, shard: int, v: nat)
    ensures VnodePoint(f, shard, 0) == f.mix(f.seed(shard))
    ensures VnodePoint(f, shard, v + 1) == f.mix(VnodePoint(f, shard, v))
  {
    assert Iterate(f.mix, f.seed(shard), 0) == f.seed(shard);
  }

  /** Two chains that meet once stay together from there on. */
  lemma {:induction false} MeetingChainsMerge(f: Hash, a: int, v: nat, b: int, w: nat, n: nat)
    requires VnodePoint(f, a, v) == VnodePoint(f, b, w)
    ensures VnodePoint(f, a, v + n) == VnodePoint(f, b, w + n)
  {
    if n == 0 {
    } else {
      MeetingChainsMerge(f, a, v, b, w, n - 1);
      VnodesAreChained(f, a, v + n - 1);
      VnodesAreChained(f, b, w + n - 1);
    }
  }

  predicate PairLe(p: Point, q: Point) {
    p.hash < q.hash || (p.hash == q.hash && p.shard <= q.shard)
  }

  // ---- What routing means ----

  /** p is a virtual node of one of the shards. */
  ghost predicate OnRing(f: Hash, ids: set<int>, p: Point) {
    p.shard in ids && exists v: nat :: v < VIRTUAL_NODES_PER_SHARD && VnodePoint(f, p.shard, v) == p.hash
  }

  /** Going round from h, p comes no later than q: those at or after h come first, each part in pair order. */
  predicate NoLater(h: nat, p: Point, q: Point) {
    if (p.hash >= h) == (q.hash >= h) then PairLe(p, q) else p.hash >= h
  }

  /** p is the first pair at or after h, with wraparound. */
  ghost predicate IsOwner(f: Hash, ids: set<int>, h: nat, p: Point) {
    OnRing(f, ids, p) && forall q :: OnRing(f, ids, q) ==> NoLater(h, p, q)
  }

  lemma OwnerIsUnique(f: Hash, ids: set<int>, h: nat, p: Point, q: Point)
    requires IsOwner(f, ids, h, p) && IsOwner(f, ids, h, q)
    ensures p == q
  {
  }

  /** The first of the first n virtual nodes of one shard. */
  lemma {:induction false} FirstOfShard(f: Hash, shard: int, h: nat, n: nat) returns (p: Point)
    requires 0 < n <= VIRTUAL_NODES_PER_SHARD
    ensures OnRing(f, {shard}, p)
    ensures forall v: nat :: v < n ==> NoLater(h, p, Point(VnodePoint(f, shard, v), shard))
  {
    var last := Point(VnodePoint(f, shard, n - 1), shard);
    if n == 1 {
      p := last;
    } else {
      p := FirstOfShard(f, shard, h, n - 1);
      if !NoLater(h, p, last) { p := last; }
    }
  }

  lemma OwnerOfOne(f: Hash, shard: int, h: nat) returns (p: Point)
    ensures IsOwner(f, {shard}, h, p)
  {
    p := FirstOfShard(f, shard, h, VIRTUAL_NODES_PER_SHARD);
    forall q | OnRing(f, {shard}, q) ensures NoLater(h, p, q) {
      var v: nat :| v < VIRTUAL_NODES_PER_SHARD && VnodePoint(f, q.shard, v) == q.hash;
      assert q == Point(VnodePoint(f, shard, v), shard);
    }
  }

  lemma OwnerOfTwo(f: Hash, a: set<int>, b: set<int>, h: nat, p: Point, q: Point) returns (r: Point)
    requires IsOwner(f, a, h, p) && IsOwner(f, b, h, q)
    ensures IsOwner(f, a + b, h, r)
  {
    r := if NoLater(h, p, q) then p else q;
    forall x | OnRing(f, a + b, x) ensures NoLater(h, r, x) {
      assert OnRing(f, a, x) || OnRing(f, b, x);
    }
  }

  lemma EmptyOrNot(ids: set<int>)
    ensures ids == {} || exists id :: id in ids
  {
    if forall id :: id !in ids {
      assert ids == {};
    }
  }

  lemma {:induction false} OwnerExists(f: Hash, ids: set<int>, h: nat) returns (p: Point)
    requires ids != {}
    ensures IsOwner(f, ids, h, p)
    decreases |ids|
  {
    EmptyOrNot(ids);
    var id :| id in ids;
    var rest := ids - {id};
    assert ids == {id} + rest;
    p := OwnerOfOne(f, id, h);
    if rest == {} {
      assert ids == {id};
    } else {
      var q := OwnerExists(f, rest, h);
      p := OwnerOfTwo(f, {id}, rest, h, p, q);
    }
  }

  /** The shard that owns hash h. */
  ghost function Owner(f: Hash, ids: set<int>, h: nat): (shard: int)
    requires ids != {}
    ensures shard in ids && exists p :: IsOwner(f, ids, h, p) && p.shard == shard
  {
    assert exists p :: IsOwner(f, ids, h, p) by { var p := OwnerExists(f, ids, h); }
    var p :| IsOwner(f, ids, h, p);
    p.shard
  }

  lemma OwnerIs(f: Hash, ids: set<int>, h: nat, p: Point)
    requires ids != {} && IsOwner(f, ids, h, p)
    ensures Owner(f, ids, h) == p.shard
  {
  }

  // ---- Minimal disruption ----

  /** Of a larger ring's owner a smaller ring knows nothing better. */
  lemma OwnerInSmallerRing(f: Hash, ids: set<int>, all: set<int>, h: nat, p: Point)
    requires IsOwner(f, all, h, p) && ids <= all && p.shard in ids
    ensures IsOwner(f, ids, h, p)
  {
  }

  /** Adding a shard moves a key only to that shard; read the other way round, removing one moves only the
      keys it owned. It holds whatever points collide. */
  lemma MinimalDisruption(f: Hash, ids: set<int>, shard: int, h: nat)
    requires ids != {}
    ensures Owner(f, ids + {shard}, h) == Owner(f, ids, h) || Owner(f, ids + {shard}, h) == shard
  {
    var p := OwnerExists(f, ids + {shard}, h);
    OwnerIs(f, ids + {shard}, h, p);
    if p.shard != shard {
      OwnerInSmallerRing(f, ids, ids + {shard}, h, p);
      OwnerIs(f, ids, h, p);
    }
  }

  lemma RemovalMovesOnlyItsKeys(f: Hash, ids: set<int>, shard: int, h: nat)
    requires shard in ids && ids != {shard} && Owner(f, ids, h) != shard
    ensures Owner(f, ids - {shard}, h) == Owner(f, ids, h)
  {
    var rest := ids - {shard};
    assert rest + {shard} == ids;
    assert rest == {} ==> ids == {shard};
    MinimalDisruption(f, rest, shard, h);
  }

  // ---- The ring as a sorted list ----

  ghost predicate Sorted(ring: seq<Point>) {
    forall i, j :: 0 <= i < j < |ring| ==> PairLe(ring[i], ring[j])
  }

  /** Insert one pair into a sorted list. */
  function InsertPoint(ring: seq<Point>, p: Point): (r: seq<Point>)
    ensures |r| == |ring| + 1 && multiset(r) == multiset(ring) + multiset{p}
  {
    if ring == [] || PairLe(ring[|ring| - 1], p) then ring + [p]
    else
      assert ring == ring[..|ring| - 1] + [ring[|ring| - 1]];
      InsertPoint(ring[..|ring| - 1], p) + [ring[|ring| - 1]]
  }

  lemma {:induction false} InsertSorted(ring: seq<Point>, p: Point)
    requires Sorted(ring)
    ensures Sorted(InsertPoint(ring, p))
    ensures forall i :: 0 <= i < |InsertPoint(ring, p)| ==> InsertPoint(ring, p)[i] in ring || InsertPoint(ring, p)[i] == p
  {
    if ring != [] && !PairLe(ring[|ring| - 1], p) {
      InsertSorted(ring[..|ring| - 1], p);
    }
  }

  /** Any sort gives this list, since pairs that compare equal are equal. */
  function SortPoints(points: seq<Point>): (r: seq<Point>)
    ensures Sorted(r) && multiset(r) == multiset(points)
  {
    if points == [] then []
    else
      assert points == points[..|points| - 1] + [points[|points| - 1]];
      var front := SortPoints(points[..|points| - 1]);
      InsertSorted(front, points[|points| - 1]);
      InsertPoint(front, points[|points| - 1])
  }

  /** The sorted list holds exactly the virtual nodes of the shards. */
  ghost predicate Built(f: Hash, ids: set<int>, ring: seq<Point>) {
    Sorted(ring) && forall p :: p in ring <==> OnRing(f, ids, p)
  }

  function Ids(shardIds: seq<int>): set<int> {
    set id | id in shardIds
  }

  class HashRing {
    const hash: Hash
    var ring: seq<Point>

    constructor (hash: Hash)
      ensures this.hash == hash && ring == []
    {
      this.hash, ring := hash, [];
    }

    /** The order of the ids, and repetitions among them, make no difference. */
    method Build(shardIds: seq<int>)
      modifies this
      ensures Built(hash, Ids(shardIds), ring)
    {
      var points := [];
      for i := 0 to |shardIds|
        invariant forall p :: p in points <==> OnRing(hash, Ids(shardIds[..i]), p)
      {
        var sid := shardIds[i];
        ghost var before := points;
        for v := 0 to VIRTUAL_NODES_PER_SHARD
          invariant forall p :: p in points <==>
                      p in before || (p.shard == sid && exists w: nat :: w < v && VnodePoint(hash, sid, w) == p.hash)
        {
          var h := ChainedVnodePoint(hash, sid, v);
          points := points + [Point(h, sid)];
        }
        assert Ids(shardIds[..i + 1]) == Ids(shardIds[..i]) + {sid};
      }
      assert shardIds[..|shardIds|] == shardIds;
      ring := SortPoints(points);
      assert forall p :: p in ring <==> p in multiset(ring);
      assert forall p :: p in points <==> p in multiset(points);
    }

    /** Binary search for the first point that is not below h, wrapping round at the end. */
    method Route(h: nat, ghost ids: set<int>) returns (shard: int)
      requires ids != {} && Built(hash, ids, ring)
      ensures shard == Owner(hash, ids, h)
    {
      var lo, hi := 0, |ring|;
      while lo < hi
        invariant 0 <= lo <= hi <= |ring|
        invariant forall i :: 0 <= i < lo ==> ring[i].hash < h
        invariant forall i :: hi <= i < |ring| ==> ring[i].hash >= h
      {
        var mid := lo + (hi - lo) / 2;
        if ring[mid].hash < h { lo := mid + 1; } else { hi := mid; }
      }
      RingNotEmpty(hash, ids, ring);
      var at := if lo == |ring| then 0 else lo;
      forall q | OnRing(hash, ids, q) ensures NoLater(h, ring[at], q) {
        assert q in ring;
      }
      OwnerIs(hash, ids, h, ring[at]);
      return ring[at].shard;
    }
  }

  lemma RingNotEmpty(f: Hash, ids: set<int>, ring: seq<Point>)
    requires ids != {} && Built(f, ids, ring)
    ensures ring != []
  {
    var p := OwnerExists(f, ids, 0);
    assert p in ring;
  }
}
