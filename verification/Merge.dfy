/** Merging the shards' search results (cluster/coordinator_main.cpp:760-785). */
module Merge {
  import opened FiniteSets

  datatype Hit = Hit(id: string, distance: real)

  function Ids(hits: seq<Hit>): set<string> {
    set h | h in hits :: h.id
  }

  ghost predicate DistinctIds(hits: seq<Hit>) {
    forall i, j :: 0 <= i < j < |hits| ==> hits[i].id != hits[j].id
  }

  ghost predicate Ascending(hits: seq<Hit>) {
    forall i, j :: 0 <= i < j < |hits| ==> hits[i].distance <= hits[j].distance
  }

  // ---- What the parties promise ----

  /** The exact k best of one shard, in any order. */
  ghost predicate KBest(answer: seq<Hit>, data: set<Hit>, k: nat) {
    && DistinctIds(answer) && (forall h :: h in answer ==> h in data) && |answer| <= k
    && forall h :: h in data && h !in answer ==> |answer| == k && forall g :: g in answer ==> g.distance <= h.distance
  }

  /** Hit h is on one of the shards. */
  ghost predicate InUnion(data: seq<set<Hit>>, h: Hit) {
    exists s :: 0 <= s < |data| && h in data[s]
  }

  /** The k best distinct ids over all shards, nearest first: each with the least distance at which any
      shard holds it, and no id that is left out is anywhere nearer than one that is listed. */
  ghost predicate GlobalKBest(results: seq<Hit>, data: seq<set<Hit>>, k: nat) {
    && DistinctIds(results) && Ascending(results) && |results| <= k
    && (forall r :: r in results ==> InUnion(data, r) && forall h :: InUnion(data, h) && h.id == r.id ==> r.distance <= h.distance)
    && forall h :: InUnion(data, h) && h.id !in Ids(results) ==>
         |results| == k && forall r :: r in results ==> r.distance <= h.distance
  }

  // ---- Sorting and removing duplicates ----

  /** Where a hit goes: behind every hit that is not farther. */
  method FindPlace(sorted: seq<Hit>, h: Hit) returns (at: nat)
    ensures at <= |sorted| && (at > 0 ==> sorted[at - 1].distance <= h.distance)
    ensures forall j :: at <= j < |sorted| ==> sorted[j].distance > h.distance
  {
    at := |sorted|;
    while at > 0 && sorted[at - 1].distance > h.distance
      invariant 0 <= at <= |sorted| && forall j :: at <= j < |sorted| ==> sorted[j].distance > h.distance
    {
      at := at - 1;
    }
  }

  /** Sort by distance; the order of equal distances is left open. */
  method SortByDistance(hits: seq<Hit>) returns (sorted: seq<Hit>)
    ensures Ascending(sorted) && multiset(sorted) == multiset(hits)
  {
    sorted := [];
    for i := 0 to |hits|
      invariant Ascending(sorted) && multiset(sorted) == multiset(hits[..i])
    {
      var at := FindPlace(sorted, hits[i]);
      InsertedAscending(sorted, at, hits[i]);
      InsertedMembers(sorted, at, hits[i]);
      sorted := InsertAt(sorted, at, hits[i]);
      assert hits[..i + 1] == hits[..i] + [hits[i]];
    }
    assert hits[..|hits|] == hits;
  }

  function InsertAt(hits: seq<Hit>, at: nat, h: Hit): seq<Hit>
    requires at <= |hits|
  {
    hits[..at] + [h] + hits[at..]
  }

  lemma InsertedAscending(hits: seq<Hit>, at: nat, h: Hit)
    requires at <= |hits| && Ascending(hits)
    requires (at > 0 ==> hits[at - 1].distance <= h.distance) && forall j :: at <= j < |hits| ==> hits[j].distance > h.distance
    ensures Ascending(InsertAt(hits, at, h))
  {
  }

  lemma InsertedMembers(hits: seq<Hit>, at: nat, h: Hit)
    requires at <= |hits|
    ensures multiset(InsertAt(hits, at, h)) == multiset(hits) + multiset{h}
  {
    assert hits == hits[..at] + hits[at..];
  }

  /** `deduped` lists the first hit of each id of `hits`. */
  ghost predicate Firsts(deduped: seq<Hit>, hits: seq<Hit>) {
    && DistinctIds(deduped) && Ascending(deduped) && Ids(deduped) == Ids(hits)
    && (forall r :: r in deduped ==> r in hits)
    && forall r, h :: r in deduped && h in hits && h.id == r.id ==> r.distance <= h.distance
  }

  /** Keep the first hit of each id, and stop once there are k. With k of at least 1 the result is the
      first k of all first hits. */
  method Dedupe(hits: seq<Hit>, k: int) returns (deduped: seq<Hit>, ghost all: seq<Hit>)
    requires Ascending(hits)
    ensures DistinctIds(deduped) && Ascending(deduped) && (k < 0 || |deduped| < k ==> Ids(deduped) == Ids(hits))
    ensures forall r :: r in deduped ==> r in hits && forall h :: h in hits && h.id == r.id ==> r.distance <= h.distance
    ensures Firsts(all, hits) && deduped <= all
    ensures k >= 1 ==> |deduped| == if |all| < k then |all| else k
    ensures k == 0 ==> |deduped| == if |all| < 1 then |all| else 1
    ensures k < 0 ==> deduped == all
  {
    deduped, all := [], [];
    var seen: set<string>, stopped := {}, false;
    for i := 0 to |hits|
      invariant Firsts(all, hits[..i]) && deduped <= all && (!stopped ==> deduped == all && seen == Ids(all))
      invariant forall r :: r in all ==> r in hits[..i]
      invariant stopped ==> k >= 0 && |deduped| == (if k == 0 then 1 else k)
      invariant !stopped && k >= 1 ==> |deduped| < k
      invariant !stopped && k == 0 ==> deduped == []
    {
      FirstsNext(all, hits, i);
      ghost var isNew := hits[i].id !in Ids(all);
      if !stopped && hits[i].id !in seen {
        seen := seen + {hits[i].id};
        IdsNext(deduped, hits[i]);
        deduped := deduped + [hits[i]];
        if k >= 0 && |deduped| >= k { stopped := true; }
      }
      if isNew { all := all + [hits[i]]; }
    }
    assert hits[..|hits|] == hits;
  }

  lemma IdsNext(hits: seq<Hit>, h: Hit)
    ensures Ids(hits + [h]) == Ids(hits) + {h.id}
  {
  }

  lemma FirstsNext(all: seq<Hit>, hits: seq<Hit>, i: nat)
    requires Ascending(hits) && i < |hits| && Firsts(all, hits[..i])
    ensures hits[i].id in Ids(all) ==> Firsts(all, hits[..i + 1])
    ensures hits[i].id !in Ids(all) ==> Firsts(all + [hits[i]], hits[..i + 1])
  {
    var h, front := hits[i], hits[..i];
    assert hits[..i + 1] == front + [h];
    IdsNext(front, h);
    IdsNext(all, h);
    forall g | g in front ensures g.distance <= h.distance {
      var j :| 0 <= j < |front| && front[j] == g;
    }
  }

  // ---- The merge is exact ----

  /** Distinct ids of a list: as many as its length. */
  lemma {:induction false} IdsCount(hits: seq<Hit>)
    ensures |Ids(hits)| <= |hits|
    ensures DistinctIds(hits) ==> |Ids(hits)| == |hits|
  {
    if hits == [] {
      assert Ids(hits) == {};
    } else {
      var front, last := hits[..|hits| - 1], hits[|hits| - 1];
      IdsCount(front);
      assert hits == front + [last];
      IdsNext(front, last);
    }
  }

  /** If some hits with different ids are all at most d away, so are that many first hits. */
  lemma NearHitsComeFirst(all: seq<Hit>, hits: seq<Hit>, near: seq<Hit>, d: real)
    requires Firsts(all, hits) && DistinctIds(near) && near != []
    requires forall g :: g in near ==> g in hits && g.distance <= d
    ensures |all| >= |near| && all[|near| - 1].distance <= d
  {
    var cut := if |all| < |near| then |all| else |near| - 1;
    if |all| < |near| || all[|near| - 1].distance > d {
      forall id | id in Ids(near) ensures id in Ids(all[..cut]) {
        var g :| g in near && g.id == id;
        FirstOf(all, hits, g, cut, d);
      }
      IdsCount(near);
      IdsCount(all[..cut]);
      SubsetSize(Ids(near), Ids(all[..cut]));
    }
  }

  /** The first hit of g's id lies before any first hit farther than d. */
  lemma FirstOf(all: seq<Hit>, hits: seq<Hit>, g: Hit, cut: nat, d: real)
    requires Firsts(all, hits) && g in hits && g.distance <= d && cut <= |all|
    requires cut < |all| ==> all[cut].distance > d
    ensures g.id in Ids(all[..cut])
  {
    assert g.id in Ids(hits);
    var r :| r in all && r.id == g.id;
    var i :| 0 <= i < |all| && all[i] == r;
    assert r.distance <= g.distance;
    assert i < cut;
    assert all[..cut][i] == r;
  }

  /** No shard holds a listed id nearer than it is listed: if the shard did not report it, the k hits it
      reported instead fill the first k places. */
  lemma ListedAtLeast(data: set<Hit>, answer: seq<Hit>, all: seq<Hit>, hits: seq<Hit>, k: nat, i: nat, h: Hit)
    requires k >= 1 && KBest(answer, data, k) && Firsts(all, hits) && forall g :: g in answer ==> g in hits
    requires i < |all| && i < k && h in data && h.id == all[i].id
    ensures all[i].distance <= h.distance
  {
    if h !in answer { NearHitsComeFirst(all, hits, answer, h.distance); }
  }

  function FirstK(all: seq<Hit>, k: nat): seq<Hit> {
    if |all| < k then all else all[..k]
  }

  /** An id that is left out is no nearer on any shard than what is listed. */
  lemma LeftOutAtLeast(data: set<Hit>, answer: seq<Hit>, all: seq<Hit>, hits: seq<Hit>, k: nat, h: Hit)
    requires k >= 1 && KBest(answer, data, k) && Firsts(all, hits) && forall g :: g in answer ==> g in hits
    requires h in data && h.id !in Ids(FirstK(all, k))
    ensures |all| >= k && all[k - 1].distance <= h.distance
  {
    forall j | 0 <= j < |all| && j < k ensures all[j].id in Ids(FirstK(all, k)) {
      assert FirstK(all, k)[j] == all[j];
    }
    if h in answer {
      assert h.id in Ids(hits);
      var r :| r in all && r.id == h.id;
    } else {
      NearHitsComeFirst(all, hits, answer, h.distance);
    }
  }

  ghost predicate AllKBest(answers: seq<seq<Hit>>, data: seq<set<Hit>>, k: nat) {
    && |answers| == |data|
    && forall s :: 0 <= s < |data| ==> KBest(answers[s], data[s], k)
  }

  /** `hits` holds what the shards answered. */
  ghost predicate Gathered(hits: seq<Hit>, answers: seq<seq<Hit>>) {
    && (forall s, g :: 0 <= s < |answers| && g in answers[s] ==> g in hits)
    && forall h :: h in hits ==> exists s :: 0 <= s < |answers| && h in answers[s]
  }

  lemma ListedIsBest(answers: seq<seq<Hit>>, data: seq<set<Hit>>, hits: seq<Hit>, all: seq<Hit>, k: nat, i: nat)
    requires k >= 1 && AllKBest(answers, data, k) && Gathered(hits, answers) && Firsts(all, hits) && i < |all| && i < k
    ensures InUnion(data, all[i]) && forall h :: InUnion(data, h) && h.id == all[i].id ==> all[i].distance <= h.distance
  {
    assert all[i] in hits;
    var s :| 0 <= s < |answers| && all[i] in answers[s];
    assert all[i] in data[s];
    forall h | InUnion(data, h) && h.id == all[i].id ensures all[i].distance <= h.distance {
      var t :| 0 <= t < |data| && h in data[t];
      ListedAtLeast(data[t], answers[t], all, hits, k, i, h);
    }
  }

  lemma LeftOutIsWorse(answers: seq<seq<Hit>>, data: seq<set<Hit>>, hits: seq<Hit>, all: seq<Hit>, k: nat, h: Hit)
    requires k >= 1 && AllKBest(answers, data, k) && Gathered(hits, answers) && Firsts(all, hits)
    requires InUnion(data, h) && h.id !in Ids(FirstK(all, k))
    ensures |all| >= k && all[k - 1].distance <= h.distance
  {
    var t :| 0 <= t < |data| && h in data[t];
    LeftOutAtLeast(data[t], answers[t], all, hits, k, h);
  }

  lemma FirstKWithin(all: seq<Hit>, k: nat, d: real)
    requires Ascending(all) && 1 <= k <= |all| && all[k - 1].distance <= d
    ensures |FirstK(all, k)| == k && forall r :: r in FirstK(all, k) ==> r.distance <= d
  {
  }

  /** The first k of the first hits are the k best distinct ids over all shards, also when an id is on two of them. */
  lemma MergeIsExact(answers: seq<seq<Hit>>, data: seq<set<Hit>>, hits: seq<Hit>, all: seq<Hit>, k: nat)
    requires k >= 1 && AllKBest(answers, data, k) && Gathered(hits, answers) && Firsts(all, hits)
    ensures GlobalKBest(FirstK(all, k), data, k)
  {
    var results := FirstK(all, k);
    forall r | r in results
      ensures InUnion(data, r) && forall h :: InUnion(data, h) && h.id == r.id ==> r.distance <= h.distance
    {
      var i :| 0 <= i < |results| && results[i] == r;
      ListedIsBest(answers, data, hits, all, k, i);
    }
    forall h | InUnion(data, h) && h.id !in Ids(results)
      ensures |results| == k && forall r :: r in results ==> r.distance <= h.distance
    {
      LeftOutIsWorse(answers, data, hits, all, k, h);
      FirstKWithin(all, k, h.distance);
    }
  }

  method Gather(answers: seq<seq<Hit>>) returns (merged: seq<Hit>)
    ensures Gathered(merged, answers)
  {
    merged := [];
    for s := 0 to |answers|
      invariant Gathered(merged, answers[..s])
    {
      GatheredNext(merged, answers, s);
      merged := merged + answers[s];
    }
    assert answers[..|answers|] == answers;
  }

  /** The handler: gather, sort, remove duplicates, cut at k. */
  method MergeResults(answers: seq<seq<Hit>>, k: int, ghost data: seq<set<Hit>>) returns (results: seq<Hit>)
    requires k >= 1 ==> AllKBest(answers, data, k)
    ensures k >= 1 ==> GlobalKBest(results, data, k)
    ensures k == 0 ==> |results| <= 1
  {
    var merged := Gather(answers);
    var sorted := SortByDistance(merged);
    GatheredSame(merged, sorted, answers);
    ghost var all;
    results, all := Dedupe(sorted, k);
    if k >= 1 {
      MergeIsExact(answers, data, sorted, all, k);
      assert results == FirstK(all, k);
    }
  }

  lemma GatheredSame(merged: seq<Hit>, sorted: seq<Hit>, answers: seq<seq<Hit>>)
    requires Gathered(merged, answers) && multiset(sorted) == multiset(merged)
    ensures Gathered(sorted, answers)
  {
    forall h ensures h in sorted <==> h in merged {
      assert h in sorted <==> h in multiset(sorted);
    }
  }

  lemma GatheredNext(front: seq<Hit>, answers: seq<seq<Hit>>, s: nat)
    requires s < |answers| && Gathered(front, answers[..s])
    ensures Gathered(front + answers[s], answers[..s + 1])
  {
  }
}
