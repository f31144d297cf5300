/** Beam search in one layer of the HNSW graph (include/index/hnsw.hpp:308-349).

    Distances are reals and `d` gives the distance of a node to the query. Heaps are sets of ids: which
    of several equally distant ids a heap yields is left open. */
module HnswSearch {
  import opened FiniteSets

  /** MAX_LAYERS, M_MAX0 and M of the source. */
  const MAX_LAYERS := 4
  const M_MAX0 := 32
  const M := 16

  type Vector = seq<real>

  datatype Node = Node(level: nat, deleted: bool, vector: Vector, links: seq<seq<nat>>)

  type Graph = map<nat, Node>

  /** Every node has a list for each layer, and the lists name nodes of the graph. */
  ghost predicate WellLinked(g: Graph) {
    forall x :: x in g ==>
      |g[x].links| == MAX_LAYERS &&
      forall l, i :: 0 <= l < MAX_LAYERS && 0 <= i < |g[x].links[l]| ==> g[x].links[l][i] in g
  }

  function Links(g: Graph, x: nat, layer: nat): seq<nat> {
    if x in g && layer < |g[x].links| then g[x].links[layer] else []
  }

  predicate Live(g: Graph, x: nat) {
    x in g && !g[x].deleted
  }

  function LiveOf(g: Graph, s: set<nat>): set<nat> {
    set x | x in s && Live(g, x)
  }

  // ---- The ef nearest of a set ----

  /** `best` are `count` nearest of `pool`, or all of it if there are fewer. */
  ghost predicate Nearest(best: set<nat>, pool: set<nat>, count: nat, d: nat -> real) {
    && best <= pool && |best| == (if |pool| < count then |pool| else count)
    && forall x, y :: x in best && y in pool && y !in best ==> d(x) <= d(y)
  }

  lemma {:induction false} FarthestOf(s: set<nat>, d: nat -> real) returns (w: nat)
    requires s != {}
    ensures w in s && forall x :: x in s ==> d(x) <= d(w)
    decreases |s|
  {
    var a :| a in s;
    var rest := s - {a};
    assert forall x :: x in s ==> x == a || x in rest;
    if rest == {} {
      w := a;
    } else {
      w := FarthestOf(rest, d);
      if d(w) < d(a) { w := a; }
    }
  }

  /** The top of the heap of results: an id at the largest distance. */
  method Farthest(s: set<nat>, d: nat -> real) returns (w: nat)
    requires s != {}
    ensures w in s && forall x :: x in s ==> d(x) <= d(w)
  {
    ghost var far := FarthestOf(s, d);
    w :| w in s && forall x :: x in s ==> d(x) <= d(w);
  }

  /** The top of the heap of candidates: an id at the smallest distance. */
  method Closest(s: set<nat>, d: nat -> real) returns (w: nat)
    requires s != {}
    ensures w in s && forall x :: x in s ==> d(w) <= d(x)
  {
    ghost var near := FarthestOf(s, (x: nat) => -d(x));
    assert forall x :: x in s ==> -d(x) <= -d(near);
    w :| w in s && forall x :: x in s ==> d(w) <= d(x);
  }

  lemma NearestGrows(best: set<nat>, pool: set<nat>, count: nat, d: nat -> real, y: nat)
    requires Nearest(best, pool, count, d) && |best| < count && y !in pool
    ensures Nearest(best + {y}, pool + {y}, count, d)
  {
    SubsetSize(best, pool);
    assert best == pool;
  }

  lemma NearestIgnores(best: set<nat>, pool: set<nat>, count: nat, d: nat -> real, y: nat, w: nat)
    requires Nearest(best, pool, count, d) && |best| >= count && y !in pool
    requires w in best && (forall x :: x in best ==> d(x) <= d(w)) && d(y) >= d(w)
    ensures Nearest(best, pool + {y}, count, d)
  {
  }

  /** Push a nearer one, pop a farthest one. */
  lemma NearestReplaces(best: set<nat>, pool: set<nat>, count: nat, d: nat -> real, y: nat, w: nat, out: nat)
    requires Nearest(best, pool, count, d) && |best| >= count && y !in pool
    requires w in best && (forall x :: x in best ==> d(x) <= d(w)) && d(y) < d(w)
    requires out in best + {y} && forall x :: x in best + {y} ==> d(x) <= d(out)
    ensures Nearest(best + {y} - {out}, pool + {y}, count, d)
  {
  }

  // ---- Reachability ----

  /** With each node, s holds its neighbours in the layer whose ids fit the visited array. */
  ghost predicate Closed(g: Graph, layer: nat, bound: nat, s: set<nat>) {
    forall x :: x in s ==> Expanded(g, layer, bound, x, s)
  }

  ghost predicate Expanded(g: Graph, layer: nat, bound: nat, x: nat, s: set<nat>) {
    forall y :: y in Links(g, x, layer) && y < bound ==> y in s
  }

  /** s is what can be reached from `entry`: the least closed set that holds it. */
  ghost predicate IsReachable(g: Graph, layer: nat, bound: nat, entry: nat, s: set<nat>) {
    && entry in s && Closed(g, layer, bound, s)
    && forall t :: entry in t && Closed(g, layer, bound, t) ==> s <= t
  }

  lemma LiveOfMore(g: Graph, s: set<nat>, y: nat)
    ensures LiveOf(g, s + {y}) == if Live(g, y) then LiveOf(g, s) + {y} else LiveOf(g, s)
  {
  }

  lemma LiveOfSubset(g: Graph, s: set<nat>, t: set<nat>)
    requires s <= t
    ensures LiveOf(g, s) <= LiveOf(g, t)
  {
  }

  // ---- The search ----

  /** The result is full and x is no nearer than any of it. */
  ghost predicate Outside(x: nat, found: set<nat>, ef: nat, d: nat -> real) {
    |found| >= ef && forall w :: w in found ==> d(w) <= d(x)
  }

  /** One neighbour that has not been visited. It waits to be expanded unless it lies outside the result. */
  method Consider(g: Graph, d: nat -> real, y: nat, ef: nat, ghost visited: set<nat>, candidates: set<nat>, found: set<nat>)
    returns (candidates': set<nat>, found': set<nat>)
    requires ef > 0 && y !in visited && candidates <= visited && Nearest(found, LiveOf(g, visited), ef, d)
    ensures Nearest(found', LiveOf(g, visited + {y}), ef, d) && |found| <= |found'|
    ensures candidates' == candidates || candidates' == candidates + {y}
    ensures y in candidates' || Outside(y, found', ef, d)
    ensures forall x :: Outside(x, found, ef, d) ==> Outside(x, found', ef, d)
  {
    candidates', found' := candidates, found;
    LiveOfMore(g, visited, y);
    assert y !in LiveOf(g, visited);
    var push := |found| < ef;
    ghost var w := 0;
    if !push {
      var top := Farthest(found, d);
      push := d(y) < d(top);
      w := top;
    }
    if push {
      candidates' := candidates + {y};
      if Live(g, y) {
        found' := found + {y};
        if |found'| > ef {
          var out := Farthest(found', d);
          NearestReplaces(found, LiveOf(g, visited), ef, d, y, w, out);
          found' := found' - {out};
        } else {
          NearestGrows(found, LiveOf(g, visited), ef, d, y);
        }
      }
    } else if Live(g, y) {
      NearestIgnores(found, LiveOf(g, visited), ef, d, y, w);
    }
  }

  /** The neighbours of one candidate. */
  method ExpandNode(g: Graph, d: nat -> real, curr: nat, ef: nat, layer: nat, bound: nat,
                    visited: set<nat>, candidates: set<nat>, found: set<nat>)
    returns (visited': set<nat>, candidates': set<nat>, found': set<nat>)
    requires WellLinked(g) && layer < MAX_LAYERS && ef > 0 && curr in g && visited <= g.Keys && candidates <= visited
    requires Nearest(found, LiveOf(g, visited), ef, d)
    ensures visited <= visited' <= g.Keys && candidates <= candidates' <= visited'
    ensures Nearest(found', LiveOf(g, visited'), ef, d) && |found| <= |found'|
    ensures visited' - visited <= Reaching(g, curr, layer, bound) && Expanded(g, layer, bound, curr, visited')
    ensures forall x :: x in visited' && x !in visited ==> x in candidates' || Outside(x, found', ef, d)
    ensures forall x :: Outside(x, found, ef, d) ==> Outside(x, found', ef, d)
    ensures visited' == visited ==> candidates' == candidates
  {
    visited', candidates', found' := visited, candidates, found;
    var links := g[curr].links[layer];
    for i := 0 to |links|
      invariant visited <= visited' <= g.Keys && candidates <= candidates' <= visited'
      invariant Nearest(found', LiveOf(g, visited'), ef, d) && |found| <= |found'|
      invariant visited' - visited <= Reaching(g, curr, layer, bound)
      invariant forall k :: 0 <= k < i && links[k] < bound ==> links[k] in visited'
      invariant forall x :: x in visited' && x !in visited ==> x in candidates' || Outside(x, found', ef, d)
      invariant forall x :: Outside(x, found, ef, d) ==> Outside(x, found', ef, d)
      invariant visited' == visited ==> candidates' == candidates
    {
      var y := links[i];
      if y < bound && y !in visited' {
        assert y in g && y in Reaching(g, curr, layer, bound);
        candidates', found' := Consider(g, d, y, ef, visited', candidates', found');
        visited' := visited' + {y};
      }
    }
  }

  /** The neighbours of x that fit the visited array. */
  ghost function Reaching(g: Graph, x: nat, layer: nat, bound: nat): set<nat> {
    set y | y in Links(g, x, layer) && y < bound
  }

  /** Every closed set that holds `entry` holds all of s. */
  ghost predicate WithinReach(g: Graph, layer: nat, bound: nat, entry: nat, s: set<nat>) {
    forall t :: entry in t && Closed(g, layer, bound, t) ==> s <= t
  }

  lemma ReachGrows(g: Graph, layer: nat, bound: nat, entry: nat, s: set<nat>, x: nat, s': set<nat>)
    requires WithinReach(g, layer, bound, entry, s) && x in s && s' - s <= Reaching(g, x, layer, bound)
    ensures WithinReach(g, layer, bound, entry, s')
  {
    forall t | entry in t && Closed(g, layer, bound, t) ensures s' <= t {
      assert s <= t && Expanded(g, layer, bound, x, t);
      assert forall y :: y in s' ==> y in s || y in Reaching(g, x, layer, bound);
    }
  }

  /** There is always such a set. */
  lemma {:induction false} ReachableExists(g: Graph, layer: nat, bound: nat, entry: nat, s: set<nat>) returns (reach: set<nat>)
    requires WellLinked(g) && layer < MAX_LAYERS && s <= g.Keys && entry in s && WithinReach(g, layer, bound, entry, s)
    ensures IsReachable(g, layer, bound, entry, reach)
    decreases |g.Keys| - |s|
  {
    if Closed(g, layer, bound, s) {
      reach := s;
    } else {
      var x :| x in s && !Expanded(g, layer, bound, x, s);
      var y :| y in Links(g, x, layer) && y < bound && y !in s;
      ReachGrows(g, layer, bound, entry, s, x, s + {y});
      SubsetSize(s + {y}, g.Keys);
      reach := ReachableExists(g, layer, bound, entry, s + {y});
    }
  }

  /** Everything visited and no longer waiting has been expanded or lies outside the result. */
  ghost predicate Progress(g: Graph, d: nat -> real, layer: nat, bound: nat, ef: nat,
                           visited: set<nat>, candidates: set<nat>, found: set<nat>) {
    forall x :: x in visited && x !in candidates ==> Expanded(g, layer, bound, x, visited) || Outside(x, found, ef, d)
  }

  lemma ProgressStays(g: Graph, d: nat -> real, layer: nat, bound: nat, ef: nat, curr: nat,
                      visited: set<nat>, candidates: set<nat>, found: set<nat>,
                      visited': set<nat>, candidates': set<nat>, found': set<nat>)
    requires Progress(g, d, layer, bound, ef, visited, candidates + {curr}, found)
    requires visited <= visited' && candidates <= candidates' && Expanded(g, layer, bound, curr, visited')
    requires forall x :: x in visited' && x !in visited ==> x in candidates' || Outside(x, found', ef, d)
    requires forall x :: Outside(x, found, ef, d) ==> Outside(x, found', ef, d)
    ensures Progress(g, d, layer, bound, ef, visited', candidates', found')
  {
    forall x | x in visited' && x !in candidates' ensures Expanded(g, layer, bound, x, visited') || Outside(x, found', ef, d) {
      if x in visited && x != curr { assert Expanded(g, layer, bound, x, visited) || Outside(x, found, ef, d); }
    }
  }

  /** The early exit: with the closest candidate farther than the whole result, no candidate matters. */
  lemma ExitIsSafe(g: Graph, d: nat -> real, layer: nat, bound: nat, ef: nat, curr: nat, top: nat,
                   visited: set<nat>, candidates: set<nat>, found: set<nat>)
    requires Progress(g, d, layer, bound, ef, visited, candidates, found) && |found| >= ef
    requires forall x :: x in candidates ==> d(curr) <= d(x)
    requires (forall w :: w in found ==> d(w) <= d(top)) && d(curr) > d(top)
    ensures Progress(g, d, layer, bound, ef, visited, {}, found)
  {
    forall x | x in candidates ensures Outside(x, found, ef, d) { }
  }

  /** What a finished search has done. All it visited can be reached. `found` are the ef nearest live nodes
      of it. Every visited node that is nearer than the farthest of `found`, or any at all if `found` is
      not full, has had its neighbours visited too. */
  ghost predicate Searched(g: Graph, d: nat -> real, entry: nat, ef: nat, layer: nat, bound: nat,
                           visited: set<nat>, found: set<nat>) {
    && visited <= g.Keys && entry in visited && WithinReach(g, layer, bound, entry, visited)
    && Nearest(found, LiveOf(g, visited), ef, d)
    && Progress(g, d, layer, bound, ef, visited, {}, found)
  }

  /** The search finds as many live nodes as there are in reach, up to ef, and if there are at most ef
      it finds exactly those. */
  lemma FoundInReach(g: Graph, d: nat -> real, entry: nat, ef: nat, layer: nat, bound: nat,
                     visited: set<nat>, found: set<nat>, reach: set<nat>)
    requires Searched(g, d, entry, ef, layer, bound, visited, found) && IsReachable(g, layer, bound, entry, reach)
    ensures |found| == if |LiveOf(g, reach)| < ef then |LiveOf(g, reach)| else ef
    ensures |LiveOf(g, reach)| <= ef ==> found == LiveOf(g, reach)
  {
    assert visited <= reach;
    LiveOfSubset(g, visited, reach);
    SubsetSize(found, LiveOf(g, reach));
    if |found| < ef {
      assert Closed(g, layer, bound, visited);
      assert visited == reach;
      SubsetSize(found, LiveOf(g, visited));
    }
  }

  /** s holds the neighbours of each of its nodes that is nearer than `limit`. */
  ghost predicate ClosedWithin(g: Graph, d: nat -> real, limit: real, layer: nat, bound: nat, s: set<nat>) {
    forall x :: x in s && d(x) < limit ==> Expanded(g, layer, bound, x, s)
  }

  /** y can be reached from `entry` on a path of nodes nearer than `limit`, all but y itself. */
  ghost predicate ReachedWithin(g: Graph, d: nat -> real, limit: real, layer: nat, bound: nat, entry: nat, y: nat) {
    forall s :: entry in s && ClosedWithin(g, d, limit, layer, bound, s) ==> y in s
  }

  /** However many nodes are in reach, no live node is missed that can be reached through nodes nearer than
      the farthest result: it is a result itself or no nearer than any. */
  lemma NothingNearerMissed(g: Graph, d: nat -> real, entry: nat, ef: nat, layer: nat, bound: nat,
                            visited: set<nat>, found: set<nat>, far: nat, y: nat)
    requires Searched(g, d, entry, ef, layer, bound, visited, found) && far in found
    requires Live(g, y) && ReachedWithin(g, d, d(far), layer, bound, entry, y)
    ensures y in found || forall x :: x in found ==> d(x) <= d(y)
  {
    forall x | x in visited && d(x) < d(far) ensures Expanded(g, layer, bound, x, visited) {
      assert !Outside(x, found, ef, d);
    }
    assert ClosedWithin(g, d, d(far), layer, bound, visited);
  }

  ghost predicate Searching(g: Graph, d: nat -> real, entry: nat, ef: nat, layer: nat, bound: nat,
                            seen: set<nat>, candidates: set<nat>, found: set<nat>) {
    && candidates <= seen <= g.Keys && entry in seen && (forall x :: x in seen ==> x < bound)
    && Nearest(found, LiveOf(g, seen), ef, d)
    && WithinReach(g, layer, bound, entry, seen) && Progress(g, d, layer, bound, ef, seen, candidates, found)
  }

  lemma StartsSearching(g: Graph, d: nat -> real, entry: nat, ef: nat, layer: nat, bound: nat)
    requires ef > 0 && entry in g && entry < bound
    ensures Searching(g, d, entry, ef, layer, bound, {entry}, {entry}, if Live(g, entry) then {entry} else {})
  {
    assert LiveOf(g, {entry}) == if Live(g, entry) then {entry} else {};
  }

  /** One round: take the closest candidate, and stop or expand it. */
  method Round(g: Graph, d: nat -> real, ghost entry: nat, ef: nat, layer: nat, bound: nat,
               seen: set<nat>, candidates: set<nat>, found: set<nat>)
    returns (seen': set<nat>, candidates': set<nat>, found': set<nat>)
    requires WellLinked(g) && layer < MAX_LAYERS && ef > 0 && candidates != {}
    requires Searching(g, d, entry, ef, layer, bound, seen, candidates, found)
    ensures Searching(g, d, entry, ef, layer, bound, seen', candidates', found')
    ensures |seen| <= |seen'| <= bound && (|seen'| == |seen| ==> |candidates'| < |candidates|)
  {
    var curr := Closest(candidates, d);
    var rest := candidates - {curr};
    assert rest + {curr} == candidates;
    BelowSize(seen, bound);
    if |found| >= ef {
      var top := Farthest(found, d);
      if d(curr) > d(top) {
        ExitIsSafe(g, d, layer, bound, ef, curr, top, seen, candidates, found);
        return seen, {}, found;
      }
    }
    seen', candidates', found' := ExpandNode(g, d, curr, ef, layer, bound, seen, rest, found);
    ReachGrows(g, layer, bound, entry, seen, curr, seen');
    ProgressStays(g, d, layer, bound, ef, curr, seen, rest, found, seen', candidates', found');
    assert forall x :: x in seen' ==> x in seen || x in Reaching(g, curr, layer, bound);
    BelowSize(seen', bound);
    SubsetSize(seen, seen');
  }

  /** The whole search: it ends, having done what `Searched` says. */
  method SearchLayer(g: Graph, d: nat -> real, entry: nat, ef: nat, layer: nat, bound: nat)
    returns (found: set<nat>, ghost visited: set<nat>)
    requires WellLinked(g) && layer < MAX_LAYERS && ef > 0 && entry in g && entry < bound
    ensures Searched(g, d, entry, ef, layer, bound, visited, found)
    ensures forall reach {:trigger IsReachable(g, layer, bound, entry, reach)} :: IsReachable(g, layer, bound, entry, reach) ==>
              && |found| == (if |LiveOf(g, reach)| < ef then |LiveOf(g, reach)| else ef)
              && (|LiveOf(g, reach)| <= ef ==> found == LiveOf(g, reach))
  {
    var seen, candidates := {entry}, {entry};
    found := if Live(g, entry) then {entry} else {};
    StartsSearching(g, d, entry, ef, layer, bound);
    BelowSize(seen, bound);
    while candidates != {}
      invariant Searching(g, d, entry, ef, layer, bound, seen, candidates, found) && |seen| <= bound
      decreases bound - |seen|, |candidates|
    {
      seen, candidates, found := Round(g, d, entry, ef, layer, bound, seen, candidates, found);
    }
    visited := seen;
    forall reach | IsReachable(g, layer, bound, entry, reach)
      ensures |found| == (if |LiveOf(g, reach)| < ef then |LiveOf(g, reach)| else ef)
      ensures |LiveOf(g, reach)| <= ef ==> found == LiveOf(g, reach)
    {
      FoundInReach(g, d, entry, ef, layer, bound, visited, found, reach);
    }
  }
}
