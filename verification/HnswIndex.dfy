/** The HNSW index object: insert, delete and search (include/index/hnsw.hpp:79-236, 351-381). */
module HnswIndex {
  import opened FiniteSets
  import opened HnswSearch
  import opened HnswGraph

  const EF_CONSTRUCTION := 200
  const EF_SEARCH := 100
  const VISITED_SLACK := 2000
  const HEADER_SIZE := 64
  const NODE_SIZE := 1056
  const GROWTH := 10 * 1024 * 1024
  const LOCK_SLACK := 10000

  function DistanceTo(g: Graph, metric: Metric, query: Vector, x: nat): real {
    if x in g then metric(query, g[x].vector) else 0.0
  }

  /** Distances from the node `id`. */
  function DistanceFrom(g: Graph, metric: Metric, id: nat): nat -> real {
    (x: nat) => Distance(g, metric, id, x)
  }

  function Max(a: int, b: int): int {
    if a < b then b else a
  }

  function Min(a: int, b: int): int {
    if a < b then a else b
  }

  // ---- The greedy descent ----

  ghost function Closer(g: Graph, d: nat -> real, dist: real): set<nat> {
    set x | x in g && d(x) < dist
  }

  lemma FewerAreCloser(g: Graph, d: nat -> real, x: nat, dist: real)
    requires x in g && d(x) < dist
    ensures |Closer(g, d, d(x))| < |Closer(g, d, dist)|
  {
    assert x in Closer(g, d, dist) && x !in Closer(g, d, d(x));
    SubsetSize(Closer(g, d, d(x)), Closer(g, d, dist) - {x});
  }

  /** No neighbour of x in the layer is closer than x. */
  ghost predicate LocalMinimum(g: Graph, d: nat -> real, x: nat, layer: nat) {
    forall y :: y in Links(g, x, layer) ==> d(y) >= d(x)
  }

  /** Follow links of one layer while they lead closer. It ends because fewer nodes are strictly closer
      after each round, at a node none of whose neighbours in the layer is closer. */
  method DescendLayer(g: Graph, ghost inserted: set<nat>, d: nat -> real, start: nat, layer: nat) returns (curr: nat)
    requires GraphOk(g, inserted) && start in inserted && layer < MAX_LAYERS && g[start].level >= layer
    ensures curr in inserted && g[curr].level >= layer && d(curr) <= d(start)
    ensures LocalMinimum(g, d, curr, layer) && (Links(g, start, layer) == [] ==> curr == start)
  {
    curr := start;
    var dist, changed := d(start), true;
    while changed
      invariant curr in inserted && g[curr].level >= layer && dist == d(curr) <= d(start)
      invariant Links(g, start, layer) == [] ==> curr == start
      invariant !changed ==> LocalMinimum(g, d, curr, layer)
      decreases |Closer(g, d, dist)|, changed
    {
      changed := false;
      var node := curr;
      assert NodeOk(g, inserted, node) && ListOk(g, inserted, node, layer);
      var links := g[node].links[layer];
      for i := 0 to |links|
        invariant curr in inserted && g[curr].level >= layer && dist == d(curr) <= d(node)
        invariant changed <==> dist < d(node)
        invariant !changed || i == 0 ==> curr == node
        invariant forall k :: 0 <= k < i ==> d(links[k]) >= dist
      {
        assert LinkOk(g, inserted, node, layer, links[i]);
        if d(links[i]) < dist { dist, curr, changed := d(links[i]), links[i], true; }
      }
      if changed { FewerAreCloser(g, d, curr, d(node)); }
    }
  }

  /** x has no links in any layer. */
  ghost predicate Mute(g: Graph, x: nat) {
    forall l: nat :: Links(g, x, l) == []
  }

  /** From the top layer down to the one above `stop`. */
  method Descend(g: Graph, ghost inserted: set<nat>, d: nat -> real, entry: nat, top: nat, stop: nat) returns (curr: nat)
    requires GraphOk(g, inserted) && entry in inserted && top < MAX_LAYERS && g[entry].level >= top
    ensures curr in inserted && g[curr].level >= Min(top, stop) && d(curr) <= d(entry)
    ensures if top > stop then LocalMinimum(g, d, curr, stop + 1) else curr == entry
    ensures Mute(g, entry) ==> curr == entry
  {
    curr := entry;
    var l := top;
    while l > stop
      invariant Min(top, stop) <= l <= top && curr in inserted && g[curr].level >= l && d(curr) <= d(entry)
      invariant stop == l < top ==> LocalMinimum(g, d, curr, stop + 1)
      invariant l == top || Mute(g, entry) ==> curr == entry
    {
      curr := DescendLayer(g, inserted, d, curr, l);
      l := l - 1;
    }
  }

  /** Where the search of the first common layer begins: at the entry point, or where the descent from it ended. */
  ghost predicate BeginsWell(g: Graph, d: nat -> real, entry: nat, top: int, level: nat, start: nat) {
    && d(start) <= d(entry) && (Mute(g, entry) ==> start == entry)
    && if top > level then LocalMinimum(g, d, start, level + 1) else start == entry
  }

  // ---- Taking from the result heap ----

  /** Listed from the farthest on. */
  ghost predicate Descending(s: seq<nat>, d: nat -> real) {
    forall i, j :: 0 <= i < j < |s| ==> d(s[i]) >= d(s[j])
  }

  /** `s` lists different members of `pool`, the farthest first, and those left out are no farther. */
  ghost predicate FarthestFirst(s: seq<nat>, pool: set<nat>, d: nat -> real) {
    && Distinct(s) && Descending(s, d)
    && (forall i :: 0 <= i < |s| ==> s[i] in pool)
    && forall i, y :: 0 <= i < |s| && y in pool && y !in s ==> d(y) <= d(s[i])
  }

  /** Pop up to `limit` ids. The heap yields the farthest first, so with more ids than `limit` it is the
      nearest that are left behind. */
  method PopFarthest(pool: set<nat>, d: nat -> real, limit: nat) returns (s: seq<nat>)
    ensures FarthestFirst(s, pool, d) && |s| == Min(limit, |pool|)
  {
    s := [];
    var rest := pool;
    while rest != {} && |s| < limit
      invariant rest <= pool && |rest| + |s| == |pool| && |s| <= limit
      invariant FarthestFirst(s, pool, d) && forall x :: x in pool ==> (x in s <==> x !in rest)
      decreases |rest|
    {
      var w := Farthest(rest, d);
      assert w !in s;
      s := s + [w];
      rest := rest - {w};
    }
  }

  // ---- A new node ----

  function FreshNode(level: nat, vector: Vector): Node {
    Node(level, false, vector, [[], [], [], []])
  }

  /** Nothing links to or from the new node. */
  ghost predicate JustWritten(g: Graph, inserted: set<nat>, id: nat) {
    && id in inserted && id in g
    && (forall x, l :: x in g ==> id !in Links(g, x, l)) && forall l :: Links(g, id, l) == []
  }

  /** Writing the node of a fresh id keeps the invariant, and nobody links to it yet. */
  lemma FreshNodeOk(g: Graph, inserted: set<nat>, id: nat, level: nat, vector: Vector)
    requires GraphOk(g, inserted) && id !in inserted && level < MAX_LAYERS
    ensures var g' := g[id := FreshNode(level, vector)];
            GraphOk(g', inserted + {id}) && JustWritten(g', inserted + {id}, id)
  {
  }

  /** The inserted nodes on a layer, apart from the new one, lead nowhere else. */
  lemma OldLayerIsClosed(g: Graph, inserted: set<nat>, id: nat, layer: nat, bound: nat) returns (old': set<nat>)
    requires GraphOk(g, inserted) && layer < MAX_LAYERS && forall x :: x in g ==> id !in Links(g, x, layer)
    ensures Closed(g, layer, bound, old')
    ensures forall x :: x in old' <==> x in inserted && x != id && g[x].level >= layer
  {
    old' := set x | x in inserted && x != id && g[x].level >= layer;
    forall x | x in old' ensures Expanded(g, layer, bound, x, old') {
      assert NodeOk(g, inserted, x) && ListOk(g, inserted, x, layer);
      forall y | y in Links(g, x, layer) ensures y in old' {
        var i :| 0 <= i < |g[x].links[layer]| && g[x].links[layer][i] == y;
        assert LinkOk(g, inserted, x, layer, y);
      }
    }
  }

  /** The search for neighbours in one layer: where it began, what it visited and found, and which of the
      found were chosen. */
  datatype LayerSearch = LayerSearch(start: nat, visited: set<nat>, beam: set<nat>, chosen: seq<nat>) {
    /** Where the search of the layer below begins. */
    function Next(): nat {
      if chosen != [] then chosen[0] else start
    }
  }

  /** How many ids the visited array has room for: 2000 more than the start and the count. */
  function Bound(start: nat, count: int): (b: nat)
    ensures b >= start + 2000 && b >= count + 2000 && (b == start + 2000 || b == count + 2000)
  {
    Max(start, count) + VISITED_SLACK
  }

  /** The beam is what a finished search of the layer found, and as many are chosen as there are live nodes in
      reach, up to 16. */
  ghost predicate SearchOk(g: Graph, d: nat -> real, count: int, s: LayerSearch, layer: nat) {
    var bound := Bound(s.start, count);
    && Searched(g, d, s.start, EF_CONSTRUCTION, layer, bound, s.visited, s.beam)
    && forall reach {:trigger IsReachable(g, layer, bound, s.start, reach)} ::
         IsReachable(g, layer, bound, s.start, reach) ==> |s.chosen| == Min(M, |LiveOf(g, reach)|)
  }

  ghost predicate SearchOkAt(g: Graph, d: nat -> real, count: int, searches: seq<LayerSearch>, l: nat) {
    l < |searches| && SearchOk(g, d, count, searches[l], l)
  }

  ghost predicate AllSearched(g: Graph, d: nat -> real, count: int, searches: seq<LayerSearch>, layer: int) {
    forall l: nat {:trigger SearchOkAt(g, d, count, searches, l)} ::
      layer < l < |searches| ==> SearchOkAt(g, d, count, searches, l)
  }

  /** The beam is without the new node, and the farthest 16 of it are chosen. */
  ghost predicate ChosenOk(g: Graph, inserted: set<nat>, id: nat, d: nat -> real, s: LayerSearch, layer: nat) {
    && s.start in inserted && s.start != id && OldBeam(g, inserted, id, layer, s.beam)
    && FarthestFirst(s.chosen, s.beam, d) && |s.chosen| == Min(M, |s.beam|)
  }

  /** What the search of the layer finds are live nodes of the layer other than the new one. */
  ghost predicate OldBeam(g: Graph, inserted: set<nat>, id: nat, layer: nat, beam: set<nat>) {
    forall x :: x in beam ==> x in inserted && x in g && x != id && Live(g, x) && g[x].level >= layer
  }

  /** In a layer that has been connected, the new node lists the chosen neighbours and exactly those
      (that have a lock) have had the new node added. */
  ghost predicate LayerDone(g: Graph, g': Graph, metric: Metric, locks: nat, id: nat, chosen: seq<nat>, layer: nat) {
    && Links(g', id, layer) == (if id < locks then chosen else [])
    && forall x :: x in g && x != id ==>
         Links(g', x, layer) == if x in chosen && x < locks then ListWith(g, metric, x, id, layer) else Links(g, x, layer)
  }

  /** The lists of one layer are the same. */
  ghost predicate Untouched(g: Graph, g': Graph, layer: nat) {
    forall x :: x in g ==> Links(g', x, layer) == Links(g, x, layer)
  }

  /** The graph once the layers from the top one of the new node down to `layer` have been connected. */
  function ConnectAll(g: Graph, metric: Metric, locks: nat, id: nat, searches: seq<LayerSearch>, layer: nat): Graph
    decreases |searches| - layer
  {
    if layer >= |searches| then g
    else Connect(ConnectAll(g, metric, locks, id, searches, layer + 1), metric, locks, id, searches[layer].chosen, layer)
  }

  /** Above `layer` each layer has been connected, and the others are as they were. */
  ghost predicate DoneAbove(g: Graph, g': Graph, metric: Metric, locks: nat, id: nat, searches: seq<LayerSearch>, layer: int) {
    SameNodes(g, g') && AllDone(g, g', metric, locks, id, searches, layer) && RestUntouched(g, g', |searches|, layer)
  }

  ghost predicate AllChosen(g: Graph, inserted: set<nat>, id: nat, d: nat -> real, searches: seq<LayerSearch>, layer: int) {
    forall l: nat :: layer < l < |searches| ==> ChosenOk(g, inserted, id, d, searches[l], l)
  }

  ghost predicate AllDone(g: Graph, g': Graph, metric: Metric, locks: nat, id: nat, searches: seq<LayerSearch>, layer: int) {
    forall l: nat :: layer < l < |searches| ==> LayerDone(g, g', metric, locks, id, searches[l].chosen, l)
  }

  ghost predicate RestUntouched(g: Graph, g': Graph, layers: nat, layer: int) {
    forall l: nat :: l <= layer || l >= layers ==> Untouched(g, g', l)
  }

  ghost predicate Chained(searches: seq<LayerSearch>, layer: int) {
    forall l: nat :: layer < l < |searches| - 1 ==>
      var above := searches[l + 1];
      searches[l].start == if above.chosen != [] then above.chosen[0] else above.start
  }

  lemma ChosenSelectable(g: Graph, g': Graph, inserted: set<nat>, id: nat, d: nat -> real, beam: set<nat>, chosen: seq<nat>, layer: nat)
    requires GraphOk(g', inserted) && SameNodes(g, g') && id in inserted && id in g' && g'[id].level >= layer && layer < MAX_LAYERS
    requires FarthestFirst(chosen, beam, d) && |chosen| <= M
    requires forall x :: x in beam ==> x in inserted && x != id && g'[x].level >= layer
    ensures Selectable(g', inserted, id, chosen, layer)
  {
  }

  lemma ConnectedIsDone(g: Graph, g': Graph, g'': Graph, metric: Metric, locks: nat, id: nat, chosen: seq<nat>, layer: nat)
    requires SameNodes(g, g') && Connected(g', g'', metric, locks, id, chosen, layer) && id in g
    requires Links(g', id, layer) == [] && forall x :: x in g ==> Links(g', x, layer) == Links(g, x, layer)
    ensures LayerDone(g, g'', metric, locks, id, chosen, layer)
  {
    forall x | x in g && x != id
      ensures Links(g'', x, layer) == if x in chosen && x < locks then ListWith(g, metric, x, id, layer) else Links(g, x, layer)
    {
      DistanceSame(g, g', metric, x, Links(g, x, layer), id, Capacity(layer));
    }
  }

  lemma ConnectedElsewhere(g: Graph, g': Graph, g'': Graph, metric: Metric, locks: nat, id: nat, selected: seq<nat>, layer: nat, l: nat)
    requires SameNodes(g, g') && Connected(g', g'', metric, locks, id, selected, layer) && l != layer
    ensures forall x :: x in g ==> Links(g'', x, l) == Links(g', x, l)
    ensures Untouched(g, g', l) ==> Untouched(g, g'', l)
  {
  }

  lemma ListsOneMore(g: Graph, g': Graph, g'': Graph, metric: Metric, locks: nat, id: nat, searches: seq<LayerSearch>, layer: nat)
    requires SameNodes(g, g') && AllDone(g, g', metric, locks, id, searches, layer) && layer < |searches| && id in g
    requires Connected(g', g'', metric, locks, id, searches[layer].chosen, layer)
    requires LayerDone(g, g'', metric, locks, id, searches[layer].chosen, layer)
    ensures AllDone(g, g'', metric, locks, id, searches, layer - 1)
  {
    forall l: nat | layer - 1 < l < |searches| ensures LayerDone(g, g'', metric, locks, id, searches[l].chosen, l) {
      if l != layer {
        ConnectedElsewhere(g, g', g'', metric, locks, id, searches[layer].chosen, layer, l);
        LayerDoneMoves(g, g', g'', metric, locks, id, searches[l].chosen, l);
      }
    }
  }

  lemma RestOneLess(g: Graph, g': Graph, g'': Graph, metric: Metric, locks: nat, id: nat, layers: nat, layer: nat, selected: seq<nat>)
    requires SameNodes(g, g') && RestUntouched(g, g', layers, layer) && layer < layers
    requires Connected(g', g'', metric, locks, id, selected, layer)
    ensures RestUntouched(g, g'', layers, layer - 1)
  {
    forall l: nat | l <= layer - 1 || l >= layers ensures Untouched(g, g'', l) {
      ConnectedElsewhere(g, g', g'', metric, locks, id, selected, layer, l);
    }
  }

  lemma DoneOneMore(g: Graph, g': Graph, g'': Graph, metric: Metric, locks: nat, id: nat, searches: seq<LayerSearch>, layer: nat)
    requires DoneAbove(g, g', metric, locks, id, searches, layer) && layer < |searches| && id in g
    requires Connected(g', g'', metric, locks, id, searches[layer].chosen, layer) && Links(g', id, layer) == []
    ensures DoneAbove(g, g'', metric, locks, id, searches, layer - 1)
  {
    assert Untouched(g, g', layer);
    SameNodesTransitive(g, g', g'');
    ConnectedIsDone(g, g', g'', metric, locks, id, searches[layer].chosen, layer);
    ListsOneMore(g, g', g'', metric, locks, id, searches, layer);
    RestOneLess(g, g', g'', metric, locks, id, |searches|, layer, searches[layer].chosen);
  }

  lemma LayerDoneMoves(g: Graph, g': Graph, g'': Graph, metric: Metric, locks: nat, id: nat, chosen: seq<nat>, layer: nat)
    requires LayerDone(g, g', metric, locks, id, chosen, layer) && id in g
    requires forall x :: x in g ==> Links(g'', x, layer) == Links(g', x, layer)
    ensures LayerDone(g, g'', metric, locks, id, chosen, layer)
  {
  }

  // ---- The index ----

  /** The graph invariant, and the entry point lies on the top layer. */
  ghost predicate IndexOk(g: Graph, inserted: set<nat>, entry: int, top: int) {
    && GraphOk(g, inserted)
    && (entry == -1 <==> inserted == {}) && (entry == -1 ==> top == -1)
    && (entry != -1 ==>
          && entry >= 0 && entry in inserted && g[entry].level == top
          && forall x :: x in inserted ==> g[x].level <= top)
  }

  predicate Fits(id: nat, bytes: nat) {
    HEADER_SIZE + (id + 1) * NODE_SIZE <= bytes
  }

  /** The size of the file once a node is written. */
  function BytesFor(id: nat, bytes: nat): nat {
    if Fits(id, bytes) then bytes else bytes + GROWTH
  }

  /** Locks are added only when the file grows. */
  function LocksFor(id: nat, bytes: nat, locks: nat): nat {
    if Fits(id, bytes) || id < locks then locks else id + LOCK_SLACK
  }

  /** One search for each layer that the new node of g shares with the others, each on the graph as it was: the
      first from where the descent from the entry point ended, the others from where the one above led. */
  ghost predicate SearchesOk(g: Graph, inserted: set<nat>, id: nat, d: nat -> real, entry: nat, top: nat, count: int,
                             searches: seq<LayerSearch>) {
    && id in g && |searches| == Min(g[id].level, top) + 1
    && BeginsWell(g, d, entry, top, g[id].level, searches[|searches| - 1].start)
    && AllSearched(g, d, count, searches, -1) && AllChosen(g, inserted, id, d, searches, -1) && Chained(searches, -1)
  }

  /** What these searches choose leads to a graph that keeps the invariant, in which every layer is connected. */
  lemma ConnectedOk(g: Graph, inserted: set<nat>, metric: Metric, locks: nat, id: nat, d: nat -> real,
                    entry: nat, top: nat, count: int, searches: seq<LayerSearch>)
    requires GraphOk(g, inserted) && JustWritten(g, inserted, id) && SearchesOk(g, inserted, id, d, entry, top, count, searches)
    ensures var g' := ConnectAll(g, metric, locks, id, searches, 0);
            GraphOk(g', inserted) && SameNodes(g, g') && DoneAbove(g, g', metric, locks, id, searches, -1)
  {
    assert NodeOk(g, inserted, id);
    ConnectAllDone(g, inserted, metric, locks, id, d, searches, 0);
  }

  lemma LinkedIndexOk(g: Graph, inserted: set<nat>, metric: Metric, locks: nat, id: nat, d: nat -> real,
                      entry: nat, top: nat, count: int, searches: seq<LayerSearch>)
    requires GraphOk(g, inserted) && JustWritten(g, inserted, id) && SearchesOk(g, inserted, id, d, entry, top, count, searches)
    requires entry in inserted && g[entry].level == top && forall x :: x in inserted && x != id ==> g[x].level <= top
    ensures var g' := ConnectAll(g, metric, locks, id, searches, 0);
            && SameNodes(g, g')
            && IndexOk(g', inserted, if g[id].level > top then id else entry, Max(g[id].level, top))
  {
    ConnectedOk(g, inserted, metric, locks, id, d, entry, top, count, searches);
    InsertedOk(g, ConnectAll(g, metric, locks, id, searches, 0), inserted, id, entry, top);
  }

  lemma SameList(g: Graph, x: nat, layer: nat)
    requires x in g && layer < |g[x].links|
    ensures WithList(g, x, layer, g[x].links[layer]) == g
  {
    assert g[x].links[layer := g[x].links[layer]] == g[x].links;
  }

  lemma OneMoreLive(g: Graph, g': Graph, inserted: set<nat>, id: nat)
    requires id !in inserted && id in g' && !g'[id].deleted
    requires forall x :: x in inserted ==> x in g && x in g' && g'[x].deleted == g[x].deleted
    ensures LiveOf(g', inserted + {id}) == LiveOf(g, inserted) + {id}
    ensures |LiveOf(g', inserted + {id})| == |LiveOf(g, inserted)| + 1
  {
  }

  /** The new node is on the layer and not linked there. */
  ghost predicate Linkable(g: Graph, inserted: set<nat>, id: nat, layer: nat) {
    && id in inserted && id in g && g[id].level >= layer && layer < MAX_LAYERS && Links(g, id, layer) == []
    && forall x :: x in g ==> id !in Links(g, x, layer)
  }

  lemma BeamIsOld(g: Graph, g': Graph, inserted: set<nat>, id: nat, layer: nat, bound: nat, curr: nat, visited: set<nat>, found: set<nat>)
    requires GraphOk(g', inserted) && SameNodes(g, g') && Linkable(g, inserted, id, layer)
    requires Untouched(g, g', layer)
    requires curr in inserted && curr != id && g[curr].level >= layer
    requires WithinReach(g', layer, bound, curr, visited) && found <= LiveOf(g', visited)
    ensures OldBeam(g, inserted, id, layer, found)
  {
    var old' := OldLayerIsClosed(g', inserted, id, layer, bound);
    assert curr in old';
    assert visited <= old';
  }

  /** A search sees only the links of its layer. */
  lemma SearchedMoves(g: Graph, g': Graph, d: nat -> real, entry: nat, ef: nat, layer: nat, bound: nat,
                      visited: set<nat>, found: set<nat>)
    requires Searched(g', d, entry, ef, layer, bound, visited, found) && SameNodes(g, g') && Untouched(g, g', layer)
    ensures Searched(g, d, entry, ef, layer, bound, visited, found)
  {
    assert forall x :: Links(g', x, layer) == Links(g, x, layer);
    forall x, s ensures Expanded(g, layer, bound, x, s) <==> Expanded(g', layer, bound, x, s) { }
    forall s ensures Closed(g, layer, bound, s) <==> Closed(g', layer, bound, s) { }
    assert LiveOf(g, visited) == LiveOf(g', visited);
  }

  lemma ChoiceIsOk(g: Graph, g': Graph, inserted: set<nat>, id: nat, d: nat -> real, count: int, s: LayerSearch, layer: nat)
    requires GraphOk(g', inserted) && SameNodes(g, g') && Untouched(g, g', layer) && Linkable(g, inserted, id, layer)
    requires s.start in inserted && s.start != id && g[s.start].level >= layer
    requires Searched(g', d, s.start, EF_CONSTRUCTION, layer, Bound(s.start, count), s.visited, s.beam)
    requires FarthestFirst(s.chosen, s.beam, d) && |s.chosen| == Min(M, |s.beam|)
    ensures ChosenOk(g, inserted, id, d, s, layer) && SearchOk(g, d, count, s, layer)
  {
    var bound := Bound(s.start, count);
    SearchedMoves(g, g', d, s.start, EF_CONSTRUCTION, layer, bound, s.visited, s.beam);
    BeamIsOld(g, g', inserted, id, layer, bound, s.start, s.visited, s.beam);
    forall reach | IsReachable(g, layer, bound, s.start, reach) ensures |s.chosen| == Min(M, |LiveOf(g, reach)|) {
      FoundInReach(g, d, s.start, EF_CONSTRUCTION, layer, bound, s.visited, s.beam, reach);
    }
  }

  lemma SearchedMore(g: Graph, d: nat -> real, count: int, searches: seq<LayerSearch>, layer: nat, s: LayerSearch)
    requires AllSearched(g, d, count, searches, layer) && layer < |searches| && SearchOk(g, d, count, s, layer)
    ensures AllSearched(g, d, count, searches[layer := s], layer - 1)
  {
    var searches' := searches[layer := s];
    forall l: nat | layer - 1 < l < |searches'| ensures SearchOkAt(g, d, count, searches', l) {
      assert l != layer ==> SearchOkAt(g, d, count, searches, l);
    }
  }

  /** One more layer is chosen, and it began where the one above it led. */
  lemma ChosenMore(g: Graph, inserted: set<nat>, id: nat, d: nat -> real, searches: seq<LayerSearch>, layer: nat, s: LayerSearch)
    requires layer < |searches| && AllChosen(g, inserted, id, d, searches, layer) && ChosenOk(g, inserted, id, d, s, layer)
    requires Chained(searches, layer) && (layer < |searches| - 1 ==> s.start == searches[layer + 1].Next())
    ensures AllChosen(g, inserted, id, d, searches[layer := s], layer - 1) && Chained(searches[layer := s], layer - 1)
  {
  }

  /** The layers from `layer` up have been connected, and the invariant holds. */
  ghost predicate StageOk(g: Graph, inserted: set<nat>, metric: Metric, locks: nat, id: nat, searches: seq<LayerSearch>, layer: nat) {
    var g' := ConnectAll(g, metric, locks, id, searches, layer);
    GraphOk(g', inserted) && DoneAbove(g, g', metric, locks, id, searches, layer - 1)
  }

  lemma FirstStage(g: Graph, inserted: set<nat>, metric: Metric, locks: nat, id: nat, searches: seq<LayerSearch>)
    requires GraphOk(g, inserted)
    ensures StageOk(g, inserted, metric, locks, id, searches, |searches|)
  {
    NoneDone(g, metric, locks, id, searches);
  }

  lemma NextStage(g: Graph, inserted: set<nat>, metric: Metric, locks: nat, id: nat, d: nat -> real, searches: seq<LayerSearch>, layer: nat)
    requires JustWritten(g, inserted, id) && layer < |searches| <= g[id].level + 1 <= MAX_LAYERS
    requires ChosenOk(g, inserted, id, d, searches[layer], layer)
    requires StageOk(g, inserted, metric, locks, id, searches, layer + 1)
    ensures StageOk(g, inserted, metric, locks, id, searches, layer)
  {
    OneLayerMore(g, ConnectAll(g, metric, locks, id, searches, layer + 1), inserted, metric, locks, id, d, searches, layer);
  }

  lemma {:induction false} StagesChain(g: Graph, inserted: set<nat>, metric: Metric, locks: nat, id: nat,
                                       searches: seq<LayerSearch>, layer: nat, n: nat)
    requires layer <= n && StageOk(g, inserted, metric, locks, id, searches, n)
    requires forall l: nat :: layer <= l < n && StageOk(g, inserted, metric, locks, id, searches, l + 1) ==>
               StageOk(g, inserted, metric, locks, id, searches, l)
    ensures StageOk(g, inserted, metric, locks, id, searches, layer)
    decreases n - layer
  {
    if layer == n {
    } else {
      StagesChain(g, inserted, metric, locks, id, searches, layer, n - 1);
    }
  }

  /** Connecting the layers one after the other keeps the invariant, and each layer ends as if it alone had
      been connected. */
  lemma ConnectAllDone(g: Graph, inserted: set<nat>, metric: Metric, locks: nat, id: nat, d: nat -> real,
                       searches: seq<LayerSearch>, layer: nat)
    requires GraphOk(g, inserted) && JustWritten(g, inserted, id) && |searches| <= g[id].level + 1 <= MAX_LAYERS
    requires layer <= |searches| && AllChosen(g, inserted, id, d, searches, layer - 1)
    ensures StageOk(g, inserted, metric, locks, id, searches, layer)
  {
    FirstStage(g, inserted, metric, locks, id, searches);
    forall l: nat | layer <= l < |searches| && StageOk(g, inserted, metric, locks, id, searches, l + 1)
      ensures StageOk(g, inserted, metric, locks, id, searches, l)
    {
      NextStage(g, inserted, metric, locks, id, d, searches, l);
    }
    StagesChain(g, inserted, metric, locks, id, searches, layer, |searches|);
  }

  lemma OneLayerMore(g: Graph, g': Graph, inserted: set<nat>, metric: Metric, locks: nat, id: nat, d: nat -> real,
                        searches: seq<LayerSearch>, layer: nat)
    requires GraphOk(g', inserted) && JustWritten(g, inserted, id) && DoneAbove(g, g', metric, locks, id, searches, layer)
    requires layer < |searches| <= g[id].level + 1 <= MAX_LAYERS && ChosenOk(g, inserted, id, d, searches[layer], layer)
    ensures Selectable(g', inserted, id, searches[layer].chosen, layer)
    ensures var g'' := Connect(g', metric, locks, id, searches[layer].chosen, layer);
            GraphOk(g'', inserted) && DoneAbove(g, g'', metric, locks, id, searches, layer - 1)
  {
    var chosen := searches[layer].chosen;
    assert Untouched(g, g', layer);
    ChosenSelectable(g, g', inserted, id, d, searches[layer].beam, chosen, layer);
    ConnectKeepsOk(g', inserted, metric, locks, id, chosen, layer);
    ConnectLists(g', inserted, metric, locks, id, chosen, layer);
    DoneOneMore(g, g', Connect(g', metric, locks, id, chosen, layer), metric, locks, id, searches, layer);
  }

  lemma NoneDone(g: Graph, metric: Metric, locks: nat, id: nat, searches: seq<LayerSearch>)
    ensures DoneAbove(g, g, metric, locks, id, searches, |searches| - 1)
  {
  }

  lemma {:induction false} ConnectAllSame(g: Graph, metric: Metric, locks: nat, id: nat,
                                          a: seq<LayerSearch>, b: seq<LayerSearch>, layer: nat)
    requires |a| == |b| && forall l :: layer <= l < |a| ==> a[l] == b[l]
    ensures ConnectAll(g, metric, locks, id, a, layer) == ConnectAll(g, metric, locks, id, b, layer)
    decreases |a| - layer
  {
    if layer >= |a| {
    } else {
      ConnectAllSame(g, metric, locks, id, a, b, layer + 1);
    }
  }

  lemma ConnectAllFrom(g: Graph, metric: Metric, locks: nat, id: nat, searches: seq<LayerSearch>, layer: nat, s: LayerSearch)
    requires layer < |searches|
    ensures ConnectAll(g, metric, locks, id, searches[layer := s], layer) ==
            Connect(ConnectAll(g, metric, locks, id, searches, layer + 1), metric, locks, id, s.chosen, layer)
  {
    ConnectAllSame(g, metric, locks, id, searches, searches[layer := s], layer + 1);
  }

  lemma WrittenIsLinkable(g: Graph, inserted: set<nat>, id: nat, layer: nat)
    requires JustWritten(g, inserted, id) && layer <= g[id].level < MAX_LAYERS
    ensures Linkable(g, inserted, id, layer)
  {
  }

  /** Before a layer is searched its lists are as they were. */
  lemma LayerIsReady(g: Graph, inserted: set<nat>, metric: Metric, locks: nat, id: nat, d: nat -> real,
                     searches: seq<LayerSearch>, layer: nat)
    requires GraphOk(g, inserted) && JustWritten(g, inserted, id) && layer < |searches| <= g[id].level + 1 <= MAX_LAYERS
    requires AllChosen(g, inserted, id, d, searches, layer)
    ensures var g' := ConnectAll(g, metric, locks, id, searches, layer + 1);
            GraphOk(g', inserted) && SameNodes(g, g') && Untouched(g, g', layer) && Linkable(g, inserted, id, layer)
  {
    ConnectAllDone(g, inserted, metric, locks, id, d, searches, layer + 1);
    WrittenIsLinkable(g, inserted, id, layer);
  }

  /** Until it is linked, the new node may as well not be there. */
  lemma WithoutNewOk(g: Graph, inserted: set<nat>, id: nat)
    requires GraphOk(g, inserted) && JustWritten(g, inserted, id)
    ensures GraphOk(g, inserted - {id})
  {
    forall x | x in g ensures NodeOk(g, inserted - {id}, x) {
      assert NodeOk(g, inserted, x);
      if x == id {
        forall l | 0 <= l < MAX_LAYERS ensures g[x].links[l] == [] { assert Links(g, id, l) == []; }
      } else if x in inserted {
        forall l | 0 <= l < MAX_LAYERS ensures ListOk(g, inserted - {id}, x, l) {
          assert ListOk(g, inserted, x, l) && id !in Links(g, x, l);
          forall i | 0 <= i < |g[x].links[l]| ensures LinkOk(g, inserted - {id}, x, l, g[x].links[l][i]) {
            assert LinkOk(g, inserted, x, l, g[x].links[l][i]);
          }
        }
      }
    }
  }

  /** The descent to the level of a node that nothing links to yet. */
  method DescendTo(g: Graph, ghost inserted: set<nat>, d: nat -> real, id: nat, entry: nat, top: nat) returns (curr: nat)
    requires GraphOk(g, inserted) && JustWritten(g, inserted, id) && entry in inserted && entry != id && g[entry].level == top
    ensures curr in inserted && curr != id && g[curr].level >= Min(top, g[id].level) && g[id].level < MAX_LAYERS
    ensures BeginsWell(g, d, entry, top, g[id].level, curr)
  {
    assert NodeOk(g, inserted, entry) && NodeOk(g, inserted, id);
    WithoutNewOk(g, inserted, id);
    curr := Descend(g, inserted - {id}, d, entry, top, g[id].level);
  }

  /** What an insertion into a non-empty index leaves is an index again. */
  lemma InsertedOk(g: Graph, g': Graph, inserted: set<nat>, id: nat, entry: int, top: int)
    requires SameNodes(g, g') && GraphOk(g', inserted) && id in inserted && id in g
    requires entry >= 0 && entry in inserted && g[entry].level == top
    requires forall x :: x in inserted && x != id ==> x in g && g[x].level <= top
    ensures IndexOk(g', inserted, if g[id].level > top then id else entry, Max(g[id].level, top))
  {
  }

  /** A slot of the file; one that was never written is all zero. */
  function SlotAt(g: Graph, id: nat): Node {
    if id in g then g[id] else FreshNode(0, [])
  }

  lemma MarkedOk(g: Graph, inserted: set<nat>, id: nat)
    requires GraphOk(g, inserted)
    ensures GraphOk(g[id := SlotAt(g, id).(deleted := true)], inserted)
  {
  }

  lemma MarkedCount(g: Graph, inserted: set<nat>, id: nat)
    requires inserted <= g.Keys && !SlotAt(g, id).deleted
    ensures var g' := g[id := SlotAt(g, id).(deleted := true)];
            |LiveOf(g', inserted)| == if id in inserted then |LiveOf(g, inserted)| - 1 else |LiveOf(g, inserted)|
  {
    var g' := g[id := SlotAt(g, id).(deleted := true)];
    assert LiveOf(g', inserted) == LiveOf(g, inserted) - {id};
  }

  function DistanceToAll(g: Graph, metric: Metric, query: Vector): nat -> real {
    (x: nat) => DistanceTo(g, metric, query, x)
  }

  // ---- The result list ----

  /** `s` lists `count` nearest of `pool`, or all of it if there are fewer, the nearest first. */
  ghost predicate NearestFirst(s: seq<nat>, pool: set<nat>, count: nat, d: nat -> real) {
    && Distinct(s) && (forall i, j :: 0 <= i < j < |s| ==> d(s[i]) <= d(s[j]))
    && |s| == Min(count, |pool|)
    && (forall i :: 0 <= i < |s| ==> s[i] in pool)
    && forall i, y :: 0 <= i < |s| && y in pool && y !in s ==> d(s[i]) <= d(y)
  }

  function Reversed(s: seq<nat>): (r: seq<nat>)
    ensures |r| == |s| && forall i :: 0 <= i < |s| ==> r[i] == s[|s| - 1 - i]
  {
    if s == [] then [] else Reversed(s[1..]) + [s[0]]
  }

  lemma {:induction false} DistinctSize(s: seq<nat>, pool: set<nat>)
    requires Distinct(s) && (forall i :: 0 <= i < |s| ==> s[i] in pool) && |s| == |pool|
    ensures forall y :: y in pool ==> y in s
  {
    if s == [] {
    } else {
      var front, last := s[..|s| - 1], s[|s| - 1];
      DistinctSize(front, pool - {last});
      assert forall y :: y in pool ==> y == last || y in pool - {last};
    }
  }

  lemma ReversedOrder(s: seq<nat>, d: nat -> real)
    requires Distinct(s) && Descending(s, d)
    ensures Distinct(Reversed(s)) && forall i, j :: 0 <= i < j < |s| ==> d(Reversed(s)[i]) <= d(Reversed(s)[j])
  {
    var r := Reversed(s);
    forall i, j | 0 <= i < j < |r| ensures r[i] != r[j] && d(r[i]) <= d(r[j]) {
      assert r[i] == s[|s| - 1 - i] && r[j] == s[|s| - 1 - j];
    }
  }

  /** A pool emptied farthest first, turned round. */
  lemma ReversedNearest(popped: seq<nat>, pool: set<nat>, d: nat -> real)
    requires FarthestFirst(popped, pool, d) && |popped| == |pool|
    ensures NearestFirst(Reversed(popped), pool, |pool|, d)
  {
    DistinctSize(popped, pool);
    ReversedOrder(popped, d);
    forall y | y in pool ensures y in Reversed(popped) { ReversedHolds(popped, y); }
  }

  lemma ReversedHolds(s: seq<nat>, y: nat)
    requires y in s
    ensures y in Reversed(s)
  {
    var i :| 0 <= i < |s| && s[i] == y;
    assert Reversed(s)[|s| - 1 - i] == y;
  }

  /** The heap is emptied, the list turned round and cut at k. */
  method ListNearest(found: set<nat>, d: nat -> real, k: int) returns (results: seq<nat>)
    ensures NearestFirst(results, found, if k < 0 then |found| else k, d)
  {
    var popped := PopFarthest(found, d, |found|);
    ReversedNearest(popped, found, d);
    results := Reversed(popped);
    if 0 <= k < |results| {
      CutNearest(results, found, k, d);
      results := results[..k];
    }
  }

  lemma CutNearest(all: seq<nat>, pool: set<nat>, k: nat, d: nat -> real)
    requires NearestFirst(all, pool, |pool|, d) && k <= |all|
    ensures NearestFirst(all[..k], pool, k, d)
  {
  }

  /** The k nearest of the ef nearest are the k nearest, for k up to ef. */
  lemma NearestOfMore(s: seq<nat>, found: set<nat>, pool: set<nat>, ef: nat, k: int, d: nat -> real)
    requires NearestFirst(s, found, if k < 0 then |found| else k, d) && k <= ef
    requires Nearest(found, pool, ef, d)
    ensures NearestFirst(s, pool, if k < 0 then ef else k, d)
  {
  }

  /** As many results as there are live nodes in reach, up to `count`, and if at most ef are in reach, the nearest
      of all of them. */
  ghost predicate NearestInReach(g: Graph, bound: nat, start: nat, ef: nat, results: seq<nat>, count: nat, d: nat -> real) {
    forall reach {:trigger IsReachable(g, 0, bound, start, reach)} :: IsReachable(g, 0, bound, start, reach) ==>
      && |results| == Min(count, |LiveOf(g, reach)|)
      && (|LiveOf(g, reach)| <= ef ==> NearestFirst(results, LiveOf(g, reach), count, d))
  }

  lemma ResultsInReach(g: Graph, bound: nat, start: nat, ef: nat, visited: set<nat>, found: set<nat>,
                       results: seq<nat>, k: int, d: nat -> real)
    requires Searched(g, d, start, ef, 0, bound, visited, found)
    requires NearestFirst(results, found, if k < 0 then |found| else k, d) && k <= ef
    ensures NearestInReach(g, bound, start, ef, results, if k < 0 then ef else k, d)
  {
    var count := if k < 0 then ef else k;
    forall reach | IsReachable(g, 0, bound, start, reach)
      ensures |results| == Min(count, |LiveOf(g, reach)|)
      ensures |LiveOf(g, reach)| <= ef ==> NearestFirst(results, LiveOf(g, reach), count, d)
    {
      FoundInReach(g, d, start, ef, 0, bound, visited, found, reach);
    }
  }

  /** Whatever the number of nodes in reach, a live node that can be reached from `start` through nodes nearer
      than some result is listed or no nearer than any result. */
  ghost predicate MissesNothingNearer(g: Graph, bound: nat, start: nat, results: seq<nat>, d: nat -> real) {
    forall i, y :: 0 <= i < |results| && Live(g, y) && ReachedWithin(g, d, d(results[i]), 0, bound, start, y) ==>
      y in results || forall j :: 0 <= j < |results| ==> d(results[j]) <= d(y)
  }

  lemma ResultsMissNothing(g: Graph, bound: nat, start: nat, ef: nat, visited: set<nat>, found: set<nat>,
                           results: seq<nat>, count: nat, d: nat -> real)
    requires Searched(g, d, start, ef, 0, bound, visited, found) && NearestFirst(results, found, count, d)
    ensures MissesNothingNearer(g, bound, start, results, d)
  {
    forall i, y | 0 <= i < |results| && Live(g, y) && ReachedWithin(g, d, d(results[i]), 0, bound, start, y)
      ensures y in results || forall j :: 0 <= j < |results| ==> d(results[j]) <= d(y)
    {
      NothingNearerMissed(g, d, start, ef, 0, bound, visited, found, results[i], y);
    }
  }

  /** The list that a finished search gives. */
  ghost predicate GoodResults(g: Graph, bound: nat, start: nat, ef: nat, visited: set<nat>, found: set<nat>,
                              results: seq<nat>, count: nat, d: nat -> real) {
    && NearestFirst(results, found, count, d) && NearestFirst(results, LiveOf(g, visited), count, d)
    && NearestInReach(g, bound, start, ef, results, count, d)
    && MissesNothingNearer(g, bound, start, results, d)
  }

  lemma ResultsAreGood(g: Graph, bound: nat, start: nat, ef: nat, visited: set<nat>, found: set<nat>,
                       results: seq<nat>, k: int, d: nat -> real)
    requires Searched(g, d, start, ef, 0, bound, visited, found)
    requires NearestFirst(results, found, if k < 0 then |found| else k, d) && k <= ef
    ensures GoodResults(g, bound, start, ef, visited, found, results, if k < 0 then ef else k, d)
  {
    NearestOfMore(results, found, LiveOf(g, visited), ef, k, d);
    ResultsInReach(g, bound, start, ef, visited, found, results, k, d);
    ResultsMissNothing(g, bound, start, ef, visited, found, results, if k < 0 then |found| else k, d);
  }

  /** Where the search of layer 0 begins. */
  method DescendToBase(g: Graph, ghost inserted: set<nat>, d: nat -> real, entry: nat, top: nat) returns (start: nat)
    requires GraphOk(g, inserted) && entry in inserted && g[entry].level == top
    ensures start in inserted && start in g && BeginsWell(g, d, entry, top, 0, start) && WellLinked(g)
  {
    assert NodeOk(g, inserted, entry);
    start := Descend(g, inserted, d, entry, top, 0);
    GraphIsWellLinked(g, inserted);
  }

  /** Search layer 0 from `start`, and list the k nearest of what was found. */
  method NearestFrom(g: Graph, d: nat -> real, start: nat, ef: nat, bound: nat, k: int)
    returns (results: seq<nat>, ghost visited: set<nat>, ghost found: set<nat>)
    requires WellLinked(g) && start in g && start < bound && 0 < ef && k <= ef
    ensures Searched(g, d, start, ef, 0, bound, visited, found)
    ensures GoodResults(g, bound, start, ef, visited, found, results, if k < 0 then ef else k, d)
  {
    var hits;
    hits, visited := SearchLayer(g, d, start, ef, 0, bound);
    found := hits;
    results := ListNearest(hits, d, k);
    ResultsAreGood(g, bound, start, ef, visited, hits, results, k, d);
  }

  /** The distance that each result carries. */
  method DistancesOf(g: Graph, metric: Metric, query: Vector, ids: seq<nat>) returns (distances: seq<real>)
    requires forall i :: 0 <= i < |ids| ==> ids[i] in g
    ensures |distances| == |ids| && forall i :: 0 <= i < |ids| ==> distances[i] == metric(query, g[ids[i]].vector)
  {
    distances := [];
    for i := 0 to |ids|
      invariant |distances| == i && forall j :: 0 <= j < i ==> distances[j] == metric(query, g[ids[j]].vector)
    {
      distances := distances + [metric(query, g[ids[i]].vector)];
    }
  }

  // ---- The same in terms of the metric ----

  /** `s` lists `count` of the nodes of `pool` whose vectors are nearest to the query, or all of them if there
      are fewer, the nearest first. */
  ghost predicate NearestToQuery(g: Graph, metric: Metric, query: Vector, s: seq<nat>, pool: set<nat>, count: nat) {
    && Distinct(s) && |s| == Min(count, |pool|) && (forall i :: 0 <= i < |s| ==> s[i] in pool && s[i] in g)
    && (forall i, j :: 0 <= i < j < |s| ==> metric(query, g[s[i]].vector) <= metric(query, g[s[j]].vector))
    && forall i, y :: 0 <= i < |s| && y in pool && y in g && y !in s ==>
         metric(query, g[s[i]].vector) <= metric(query, g[y].vector)
  }

  lemma NearestByMetric(g: Graph, metric: Metric, query: Vector, s: seq<nat>, pool: set<nat>, count: nat)
    requires NearestFirst(s, pool, count, DistanceToAll(g, metric, query)) && pool <= g.Keys
    ensures NearestToQuery(g, metric, query, s, pool, count)
  {
    var d := DistanceToAll(g, metric, query);
    forall x | x in g ensures d(x) == metric(query, g[x].vector) { }
  }

  /** If at most ef live nodes are in reach, the results are the nearest to the query of all of them. */
  ghost predicate NearestOfAll(g: Graph, metric: Metric, query: Vector, bound: nat, start: nat, ef: nat, s: seq<nat>, count: nat) {
    forall reach {:trigger IsReachable(g, 0, bound, start, reach)} ::
      IsReachable(g, 0, bound, start, reach) && |LiveOf(g, reach)| <= ef ==>
        NearestToQuery(g, metric, query, s, LiveOf(g, reach), count)
  }

  lemma ResultsByMetric(g: Graph, metric: Metric, query: Vector, bound: nat, start: nat, ef: nat, visited: set<nat>,
                        found: set<nat>, s: seq<nat>, count: nat)
    requires Searched(g, DistanceToAll(g, metric, query), start, ef, 0, bound, visited, found)
    requires GoodResults(g, bound, start, ef, visited, found, s, count, DistanceToAll(g, metric, query))
    ensures NearestToQuery(g, metric, query, s, found, count) && NearestOfAll(g, metric, query, bound, start, ef, s, count)
  {
    NearestByMetric(g, metric, query, s, found, count);
    forall reach | IsReachable(g, 0, bound, start, reach) && |LiveOf(g, reach)| <= ef
      ensures NearestToQuery(g, metric, query, s, LiveOf(g, reach), count)
    {
      NearestByMetric(g, metric, query, s, LiveOf(g, reach), count);
    }
  }

  /** The beam holds the 200 visited live nodes nearest to the vector, or all of them, and the 16 of the beam that
      are farthest from it are chosen, the farthest first. */
  ghost predicate ChosenByMetric(g: Graph, metric: Metric, vector: Vector, s: LayerSearch) {
    && s.beam <= LiveOf(g, s.visited) && s.beam <= g.Keys && |s.beam| == Min(200, |LiveOf(g, s.visited)|)
    && (forall x, y :: x in s.beam && y in LiveOf(g, s.visited) && y !in s.beam ==>
          metric(vector, g[x].vector) <= metric(vector, g[y].vector))
    && Distinct(s.chosen) && |s.chosen| == Min(16, |s.beam|) && (forall i :: 0 <= i < |s.chosen| ==> s.chosen[i] in s.beam)
    && (forall i, j :: 0 <= i < j < |s.chosen| ==> metric(vector, g[s.chosen[i]].vector) >= metric(vector, g[s.chosen[j]].vector))
    && forall i, y :: 0 <= i < |s.chosen| && y in s.beam && y !in s.chosen ==>
         metric(vector, g[y].vector) <= metric(vector, g[s.chosen[i]].vector)
  }

  ghost predicate AllByMetric(g: Graph, metric: Metric, vector: Vector, searches: seq<LayerSearch>) {
    forall l :: 0 <= l < |searches| ==> ChosenByMetric(g, metric, vector, searches[l])
  }

  lemma SearchByMetric(g: Graph, inserted: set<nat>, metric: Metric, id: nat, count: int, s: LayerSearch, layer: nat)
    requires id in g && SearchOk(g, DistanceFrom(g, metric, id), count, s, layer)
    requires ChosenOk(g, inserted, id, DistanceFrom(g, metric, id), s, layer)
    ensures ChosenByMetric(g, metric, g[id].vector, s)
  {
    var d := DistanceFrom(g, metric, id);
    forall x | x in g ensures d(x) == metric(g[id].vector, g[x].vector) { }
  }

  lemma SearchesByMetric(g: Graph, inserted: set<nat>, metric: Metric, id: nat, entry: nat, top: nat, count: int,
                         searches: seq<LayerSearch>)
    requires SearchesOk(g, inserted, id, DistanceFrom(g, metric, id), entry, top, count, searches)
    ensures AllByMetric(g, metric, g[id].vector, searches)
  {
    forall l | 0 <= l < |searches| ensures ChosenByMetric(g, metric, g[id].vector, searches[l]) {
      assert SearchOkAt(g, DistanceFrom(g, metric, id), count, searches, l);
      SearchByMetric(g, inserted, metric, id, count, searches[l], l);
    }
  }

  class Index {
    const metric: Metric
    var nodes: Graph
    var entry: int
    var top: int
    var count: int
    var locks: nat
    var bytes: nat
    ghost var inserted: set<nat>

    /** A fresh file. */
    constructor (metric: Metric, bytes: nat)
      ensures Valid() && Counted() && inserted == {} && this.metric == metric && this.bytes == bytes
    {
      this.metric, this.bytes := metric, bytes;
      nodes, entry, top, count, locks := map[], -1, -1, 0, LOCK_SLACK;
      inserted := {};
    }

    ghost predicate Valid()
      reads this
    {
      IndexOk(nodes, inserted, entry, top)
    }

    /** The element count is the number of live nodes. */
    ghost predicate Counted()
      reads this
    {
      count == |LiveOf(nodes, inserted)|
    }

    method AddLink(src: nat, dest: nat, layer: nat)
      requires src in nodes && layer < |nodes[src].links|
      modifies this`nodes
      ensures nodes == Link(old(nodes), metric, locks, src, dest, layer)
    {
      if src >= locks { return; }
      var g, list := nodes, nodes[src].links[layer];
      if |list| < Capacity(layer) {
        nodes := WithList(nodes, src, layer, list + [dest]);
      } else {
        ghost var dist := (y: nat) => Distance(g, metric, src, y);
        var destDist, most, at := Distance(g, metric, src, dest), -1.0, -1;
        for i := 0 to |list|
          invariant (most, at) == Scan(list, dist, i) && -1 <= at < i && nodes == g
        {
          var here := Distance(g, metric, src, list[i]);
          if here > most { most, at := here, i; }
        }
        if destDist < most && at != -1 { nodes := WithList(nodes, src, layer, list[at := dest]); }
        else { SameList(g, src, layer); }
      }
    }

    method ConnectTo(id: nat, selected: seq<nat>, layer: nat)
      requires GraphOk(nodes, inserted) && Selectable(nodes, inserted, id, selected, layer)
      modifies this`nodes
      ensures nodes == Connect(old(nodes), metric, locks, id, selected, layer)
    {
      ghost var g := nodes;
      for i := 0 to |selected|
        invariant nodes == Connect(g, metric, locks, id, selected[..i], layer)
        invariant GraphOk(nodes, inserted) && SameNodes(g, nodes)
      {
        var n := selected[i];
        assert LinkOk(g, inserted, id, layer, n);
        SameLevels(g, nodes, inserted, id, layer, n);
        assert NodeOk(nodes, inserted, id) && NodeOk(nodes, inserted, n);
        BothLinksKeepOk(nodes, inserted, metric, locks, id, n, layer);
        LinkFrame(nodes, metric, locks, id, n, layer);
        ghost var before := nodes;
        AddLink(id, n, layer);
        AddLink(n, id, layer);
        SameNodesTransitive(g, before, nodes);
        assert selected[..i + 1][..i] == selected[..i];
      }
      assert selected[..|selected|] == selected;
    }

    /** Search one layer for neighbours of the new node and link them; returns where to go on. */
    method ConnectLayer(id: nat, ghost g: Graph, d: nat -> real, curr: nat, layer: nat, ghost searches: seq<LayerSearch>)
      returns (next: nat, ghost s: LayerSearch)
      requires GraphOk(nodes, inserted) && SameNodes(g, nodes) && Untouched(g, nodes, layer) && Linkable(g, inserted, id, layer)
      requires curr in inserted && curr != id && g[curr].level >= layer
      requires AllSearched(g, d, count, searches, layer) && layer < |searches|
      modifies this`nodes
      ensures nodes == Connect(old(nodes), metric, locks, id, s.chosen, layer)
      ensures AllSearched(g, d, count, searches[layer := s], layer - 1) && ChosenOk(g, inserted, id, d, s, layer)
      ensures s.start == curr && next == s.Next() && next in inserted && next != id && g[next].level >= layer
    {
      GraphIsWellLinked(nodes, inserted);
      var bound := Max(curr, count) + VISITED_SLACK;
      var found, visited := SearchLayer(nodes, d, curr, EF_CONSTRUCTION, layer, bound);
      var selected := PopFarthest(found, d, M);
      s := LayerSearch(curr, visited, found, selected);
      ChoiceIsOk(g, nodes, inserted, id, d, count, s, layer);
      SearchedMore(g, d, count, searches, layer, s);
      ChosenSelectable(g, nodes, inserted, id, d, found, selected, layer);
      ConnectTo(id, selected, layer);
      next := curr;
      if selected != [] { next := selected[0]; }
    }

    /** The layers above l are connected, and `curr` is where layer l begins. */
    ghost predicate ConnectedDownTo(g: Graph, id: nat, d: nat -> real, first: nat, last: nat,
                                    searches: seq<LayerSearch>, curr: nat, l: int)
      reads this
    {
      && -1 <= l <= last && |searches| == last + 1 && searches[last].start == first
      && nodes == ConnectAll(g, metric, locks, id, searches, l + 1)
      && AllSearched(g, d, count, searches, l) && AllChosen(g, inserted, id, d, searches, l) && Chained(searches, l)
      && curr in inserted && curr != id && curr in g && g[curr].level >= l
      && curr == if l == last then first else searches[l + 1].Next()
    }

    lemma NothingConnected(id: nat, d: nat -> real, first: nat, last: nat) returns (searches: seq<LayerSearch>)
      requires first in inserted && first != id && first in nodes && nodes[first].level >= last
      ensures ConnectedDownTo(nodes, id, d, first, last, searches, first, last)
    {
      searches := seq(last + 1, i => LayerSearch(first, {}, {}, []));
    }

    method ConnectOne(id: nat, ghost g: Graph, d: nat -> real, ghost first: nat, ghost last: nat,
                      ghost searches: seq<LayerSearch>, curr: nat, l: nat)
      returns (next: nat, ghost searches': seq<LayerSearch>)
      requires GraphOk(g, inserted) && JustWritten(g, inserted, id) && last <= g[id].level < MAX_LAYERS
      requires ConnectedDownTo(g, id, d, first, last, searches, curr, l)
      modifies this`nodes
      ensures ConnectedDownTo(g, id, d, first, last, searches', next, l - 1)
    {
      LayerIsReady(g, inserted, metric, locks, id, d, searches, l);
      ghost var s;
      next, s := ConnectLayer(id, g, d, curr, l, searches);
      searches' := searches[l := s];
      ConnectAllFrom(g, metric, locks, id, searches, l, s);
      ChosenMore(g, inserted, id, d, searches, l, s);
      assert searches'[l] == s && (l < last ==> searches'[last] == searches[last]);
    }

    /** The layers of the new node from `last` down, beginning at `first`. */
    method ConnectDown(id: nat, d: nat -> real, first: nat, last: nat) returns (ghost searches: seq<LayerSearch>)
      requires GraphOk(nodes, inserted) && JustWritten(nodes, inserted, id) && last <= nodes[id].level < MAX_LAYERS
      requires first in inserted && first != id && nodes[first].level >= last
      modifies this`nodes
      ensures nodes == ConnectAll(old(nodes), metric, locks, id, searches, 0)
      ensures |searches| == last + 1 && searches[last].start == first && AllSearched(old(nodes), d, count, searches, -1)
      ensures AllChosen(old(nodes), inserted, id, d, searches, -1) && Chained(searches, -1)
    {
      ghost var g := nodes;
      var l, curr := last as int, first;
      searches := NothingConnected(id, d, first, last);
      while l >= 0
        invariant ConnectedDownTo(g, id, d, first, last, searches, curr, l)
      {
        curr, searches := ConnectOne(id, g, d, first, last, searches, curr, l);
        l := l - 1;
      }
    }

    /** Descend to the level of the new node, then connect its layers from the top down. */
    method ConnectLayers(id: nat, d: nat -> real, from: nat, top: nat) returns (ghost searches: seq<LayerSearch>)
      requires GraphOk(nodes, inserted) && JustWritten(nodes, inserted, id)
      requires from in inserted && from != id && nodes[from].level == top
      modifies this`nodes
      ensures SearchesOk(old(nodes), inserted, id, d, from, top, count, searches)
      ensures nodes == ConnectAll(old(nodes), metric, locks, id, searches, 0)
    {
      var last := Min(nodes[id].level, top);
      var curr := DescendTo(nodes, inserted, d, id, from, top);
      searches := ConnectDown(id, d, curr, last);
    }

    /** Make room for the node, and locks if the file had to grow. */
    method Reserve(id: nat)
      requires Fits(id, bytes + GROWTH)
      modifies this`bytes, this`locks
      ensures Fits(id, bytes) && bytes == BytesFor(id, old(bytes)) && locks == LocksFor(id, old(bytes), old(locks))
    {
      if !Fits(id, bytes) {
        bytes := bytes + GROWTH;
        if id >= locks { locks := id + LOCK_SLACK; }
      }
    }

    /** Link a node that was just written into an index that has others, and count it. */
    method LinkIn(id: nat) returns (ghost searches: seq<LayerSearch>)
      requires GraphOk(nodes, inserted) && JustWritten(nodes, inserted, id)
      requires entry >= 0 && entry in inserted && entry != id && nodes[entry].level == top
      requires forall x :: x in inserted && x != id ==> nodes[x].level <= top
      modifies this`nodes, this`entry, this`top, this`count
      ensures Valid() && count == old(count) + 1
      ensures SearchesOk(old(nodes), inserted, id, DistanceFrom(old(nodes), metric, id), old(entry), old(top), old(count), searches)
      ensures nodes == ConnectAll(old(nodes), metric, locks, id, searches, 0) && SameNodes(old(nodes), nodes)
      ensures if old(nodes)[id].level > old(top) then entry == id && top == old(nodes)[id].level
              else entry == old(entry) && top == old(top)
    {
      ghost var g := nodes;
      var level, d := nodes[id].level, DistanceFrom(nodes, metric, id);
      searches := ConnectLayers(id, d, entry, top);
      LinkedIndexOk(g, inserted, metric, locks, id, d, entry, top, count, searches);
      if level > top { entry, top := id, level; }
      count := count + 1;
    }

    /** Write the node into its slot, with no links. */
    method WriteNode(id: nat, level: nat, vector: Vector)
      requires GraphOk(nodes, inserted) && id !in inserted && level < MAX_LAYERS && Fits(id, bytes + GROWTH)
      modifies this`nodes, this`inserted, this`bytes, this`locks
      ensures nodes == old(nodes)[id := FreshNode(level, vector)] && inserted == old(inserted) + {id}
      ensures bytes == BytesFor(id, old(bytes)) && locks == LocksFor(id, old(bytes), old(locks))
      ensures GraphOk(nodes, inserted) && JustWritten(nodes, inserted, id)
    {
      Reserve(id);
      FreshNodeOk(nodes, inserted, id, level, vector);
      nodes := nodes[id := FreshNode(level, vector)];
      inserted := inserted + {id};
    }

    /** Insert under a fresh id with a level that the arrays can hold. The other nodes keep all but their
        links; `searches` tells, for each layer the new node shares with the graph, how its neighbours there
        were found and chosen. */
    method Insert(id: nat, level: nat, vector: Vector) returns (ghost searches: seq<LayerSearch>)
      requires Valid() && id !in inserted && id < 0xFFFF_FFFF && level < MAX_LAYERS && Fits(id, bytes + GROWTH)
      modifies this
      ensures Valid() && inserted == old(inserted) + {id} && count == old(count) + 1
      ensures bytes == BytesFor(id, old(bytes)) && locks == LocksFor(id, old(bytes), old(locks))
      ensures old(Counted()) ==> Counted()
      ensures old(entry) == -1 ==> nodes == old(nodes)[id := FreshNode(level, vector)]
      ensures old(entry) >= 0 ==>
                var g := old(nodes)[id := FreshNode(level, vector)];
                && SearchesOk(g, inserted, id, DistanceFrom(g, metric, id), old(entry), old(top), old(count), searches)
                && nodes == ConnectAll(g, metric, locks, id, searches, 0)
                && AllByMetric(g, metric, vector, searches)
      ensures if level > old(top) then entry == id && top == level else entry == old(entry) && top == old(top)
    {
      WriteNode(id, level, vector);
      ghost var g := nodes;
      if entry == -1 {
        searches := [];
        entry, top, count := id, level, count + 1;
      } else {
        searches := LinkIn(id);
        SearchesByMetric(g, inserted, metric, id, old(entry), old(top), old(count), searches);
      }
      OneMoreLive(old(nodes), nodes, old(inserted), id);
    }

    /** Mark a node deleted. The count stays right exactly when the call hits an inserted node or nothing
        at all: an id inside the file that was never inserted is marked and counted off as well. */
    method DeleteVector(id: nat)
      requires Valid()
      modifies this`nodes, this`count
      ensures Valid()
      ensures var slot := SlotAt(old(nodes), id);
              if Fits(id, bytes) && !slot.deleted then
                nodes == old(nodes)[id := slot.(deleted := true)] && count == old(count) - 1
              else nodes == old(nodes) && count == old(count)
      ensures old(Counted()) ==>
                (Counted() <==> id in inserted || !Fits(id, bytes) || SlotAt(old(nodes), id).deleted)
    {
      if !Fits(id, bytes) { return; }
      var slot := SlotAt(nodes, id);
      if !slot.deleted {
        MarkedOk(nodes, inserted, id);
        MarkedCount(nodes, inserted, id);
        nodes := nodes[id := slot.(deleted := true)];
        count := count - 1;
      }
    }

    /** The k nearest live nodes of those that the search visits, nearest first. It visits layer 0 from
        `start`, where the descent ended. If at most max(100, k) live nodes can be reached from there, these
        are the true k nearest of them; however many there are, none is missed that can be reached through
        nodes nearer than a result. A negative k does not cut the list. */
    method Search(query: Vector, k: int)
      returns (results: seq<nat>, distances: seq<real>, ghost start: nat, ghost visited: set<nat>, ghost found: set<nat>)
      requires Valid()
      ensures entry == -1 ==> results == []
      ensures |distances| == |results|
      ensures forall i :: 0 <= i < |results| ==> results[i] in nodes && distances[i] == metric(query, nodes[results[i]].vector)
      ensures entry >= 0 ==>
                var d := DistanceToAll(nodes, metric, query);
                var ef, bound, cut := Max(100, k), Bound(start, count), if k < 0 then 100 else k;
                && start in inserted && BeginsWell(nodes, d, entry, top, 0, start)
                && Searched(nodes, d, start, ef, 0, bound, visited, found)
                && GoodResults(nodes, bound, start, ef, visited, found, results, cut, d)
                && NearestToQuery(nodes, metric, query, results, found, cut)
                && NearestOfAll(nodes, metric, query, bound, start, ef, results, cut)
    {
      if entry == -1 { return [], [], 0, {}, {}; }
      var d := DistanceToAll(nodes, metric, query);
      var curr := DescendToBase(nodes, inserted, d, entry, top);
      start := curr;
      results, visited, found := NearestFrom(nodes, d, curr, Max(EF_SEARCH, k), Bound(curr, count), k);
      ghost var ef := Max(EF_SEARCH, k);
      ResultsByMetric(nodes, metric, query, Bound(start, count), start, ef, visited, found, results, if k < 0 then ef else k);
      distances := DistancesOf(nodes, metric, query, results);
    }
  }

  // ---- What an insertion and a search come to ----

  /** In each layer the new node lists as many neighbours as there are live nodes in reach, up to 16: it is
      linked if there is any. Each of those with a lock has had the new node added to its list. */
  lemma NewNodeIsLinked(g: Graph, inserted: set<nat>, metric: Metric, locks: nat, id: nat, d: nat -> real,
                        entry: nat, top: nat, count: int, searches: seq<LayerSearch>, l: nat, reach: set<nat>)
    requires GraphOk(g, inserted) && JustWritten(g, inserted, id) && SearchesOk(g, inserted, id, d, entry, top, count, searches)
    requires l < |searches| && IsReachable(g, l, Bound(searches[l].start, count), searches[l].start, reach)
    ensures var g', chosen := ConnectAll(g, metric, locks, id, searches, 0), searches[l].chosen;
            && |chosen| == Min(M, |LiveOf(g, reach)|)
            && (id < locks ==> Links(g', id, l) == chosen)
            && forall x :: x in chosen && x < locks ==> Links(g', x, l) == ListWith(g, metric, x, id, l)
  {
    ChosenCount(g, inserted, id, d, entry, top, count, searches, l, reach);
    ConnectedOk(g, inserted, metric, locks, id, d, entry, top, count, searches);
    ListedAfter(g, ConnectAll(g, metric, locks, id, searches, 0), inserted, metric, locks, id, d, searches, l);
  }

  lemma ChosenCount(g: Graph, inserted: set<nat>, id: nat, d: nat -> real, entry: nat, top: nat, count: int,
                    searches: seq<LayerSearch>, l: nat, reach: set<nat>)
    requires SearchesOk(g, inserted, id, d, entry, top, count, searches)
    requires l < |searches| && IsReachable(g, l, Bound(searches[l].start, count), searches[l].start, reach)
    ensures |searches[l].chosen| == Min(M, |LiveOf(g, reach)|)
  {
    assert SearchOkAt(g, d, count, searches, l);
  }

  lemma ListedAfter(g: Graph, g': Graph, inserted: set<nat>, metric: Metric, locks: nat, id: nat, d: nat -> real,
                    searches: seq<LayerSearch>, l: nat)
    requires DoneAbove(g, g', metric, locks, id, searches, -1) && AllChosen(g, inserted, id, d, searches, -1) && l < |searches|
    ensures id < locks ==> Links(g', id, l) == searches[l].chosen
    ensures forall x :: x in searches[l].chosen && x < locks ==> Links(g', x, l) == ListWith(g, metric, x, id, l)
  {
    assert LayerDone(g, g', metric, locks, id, searches[l].chosen, l);
    assert ChosenOk(g, inserted, id, d, searches[l], l);
  }

  /** A node without a lock gets no links of its own. */
  lemma LocklessNodeIsMute(g: Graph, inserted: set<nat>, metric: Metric, locks: nat, id: nat, d: nat -> real,
                           entry: nat, top: nat, count: int, searches: seq<LayerSearch>)
    requires GraphOk(g, inserted) && JustWritten(g, inserted, id) && SearchesOk(g, inserted, id, d, entry, top, count, searches)
    requires id >= locks
    ensures Mute(ConnectAll(g, metric, locks, id, searches, 0), id)
  {
    var g' := ConnectAll(g, metric, locks, id, searches, 0);
    ConnectedOk(g, inserted, metric, locks, id, d, entry, top, count, searches);
    forall l: nat ensures Links(g', id, l) == [] {
      if l < |searches| { assert LayerDone(g, g', metric, locks, id, searches[l].chosen, l); }
      else { assert Untouched(g, g', l); }
    }
  }

  /** An id has no lock exactly if the file had room for it beyond the locks there are. */
  lemma LocklessExactly(id: nat, bytes: nat, locks: nat)
    ensures id >= LocksFor(id, bytes, locks) <==> id >= locks && Fits(id, bytes)
  {
  }

  /** When the file grows for an id beyond the locks, that id and the 9999 after it get one. */
  lemma GrowthLocksAhead(id: nat, bytes: nat, locks: nat, later: nat)
    requires !Fits(id, bytes) && id >= locks
    ensures later < LocksFor(id, bytes, locks) <==> later < id + 10000
    ensures BytesFor(id, bytes) == bytes + 10485760
  {
  }

  /** With such a node as the entry point a search finds nothing else, whatever the index holds. */
  lemma MuteEntryCutsSearch(g: Graph, d: nat -> real, entry: nat, top: int, count: int, start: nat, ef: nat,
                            visited: set<nat>, found: set<nat>, results: seq<nat>, cut: nat)
    requires Mute(g, entry) && BeginsWell(g, d, entry, top, 0, start)
    requires Searched(g, d, start, ef, 0, Bound(start, count), visited, found)
    requires GoodResults(g, Bound(start, count), start, ef, visited, found, results, cut, d)
    ensures results == [] || results == [entry]
  {
    var bound := Bound(start, count);
    assert Closed(g, 0, bound, {entry}) && IsReachable(g, 0, bound, entry, {entry});
    assert LiveOf(g, {entry}) <= {entry};
    SubsetSize(LiveOf(g, {entry}), {entry});
    assert visited <= {entry};
  }

  /** One insert of such a node above all others, and the index is gone for every search that follows. */
  method LocklessInsertHidesIndex(index: Index, id: nat, level: nat, vector: Vector, query: Vector, k: int) returns (results: seq<nat>)
    requires index.Valid() && id !in index.inserted && id < 0xFFFF_FFFF && index.top < level < MAX_LAYERS
    requires id >= index.locks && Fits(id, index.bytes)
    modifies index
    ensures index.Valid() && index.inserted == old(index.inserted) + {id} && (results == [] || results == [id])
  {
    ghost var g, inserted := index.nodes[id := FreshNode(level, vector)], index.inserted;
    FreshNodeOk(index.nodes, inserted, id, level, vector);
    LocklessExactly(id, index.bytes, index.locks);
    ghost var entry, top, count := index.entry, index.top, index.count;
    var searches := index.Insert(id, level, vector);
    if entry >= 0 {
      LocklessNodeIsMute(g, index.inserted, index.metric, index.locks, id, DistanceFrom(g, index.metric, id), entry, top, count, searches);
    }
    assert Mute(index.nodes, id) && index.entry == id;
    ghost var start, visited, found;
    var distances;
    results, distances, start, visited, found := index.Search(query, k);
    MuteEntryCutsSearch(index.nodes, DistanceToAll(index.nodes, index.metric, query), id, index.top, index.count, start,
                        Max(EF_SEARCH, k), visited, found, results, if k < 0 then Max(EF_SEARCH, k) else k);
  }

  // ---- Whole runs ----

  datatype Op = InsertOp(id: nat, level: nat, vector: Vector) | DeleteOp(id: nat)

  /** The ids inserted by the first n operations. */
  function InsertedBy(ops: seq<Op>, n: nat): set<nat>
    requires n <= |ops|
  {
    if n == 0 then {}
    else InsertedBy(ops, n - 1) + (if ops[n - 1].InsertOp? then {ops[n - 1].id} else {})
  }

  /** The size of the file after the first n operations, which grows each time an insert does not fit. */
  function BytesAfter(ops: seq<Op>, n: nat, bytes: nat): nat
    requires n <= |ops|
  {
    if n == 0 then bytes
    else
      var before := BytesAfter(ops, n - 1, bytes);
      if ops[n - 1].InsertOp? then BytesFor(ops[n - 1].id, before) else before
  }

  /** An insert uses a fresh id that fits the file after growing once, and a level that the arrays hold; a
      delete names an inserted id or one outside the file. */
  predicate OpFits(op: Op, inserted: set<nat>, bytes: nat) {
    if op.DeleteOp? then op.id in inserted || !Fits(op.id, bytes)
    else op.id !in inserted && op.id < 0xFFFF_FFFF && op.level < MAX_LAYERS && Fits(op.id, bytes + GROWTH)
  }

  /** Every operation fits when its turn comes. */
  ghost predicate Fresh(ops: seq<Op>, bytes: nat) {
    forall n :: 0 <= n < |ops| ==> OpFits(ops[n], InsertedBy(ops, n), BytesAfter(ops, n, bytes))
  }

  /** After any sequence of fresh inserts and deletes the graph invariant holds, the entry point is on the
      top layer and the element count is the number of live nodes. */
  method RunOps(index: Index, ops: seq<Op>, n: nat, ghost bytes: nat)
    requires n <= |ops| && Fresh(ops, bytes)
    requires index.Valid() && index.Counted() && index.inserted == InsertedBy(ops, n) && index.bytes == BytesAfter(ops, n, bytes)
    modifies index
    ensures index.Valid() && index.Counted() && index.inserted == InsertedBy(ops, |ops|)
    ensures index.bytes == BytesAfter(ops, |ops|, bytes)
    decreases |ops| - n
  {
    if n < |ops| {
      assert OpFits(ops[n], InsertedBy(ops, n), BytesAfter(ops, n, bytes));
      RunOp(index, ops[n]);
      RunOps(index, ops, n + 1, bytes);
    }
  }

  method RunOp(index: Index, op: Op)
    requires index.Valid() && index.Counted() && OpFits(op, index.inserted, index.bytes)
    modifies index
    ensures index.Valid() && index.Counted()
    ensures index.bytes == if op.InsertOp? then BytesFor(op.id, old(index.bytes)) else old(index.bytes)
    ensures index.inserted == old(index.inserted) + (if op.InsertOp? then {op.id} else {})
  {
    match op
    case InsertOp(id, level, vector) =>
      var searches := index.Insert(id, level, vector);
    case DeleteOp(id) => index.DeleteVector(id);
  }
}
