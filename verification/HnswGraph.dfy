/** Links between the nodes of the HNSW graph (include/index/hnsw.hpp:135-150, 351-381). */
module HnswGraph {
  import opened HnswSearch

  type Metric = (Vector, Vector) -> real

  function Capacity(layer: nat): nat {
    if layer == 0 then M_MAX0 else M
  }

  function Distance(g: Graph, metric: Metric, a: nat, b: nat): real {
    if a in g && b in g then metric(g[a].vector, g[b].vector) else 0.0
  }

  function WithList(g: Graph, x: nat, layer: nat, list: seq<nat>): Graph
    requires x in g && layer < |g[x].links|
  {
    g[x := g[x].(links := g[x].links[layer := list])]
  }

  // ---- add_link ----

  /** The scan for the farthest neighbour after `upTo` entries of the list: its distance and its index.
      It starts from -1.0 and no index, so entries at distance -1.0 or less are never taken. */
  function Scan(list: seq<nat>, dist: nat -> real, upTo: nat): (real, int)
    requires upTo <= |list|
  {
    if upTo == 0 then (-1.0, -1)
    else
      var (most, at) := Scan(list, dist, upTo - 1);
      if dist(list[upTo - 1]) > most then (dist(list[upTo - 1]), upTo - 1) else (most, at)
  }

  /** The list of src after add_link(src, dest). */
  function AfterAdd(list: seq<nat>, dest: nat, dist: nat -> real, capacity: nat): seq<nat> {
    if |list| < capacity then list + [dest]
    else
      var (most, at) := Scan(list, dist, |list|);
      if dist(dest) < most && 0 <= at < |list| then list[at := dest] else list
  }

  /** add_link: nothing happens for a node that has no lock. */
  function Link(g: Graph, metric: Metric, locks: nat, src: nat, dest: nat, layer: nat): Graph {
    if src >= locks || src !in g || layer >= |g[src].links| then g
    else WithList(g, src, layer,
                  AfterAdd(g[src].links[layer], dest, (y: nat) => Distance(g, metric, src, y), Capacity(layer)))
  }

  lemma {:induction false} ScanIsFarthest(list: seq<nat>, dist: nat -> real, upTo: nat)
    requires upTo <= |list|
    ensures var (most, at) := Scan(list, dist, upTo);
            && -1 <= at < upTo
            && (at >= 0 ==> most == dist(list[at]) > -1.0 && forall k :: 0 <= k < at ==> dist(list[k]) < most)
            && (at == -1 ==> most == -1.0)
            && forall k :: 0 <= k < upTo ==> dist(list[k]) <= most
  {
    if upTo == 0 {
    } else {
      ScanIsFarthest(list, dist, upTo - 1);
    }
  }

  /** A full list gives up an entry exactly when the newcomer is nearer than the farthest entry and that
      one is farther than -1.0; it gives up the first of the farthest. */
  lemma FullListReplacesFarthest(list: seq<nat>, dest: nat, dist: nat -> real, capacity: nat, far: nat)
    requires |list| >= capacity && far < |list| && dest !in list
    requires forall k :: 0 <= k < |list| ==> dist(list[k]) <= dist(list[far])
    requires forall k :: 0 <= k < far ==> dist(list[k]) < dist(list[far])
    ensures AfterAdd(list, dest, dist, capacity) ==
            if dist(dest) < dist(list[far]) && dist(list[far]) > -1.0 then list[far := dest] else list
  {
    ScanIsFarthest(list, dist, |list|);
  }

  /** add_link in terms of the metric: a node keeps up to 32 links in layer 0 and 16 above. A list with room takes
      the newcomer at its end; a full one gives up its first farthest entry `far` exactly if the newcomer is
      nearer to the node and that entry is farther than -1. */
  lemma LinkByMetric(g: Graph, metric: Metric, locks: nat, src: nat, dest: nat, layer: nat, far: nat)
    requires src in g && dest in g && layer < |g[src].links| && src < locks
    requires forall y :: y in g[src].links[layer] ==> y in g && y != dest
    ensures var list, list' := g[src].links[layer], Links(Link(g, metric, locks, src, dest, layer), src, layer);
            && (|list| < (if layer == 0 then 32 else 16) ==> list' == list + [dest])
            && (|list| >= (if layer == 0 then 32 else 16) && IsFirstFarthest(g, metric, src, list, far) ==>
                  var ds := metric(g[src].vector, g[list[far]].vector);
                  list' == if metric(g[src].vector, g[dest].vector) < ds && ds > -1.0 then list[far := dest] else list)
  {
    var list := g[src].links[layer];
    var dist := (y: nat) => Distance(g, metric, src, y);
    if |list| >= Capacity(layer) && IsFirstFarthest(g, metric, src, list, far) {
      FullListReplacesFarthest(list, dest, dist, Capacity(layer), far);
    }
  }

  /** The entry is farthest from the node, and the first such. */
  ghost predicate IsFirstFarthest(g: Graph, metric: Metric, src: nat, list: seq<nat>, far: nat) {
    && src in g && far < |list| && (forall y :: y in list ==> y in g)
    && (forall k :: 0 <= k < |list| ==> metric(g[src].vector, g[list[k]].vector) <= metric(g[src].vector, g[list[far]].vector))
    && forall k :: 0 <= k < far ==> metric(g[src].vector, g[list[k]].vector) < metric(g[src].vector, g[list[far]].vector)
  }

  // ---- The invariant of the graph ----

  /** A link of x in a layer: to another inserted node that is on the layer. */
  ghost predicate LinkOk(g: Graph, inserted: set<nat>, x: nat, layer: nat, y: nat) {
    y in inserted && y in g && y != x && g[y].level >= layer
  }

  ghost predicate ListOk(g: Graph, inserted: set<nat>, x: nat, layer: nat)
    requires x in g && layer < |g[x].links|
  {
    && |g[x].links[layer]| <= Capacity(layer)
    && (layer > g[x].level ==> g[x].links[layer] == [])
    && forall i :: 0 <= i < |g[x].links[layer]| ==> LinkOk(g, inserted, x, layer, g[x].links[layer][i])
  }

  ghost predicate NodeOk(g: Graph, inserted: set<nat>, x: nat)
    requires x in g
  {
    && |g[x].links| == MAX_LAYERS
    && (x in inserted ==> g[x].level < MAX_LAYERS)
    && forall l :: 0 <= l < MAX_LAYERS ==> if x in inserted then ListOk(g, inserted, x, l) else g[x].links[l] == []
  }

  /** Every layer-l link points to another inserted node whose top layer is at least l, and degrees keep
      within 32 in layer 0 and 16 above. */
  ghost predicate GraphOk(g: Graph, inserted: set<nat>) {
    inserted <= g.Keys && forall x :: x in g ==> NodeOk(g, inserted, x)
  }

  lemma GraphIsWellLinked(g: Graph, inserted: set<nat>)
    requires GraphOk(g, inserted)
    ensures WellLinked(g)
  {
  }

  /** All but the links is the same. */
  ghost predicate SameNodes(g: Graph, g': Graph) {
    g'.Keys == g.Keys && forall x :: x in g ==> g'[x] == g[x].(links := g'[x].links)
  }

  lemma LinkFrame(g: Graph, metric: Metric, locks: nat, src: nat, dest: nat, layer: nat)
    requires src in g && layer < |g[src].links|
    ensures var g' := Link(g, metric, locks, src, dest, layer);
            && SameNodes(g, g') && |g'[src].links| == |g[src].links|
            && (forall x :: x in g && x != src ==> g'[x] == g[x])
            && (forall l :: 0 <= l < |g[src].links| && l != layer ==> g'[src].links[l] == g[src].links[l])
  {
  }

  lemma LinkKeepsOk(g: Graph, inserted: set<nat>, metric: Metric, locks: nat, src: nat, dest: nat, layer: nat)
    requires GraphOk(g, inserted) && src in inserted && src != dest && layer < MAX_LAYERS && layer <= g[src].level
    requires LinkOk(g, inserted, src, layer, dest)
    requires |g[src].links| == MAX_LAYERS
    ensures GraphOk(Link(g, metric, locks, src, dest, layer), inserted)
  {
  }

  // ---- Connecting a new node ----

  /** The new node `id` and the selected neighbours are linked both ways, one neighbour after the other. */
  function Connect(g: Graph, metric: Metric, locks: nat, id: nat, selected: seq<nat>, layer: nat): Graph {
    if selected == [] then g
    else
      var n := selected[|selected| - 1];
      var before := Connect(g, metric, locks, id, selected[..|selected| - 1], layer);
      Link(Link(before, metric, locks, id, n, layer), metric, locks, n, id, layer)
  }

  ghost predicate Distinct(s: seq<nat>) {
    forall i, j :: 0 <= i < j < |s| ==> s[i] != s[j]
  }

  /** The neighbours are other inserted nodes on the layer. */
  ghost predicate Selectable(g: Graph, inserted: set<nat>, id: nat, selected: seq<nat>, layer: nat) {
    && id in inserted && id in g && g[id].level >= layer && layer < MAX_LAYERS && |selected| <= M && Distinct(selected)
    && forall i :: 0 <= i < |selected| ==> LinkOk(g, inserted, id, layer, selected[i])
  }

  lemma SameLevels(g: Graph, g': Graph, inserted: set<nat>, x: nat, layer: nat, y: nat)
    requires SameNodes(g, g') && LinkOk(g, inserted, x, layer, y)
    ensures LinkOk(g', inserted, x, layer, y)
  {
  }

  lemma SameNodesTransitive(a: Graph, b: Graph, c: Graph)
    requires SameNodes(a, b) && SameNodes(b, c)
    ensures SameNodes(a, c)
  {
  }

  /** Both links of one neighbour keep the invariant. */
  lemma BothLinksKeepOk(g: Graph, inserted: set<nat>, metric: Metric, locks: nat, id: nat, n: nat, layer: nat)
    requires GraphOk(g, inserted) && id in inserted && layer < MAX_LAYERS && layer <= g[id].level
    requires LinkOk(g, inserted, id, layer, n)
    ensures var g' := Link(Link(g, metric, locks, id, n, layer), metric, locks, n, id, layer);
            GraphOk(g', inserted) && SameNodes(g, g')
  {
    assert NodeOk(g, inserted, id);
    LinkFrame(g, metric, locks, id, n, layer);
    LinkKeepsOk(g, inserted, metric, locks, id, n, layer);
    var h := Link(g, metric, locks, id, n, layer);
    assert NodeOk(h, inserted, n) && h[n].level == g[n].level && h[id].level == g[id].level;
    LinkFrame(h, metric, locks, n, id, layer);
    LinkKeepsOk(h, inserted, metric, locks, n, id, layer);
  }

  lemma {:induction false} ConnectKeepsOk(g: Graph, inserted: set<nat>, metric: Metric, locks: nat, id: nat, selected: seq<nat>, layer: nat)
    requires GraphOk(g, inserted) && Selectable(g, inserted, id, selected, layer)
    ensures var g' := Connect(g, metric, locks, id, selected, layer); GraphOk(g', inserted) && SameNodes(g, g')
  {
    if selected == [] {
    } else {
      var front, n := selected[..|selected| - 1], selected[|selected| - 1];
      ConnectKeepsOk(g, inserted, metric, locks, id, front, layer);
      var before := Connect(g, metric, locks, id, front, layer);
      SameLevels(g, before, inserted, id, layer, n);
      BothLinksKeepOk(before, inserted, metric, locks, id, n, layer);
      SameNodesTransitive(g, before, Connect(g, metric, locks, id, selected, layer));
    }
  }

  // ---- What connecting does to each list ----

  lemma {:induction false} ScanSame(list: seq<nat>, f: nat -> real, f': nat -> real, upTo: nat)
    requires upTo <= |list| && forall y :: f(y) == f'(y)
    ensures Scan(list, f, upTo) == Scan(list, f', upTo)
  {
    if upTo == 0 {
    } else {
      ScanSame(list, f, f', upTo - 1);
    }
  }

  lemma DistanceSame(g: Graph, g': Graph, metric: Metric, src: nat, list: seq<nat>, dest: nat, capacity: nat)
    requires SameNodes(g, g')
    ensures AfterAdd(list, dest, (y: nat) => Distance(g, metric, src, y), capacity) ==
            AfterAdd(list, dest, (y: nat) => Distance(g', metric, src, y), capacity)
  {
    assert forall y: nat :: Distance(g, metric, src, y) == Distance(g', metric, src, y);
    ScanSame(list, (y: nat) => Distance(g, metric, src, y), (y: nat) => Distance(g', metric, src, y), |list|);
  }

  /** The list of x after a new node `id` was linked to it. */
  function ListWith(g: Graph, metric: Metric, x: nat, id: nat, layer: nat): seq<nat> {
    AfterAdd(Links(g, x, layer), id, (y: nat) => Distance(g, metric, x, y), Capacity(layer))
  }

  /** Connecting changes only the layer's lists: the new node lists the selected neighbours, and of the
      others exactly the selected ones (that have a lock) had the new node added. */
  ghost predicate Connected(g: Graph, g': Graph, metric: Metric, locks: nat, id: nat, selected: seq<nat>, layer: nat) {
    && SameNodes(g, g')
    && (forall x, l :: x in g && l != layer ==> Links(g', x, l) == Links(g, x, l))
    && Links(g', id, layer) == (if id < locks then Links(g, id, layer) + selected else Links(g, id, layer))
    && forall x :: x in g && x != id ==>
         Links(g', x, layer) == if x in selected && x < locks then ListWith(g, metric, x, id, layer) else Links(g, x, layer)
  }

  lemma LinkLists(g: Graph, metric: Metric, locks: nat, src: nat, dest: nat, layer: nat)
    requires src in g && layer < |g[src].links|
    ensures var g' := Link(g, metric, locks, src, dest, layer);
            && SameNodes(g, g')
            && (forall x, l :: x in g && (x != src || l != layer) ==> Links(g', x, l) == Links(g, x, l))
            && Links(g', src, layer) == (if src < locks then ListWith(g, metric, src, dest, layer) else Links(g, src, layer))
  {
  }

  /** The two links of one more neighbour n, list by list. */
  lemma BothLinksLists(h: Graph, metric: Metric, locks: nat, id: nat, n: nat, layer: nat)
    requires id in h && n in h && n != id && layer < |h[id].links| && layer < |h[n].links|
    requires |Links(h, id, layer)| < Capacity(layer)
    ensures var h' := Link(Link(h, metric, locks, id, n, layer), metric, locks, n, id, layer);
            && SameNodes(h, h')
            && (forall x, l :: x in h && (l != layer || (x != id && x != n)) ==> Links(h', x, l) == Links(h, x, l))
            && Links(h', id, layer) == (if id < locks then Links(h, id, layer) + [n] else Links(h, id, layer))
            && Links(h', n, layer) == (if n < locks then ListWith(h, metric, n, id, layer) else Links(h, n, layer))
  {
    var h1 := Link(h, metric, locks, id, n, layer);
    LinkLists(h, metric, locks, id, n, layer);
    LinkLists(h1, metric, locks, n, id, layer);
    SameNodesTransitive(h, h1, Link(h1, metric, locks, n, id, layer));
    DistanceSame(h, h1, metric, n, Links(h, n, layer), id, Capacity(layer));
  }

  lemma ConnectOneMore(g: Graph, h: Graph, h': Graph, metric: Metric, locks: nat, id: nat, front: seq<nat>, n: nat, layer: nat)
    requires Connected(g, h, metric, locks, id, front, layer) && id in g && n in g && n != id && n !in front
    requires SameNodes(h, h')
    requires forall x, l :: x in h && (l != layer || (x != id && x != n)) ==> Links(h', x, l) == Links(h, x, l)
    requires Links(h', id, layer) == (if id < locks then Links(h, id, layer) + [n] else Links(h, id, layer))
    requires Links(h', n, layer) == (if n < locks then ListWith(h, metric, n, id, layer) else Links(h, n, layer))
    ensures Connected(g, h', metric, locks, id, front + [n], layer)
  {
    SameNodesTransitive(g, h, h');
    DistanceSame(g, h, metric, n, Links(g, n, layer), id, Capacity(layer));
    assert Links(g, id, layer) + front + [n] == Links(g, id, layer) + (front + [n]);
  }

  lemma ConnectNone(g: Graph, metric: Metric, locks: nat, id: nat, layer: nat)
    ensures Connected(g, g, metric, locks, id, [], layer)
  {
  }

  lemma ConnectedIsRoomy(g: Graph, h: Graph, inserted: set<nat>, metric: Metric, locks: nat, id: nat, front: seq<nat>, n: nat, layer: nat)
    requires Connected(g, h, metric, locks, id, front, layer) && Links(g, id, layer) == [] && |front| < M && layer < MAX_LAYERS
    requires GraphOk(h, inserted) && id in h && n in h
    ensures layer < |h[id].links| && layer < |h[n].links| && |Links(h, id, layer)| < Capacity(layer)
  {
  }

  lemma ConnectStep(g: Graph, h: Graph, inserted: set<nat>, metric: Metric, locks: nat, id: nat, front: seq<nat>, n: nat, layer: nat)
    requires Connected(g, h, metric, locks, id, front, layer) && Links(g, id, layer) == [] && |front| < M && layer < MAX_LAYERS
    requires GraphOk(h, inserted) && id in g && n in g && n != id && n !in front
    ensures Connected(g, Link(Link(h, metric, locks, id, n, layer), metric, locks, n, id, layer),
                      metric, locks, id, front + [n], layer)
  {
    var h' := Link(Link(h, metric, locks, id, n, layer), metric, locks, n, id, layer);
    assert h.Keys == g.Keys;
    ConnectedIsRoomy(g, h, inserted, metric, locks, id, front, n, layer);
    BothLinksLists(h, metric, locks, id, n, layer);
    ConnectOneMore(g, h, h', metric, locks, id, front, n, layer);
  }

  lemma SelectableFront(g: Graph, inserted: set<nat>, id: nat, selected: seq<nat>, layer: nat)
    requires Selectable(g, inserted, id, selected, layer) && selected != []
    ensures var front, n := selected[..|selected| - 1], selected[|selected| - 1];
            && Selectable(g, inserted, id, front, layer) && front + [n] == selected && n !in front
            && LinkOk(g, inserted, id, layer, n)
  {
  }

  lemma {:induction false} ConnectLists(g: Graph, inserted: set<nat>, metric: Metric, locks: nat, id: nat, selected: seq<nat>, layer: nat)
    requires GraphOk(g, inserted) && Selectable(g, inserted, id, selected, layer) && Links(g, id, layer) == []
    ensures Connected(g, Connect(g, metric, locks, id, selected, layer), metric, locks, id, selected, layer)
  {
    if selected == [] {
      ConnectNone(g, metric, locks, id, layer);
    } else {
      var front, n := selected[..|selected| - 1], selected[|selected| - 1];
      SelectableFront(g, inserted, id, selected, layer);
      ConnectLists(g, inserted, metric, locks, id, front, layer);
      ConnectKeepsOk(g, inserted, metric, locks, id, front, layer);
      ConnectStep(g, Connect(g, metric, locks, id, front, layer), inserted, metric, locks, id, front, n, layer);
    }
  }
}
