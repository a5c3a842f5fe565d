/**
 * The controller's network state: the staging graph that database callbacks edit, and the
 * published graph, with its indexes and cache, that path computations read.
 */
module NetState {
  import opened Basics
  import opened ShortestPaths
  import opened Graphs
  import opened Dijkstra
  import opened PathEngine
  import opened Flows

  // A metric of zero stands for a link that is down.
  function Usable(metric: u32): u32 {
    if metric == 0 then INFINITE else metric
  }

  // The columns a link update touches, with their new values.
  datatype LinkChange = LinkChange(metric: Option<u32>, bw: Option<u32>, avaBw: Option<u32>, delay: Option<u32>)

  function Or<T>(x: Option<T>, y: T): T {
    if x.Some? then x.value else y
  }

  // What an update makes of the edge of the link's first address pair.
  function Forward(e: Edge, c: LinkChange): Edge {
    e.(metric := if c.metric.Some? then Usable(c.metric.value) else e.metric,
       bw := Or(c.bw, e.bw), avaBw := Or(c.avaBw, e.avaBw), delay := Or(c.delay, e.delay))
  }

  // And of the edge of the opposite direction: only the metric follows.
  function Backward(e: Edge, c: LinkChange): Edge {
    e.(metric := if c.metric.Some? then Usable(c.metric.value) else e.metric)
  }

  predicate Symmetric(e: Edge, f: Edge) {
    e.metric == f.metric && e.bw == f.bw && e.avaBw == f.avaBw && e.delay == f.delay
  }

  // The two directions of a link are there and have the same properties.
  predicate Alike(edges: seq<Edge>, addr1: nat, addr2: nat) {
    && First(edges, addr1, addr2) < |edges| && First(edges, addr2, addr1) < |edges|
    && Symmetric(edges[First(edges, addr1, addr2)], edges[First(edges, addr2, addr1)])
  }

  // The change leaves everything of the edge but its metric as it is.
  predicate MetricOnly(e: Edge, c: LinkChange) {
    Or(c.bw, e.bw) == e.bw && Or(c.avaBw, e.avaBw) == e.avaBw && Or(c.delay, e.delay) == e.delay
  }

  // An update keeps the two directions of a link alike if and only if it leaves bandwidth and
  // delay as they are, or both directions are one.
  lemma UpdateKeepsSymmetry(edges: seq<Edge>, addr1: nat, addr2: nat, c: LinkChange)
    requires Alike(edges, addr1, addr2)
    ensures var k1, k2 := First(edges, addr1, addr2), First(edges, addr2, addr1);
      Alike(Changed(edges, k1, k2, c), addr1, addr2) <==> addr1 == addr2 || MetricOnly(edges[k1], c)
  {
    var k1, k2 := First(edges, addr1, addr2), First(edges, addr2, addr1);
    var edges' := Changed(edges, k1, k2, c);
    FirstMatches(edges, addr1, addr2);
    FirstMatches(edges, addr2, addr1);
    ChangedFirst(edges, k1, k2, c, addr1, addr2);
    ChangedFirst(edges, k1, k2, c, addr2, addr1);
  }

  // A change leaves the addresses, and with them the positions, as they are.
  lemma ChangedFirst(edges: seq<Edge>, k1: nat, k2: nat, c: LinkChange, from: nat, to: nat)
    requires k1 < |edges| && k2 < |edges|
    ensures First(Changed(edges, k1, k2, c), from, to) == First(edges, from, to)
  {
    FirstMatches(edges, from, to);
    var edges', k := Changed(edges, k1, k2, c), First(edges, from, to);
    hide First;
    assert forall i | 0 <= i < |edges| :: edges'[i].from == edges[i].from && edges'[i].to == edges[i].to;
    IsFirst(edges', from, to, k);
  }

  // Edges are numbered in the order they were added.
  ghost predicate Numbered(edges: seq<Edge>, last: nat) {
    && (forall i, j | 0 <= i < j < |edges| :: edges[i].id < edges[j].id)
    && (forall i | 0 <= i < |edges| :: edges[i].id <= last)
  }

  predicate Runs(e: Edge, from: nat, to: nat) {
    e.from == from && e.to == to
  }

  // One edge for each pair of addresses, two if the addresses are the same.
  ghost predicate AddressesOk(edges: seq<Edge>) {
    && (forall i, j | 0 <= i < j < |edges| && Runs(edges[j], edges[i].from, edges[i].to) :: edges[i].from == edges[i].to)
    && (forall i, j, k | 0 <= i < j < k < |edges| :: !(Runs(edges[j], edges[i].from, edges[i].to) && Runs(edges[k], edges[i].from, edges[i].to)))
  }

  // The metric of a link as it is entered into the graph: one of zero is never usable.
  predicate MetricIs(e: Edge, metric: u32) {
    if metric == 0 then e.metric == INFINITE else e.metric == metric
  }

  lemma NumberedIsUnique(edges: seq<Edge>, last: nat)
    requires Numbered(edges, last)
    ensures UniqueIds(edges)
  {
  }

  class NetState {
    var staging: Graph
    var graph: Graph
    var routers: map<string, Node>

    // The staging graph is a topology whose routers are all there.
    ghost predicate StagingOk()
      reads this, staging
    {
      && Topology(staging.nodes, staging.edges)
      && (forall n | n in staging.nodes :: n <= staging.lastNode)
      && Numbered(staging.edges, staging.lastEdge) && AddressesOk(staging.edges)
      && forall r | r in routers :: routers[r] in staging.nodes
    }

    // The published graph's indexes and cache agree with its nodes and edges.
    ghost predicate PublishedOk()
      reads this, graph
    {
      graph.Finalized() && graph.CacheExact() && UniqueIds(graph.edges)
    }

    // An unmarked staging graph has been published as it is.
    ghost predicate InStep()
      reads this, graph, staging
    {
      staging.dirty || (graph.nodes == staging.nodes && graph.edges == staging.edges)
    }

    ghost predicate Valid()
      reads this, graph, staging
    {
      staging != graph && StagingOk() && PublishedOk() && InStep()
    }

    constructor ()
      ensures Valid() && fresh(staging) && fresh(graph)
      ensures routers == map[] && graph.nodes == [] && graph.edges == []
    {
      staging := new Graph();
      graph := new Graph();
      routers := map[];
    }

    // A new router: a node of its own in the staging graph.
    method NodeRead(name: string) returns (ok: bool)
      requires Valid()
      modifies this`routers, staging
      ensures Valid() && ok == (name !in old(routers)) && staging.edges == old(staging.edges)
      ensures !ok ==> routers == old(routers) && staging.nodes == old(staging.nodes)
      ensures ok ==> name in routers && routers == old(routers)[name := routers[name]]
      ensures ok ==> staging.nodes == old(staging.nodes) + [routers[name]] && routers[name] !in old(staging.nodes)
    {
      hide Topology, Consistent, ViewOf, ExactCache, Numbered, UniqueIds, AddressesOk;
      if name in routers {
        return false;
      }
      GrownTopology(staging.nodes, staging.edges, staging.lastNode + 1);
      staging.dirty := true;
      var n := staging.AddNode();
      routers := routers[name := n];
      ok := true;
    }

    // A new link: one edge for each direction, unless either is known or a router is not.
    method LinkRead(name1: string, name2: string, addr1: nat, addr2: nat, metric: u32, bw: u32, avaBw: u32, delay: u32) returns (ok: bool)
      requires Valid()
      modifies staging`edges, staging`lastEdge, staging`dirty
      ensures Valid()
      ensures ok <==> name1 in routers && name2 in routers
                      && forall e | e in old(staging.edges) :: (e.from, e.to) != (addr1, addr2) && (e.from, e.to) != (addr2, addr1)
      ensures !ok ==> staging.edges == old(staging.edges) && staging.dirty == old(staging.dirty)
      ensures ok ==> staging.edges == old(staging.edges)
                       + LinkEdges(old(staging.lastEdge), routers[name1], routers[name2], metric, bw, avaBw, delay, addr1, addr2)
      ensures ok ==> Alike(staging.edges, addr1, addr2) && |staging.edges| == |old(staging.edges)| + 2
                     && forall i | |old(staging.edges)| <= i < |staging.edges| :: MetricIs(staging.edges[i], metric)
    {
      hide Topology, Consistent, ViewOf, ExactCache, Numbered, UniqueIds, AddressesOk, Alike;
      if name1 !in routers || name2 !in routers {
        return false;
      }
      var k := staging.FindEdge(addr1, addr2);
      if k < |staging.edges| {
        assert staging.edges[k] in staging.edges;
        return false;
      }
      k := staging.FindEdge(addr2, addr1);
      if k < |staging.edges| {
        assert staging.edges[k] in staging.edges;
        return false;
      }
      AddedAddresses(staging.edges, staging.lastEdge, routers[name1], routers[name2], metric, bw, avaBw, delay, addr1, addr2);
      AddedTopology(staging.nodes, staging.edges, staging.lastEdge, LinkEdges(staging.lastEdge, routers[name1], routers[name2], metric, bw, avaBw, delay, addr1, addr2));
      AddLink(staging, routers[name1], routers[name2], Usable(metric), bw, avaBw, delay, addr1, addr2);
      ok := true;
    }

    // A changed link: both directions must be known.
    method LinkUpdate(addr1: nat, addr2: nat, change: LinkChange) returns (ok: bool)
      requires Valid()
      modifies staging`edges, staging`dirty
      ensures Valid()
      ensures var edges := old(staging.edges);
        && (ok <==> First(edges, addr1, addr2) < |edges| && First(edges, addr2, addr1) < |edges|)
        && staging.edges == (if ok then Changed(edges, First(edges, addr1, addr2), First(edges, addr2, addr1), change) else edges)
      ensures !ok ==> staging.dirty == old(staging.dirty)
      ensures ok ==> LinkChanged(old(staging.edges), staging.edges, First(old(staging.edges), addr1, addr2), First(old(staging.edges), addr2, addr1), change)
      ensures Alike(old(staging.edges), addr1, addr2) ==>
                (Alike(staging.edges, addr1, addr2) <==>
                 addr1 == addr2 || MetricOnly(old(staging.edges)[First(old(staging.edges), addr1, addr2)], change))
    {
      hide Topology, Consistent, ViewOf, ExactCache, Numbered, UniqueIds, Symmetric, MetricOnly, AddressesOk, LinkChanged;
      if Alike(staging.edges, addr1, addr2) { UpdateKeepsSymmetry(staging.edges, addr1, addr2, change); }
      var k1 := staging.FindEdge(addr1, addr2);
      IsFirst(staging.edges, addr1, addr2, k1);
      if k1 == |staging.edges| {
        return false;
      }
      var k2 := staging.FindEdge(addr2, addr1);
      IsFirst(staging.edges, addr2, addr1, k2);
      if k2 == |staging.edges| {
        return false;
      }
      ChangedTopology(staging.nodes, staging.edges, k1, k2, change);
      ChangedAddresses(staging.edges, k1, k2, change);
      ChangedFacts(staging.edges, k1, k2, change);
      ChangeEdges(staging, k1, k2, change);
      staging.dirty := true;
      ok := true;
    }

    // A link that is gone: whichever of its directions are known.
    method LinkDelete(addr1: nat, addr2: nat)
      requires Valid()
      modifies staging`edges, staging`dirty
      ensures Valid() && staging.dirty
      ensures staging.edges == Cut(Cut(old(staging.edges), addr1, addr2), addr2, addr1)
      ensures forall e :: e in staging.edges <==> e in old(staging.edges) && !Runs(e, addr1, addr2) && !Runs(e, addr2, addr1)
    {
      hide Topology, Consistent, ViewOf, ExactCache, Numbered, UniqueIds, Cut, AddressesOk;
      CutAddresses(staging.edges, addr1, addr2);
      CutAddresses(Cut(staging.edges, addr1, addr2), addr2, addr1);
      DeletedFacts(staging.edges, staging.lastEdge, addr1, addr2);
      CutTopology(staging.nodes, staging.edges, addr1, addr2);
      CutTopology(staging.nodes, Cut(staging.edges, addr1, addr2), addr2, addr1);
      CutEdge(staging, addr1, addr2);
      CutEdge(staging, addr2, addr1);
      staging.dirty := true;
    }

    // Publishes the staging graph if it is marked.
    method GraphSync()
      requires Valid()
      modifies this`graph, staging`dirty
      ensures Valid() && !staging.dirty
      ensures graph.nodes == staging.nodes && graph.edges == staging.edges
      ensures if old(staging.dirty) then fresh(graph) else graph == old(graph)
    {
      hide Topology, Consistent, ViewOf, ExactCache, AddressesOk, Numbered, UniqueIds;
      NumberedIsUnique(staging.edges, staging.lastEdge);
      if !staging.dirty {
        return;
      }
      var g := staging.DeepCopy();
      g.Finalize();
      g.BuildCache();
      graph := g;
      staging.dirty := false;
    }
  }

  // The position of the first edge between the two addresses, or past the end.
  function First(edges: seq<Edge>, from: nat, to: nat): (k: nat)
    ensures k <= |edges|
  {
    if edges == [] || (edges[0].from == from && edges[0].to == to) then 0 else 1 + First(edges[1..], from, to)
  }

  lemma {:induction false} FirstMatches(edges: seq<Edge>, from: nat, to: nat)
    ensures var k := First(edges, from, to);
      && (k < |edges| ==> edges[k].from == from && edges[k].to == to)
      && forall i | 0 <= i < k :: !(edges[i].from == from && edges[i].to == to)
    decreases edges
  {
    if edges != [] && !(edges[0].from == from && edges[0].to == to) {
      FirstMatches(edges[1..], from, to);
      var k := First(edges[1..], from, to);
      assert forall i | 0 < i <= k && i < |edges| :: edges[i] == edges[1..][i - 1];
    }
  }

  lemma {:induction false} IsFirst(edges: seq<Edge>, from: nat, to: nat, k: nat)
    requires k <= |edges| && (k < |edges| ==> edges[k].from == from && edges[k].to == to)
    requires forall i | 0 <= i < k :: !(edges[i].from == from && edges[i].to == to)
    ensures First(edges, from, to) == k
    decreases k
  {
    if k > 0 {
      IsFirst(edges[1..], from, to, k - 1);
    }
  }

  function Changed(edges: seq<Edge>, k1: nat, k2: nat, c: LinkChange): seq<Edge>
    requires k1 < |edges| && k2 < |edges|
  {
    var edges1 := edges[k1 := Forward(edges[k1], c)];
    edges1[k2 := Backward(edges1[k2], c)]
  }

  function Cut(edges: seq<Edge>, from: nat, to: nat): seq<Edge> {
    var k := First(edges, from, to);
    if k < |edges| then edges[..k] + edges[k + 1..] else edges
  }

  // The two edges of a link: opposite ends and addresses, the same properties.
  function LinkEdges(last: nat, a: Node, b: Node, metric: u32, bw: u32, avaBw: u32, delay: u32, addr1: nat, addr2: nat): seq<Edge> {
    [Edge(last + 1, a, b, Usable(metric), bw, avaBw, delay, addr1, addr2),
     Edge(last + 2, b, a, Usable(metric), bw, avaBw, delay, addr2, addr1)]
  }

  method AddLink(g: Graph, a: Node, b: Node, metric: u32, bw: u32, avaBw: u32, delay: u32, addr1: nat, addr2: nat)
    modifies g`edges, g`lastEdge, g`dirty
    ensures g.edges == old(g.edges) + [Edge(old(g.lastEdge) + 1, a, b, metric, bw, avaBw, delay, addr1, addr2),
                                       Edge(old(g.lastEdge) + 2, b, a, metric, bw, avaBw, delay, addr2, addr1)]
    ensures g.lastEdge == old(g.lastEdge) + 2 && g.dirty
  {
    g.dirty := true;
    g.AddEdge(a, b, metric, false, bw, avaBw, delay, addr1, addr2);
    g.AddEdge(b, a, metric, false, bw, avaBw, delay, addr2, addr1);
  }

  lemma AddedTopology(nodes: seq<Node>, edges: seq<Edge>, last: nat, more: seq<Edge>)
    requires Topology(nodes, edges) && Numbered(edges, last) && |more| == 2 && more[0].id == last + 1 && more[1].id == last + 2
    requires forall i | 0 <= i < 2 :: more[i].local in nodes && more[i].remote in nodes && more[i].metric > 0
    ensures Topology(nodes, edges + more) && Numbered(edges + more, last + 2)
  {
  }

  // Writes a link's new properties, both of them into the record of the first edge.
  method ChangeEdges(g: Graph, k1: nat, k2: nat, change: LinkChange)
    requires k1 < |g.edges| && k2 < |g.edges|
    modifies g`edges
    ensures g.edges == Changed(old(g.edges), k1, k2, change)
  {
    if change.metric.Some? {
      g.edges := g.edges[k1 := g.edges[k1].(metric := Usable(change.metric.value))];
      g.edges := g.edges[k2 := g.edges[k2].(metric := Usable(change.metric.value))];
    }
    if change.bw.Some? {
      g.edges := g.edges[k1 := g.edges[k1].(bw := change.bw.value)];
    }
    if change.avaBw.Some? {
      g.edges := g.edges[k1 := g.edges[k1].(avaBw := change.avaBw.value)];
    }
    if change.delay.Some? {
      g.edges := g.edges[k1 := g.edges[k1].(delay := change.delay.value)];
    }
  }

  // Removes the first edge between the two addresses, if there is one.
  method CutEdge(g: Graph, from: nat, to: nat)
    modifies g`edges, g`dirty
    ensures g.edges == Cut(old(g.edges), from, to)
  {
    var k := g.FindEdge(from, to);
    IsFirst(g.edges, from, to, k);
    if k < |g.edges| {
      assert g.edges[k] in g.edges;
      g.RemoveEdge(g.edges[k]);
    }
  }

  lemma ChangedTopology(nodes: seq<Node>, edges: seq<Edge>, k1: nat, k2: nat, c: LinkChange)
    requires Topology(nodes, edges) && k1 < |edges| && k2 < |edges|
    ensures Topology(nodes, Changed(edges, k1, k2, c))
    ensures forall last | Numbered(edges, last) :: Numbered(Changed(edges, k1, k2, c), last)
  {
    var edges' := Changed(edges, k1, k2, c);
    forall e | e in edges'
      ensures e.local in nodes && e.remote in nodes && e.metric > 0
    {
      var i :| 0 <= i < |edges'| && edges'[i] == e;
      assert edges[i] in edges;
    }
  }

  lemma GrownTopology(nodes: seq<Node>, edges: seq<Edge>, n: Node)
    requires Topology(nodes, edges) && n !in nodes
    ensures Topology(nodes + [n], edges)
  {
  }

  lemma CutTopology(nodes: seq<Node>, edges: seq<Edge>, from: nat, to: nat)
    requires Topology(nodes, edges)
    ensures Topology(nodes, Cut(edges, from, to))
    ensures forall last | Numbered(edges, last) :: Numbered(Cut(edges, from, to), last)
  {
    hide Cut, First;
    CutIs(edges, from, to);
    var k, r := First(edges, from, to), Cut(edges, from, to);
    forall e | e in r
      ensures e.local in nodes && e.remote in nodes && e.metric > 0
    {
      var i :| 0 <= i < |r| && r[i] == e;
      assert edges[Was(k, i)] in edges;
    }
    forall last | Numbered(edges, last)
      ensures Numbered(r, last)
    {
      forall i, j | 0 <= i < j < |r|
        ensures r[i].id < r[j].id
      {
        assert Was(k, i) < Was(k, j);
      }
    }
  }

  // ------------------------------------------------------------ what the callbacks do to links

  // After an update both directions have the new metric, the first has the new bandwidths and delay,
  // the second its old ones, and no other edge or column changed.
  ghost predicate LinkChanged(edges: seq<Edge>, edges': seq<Edge>, k1: nat, k2: nat, c: LinkChange) {
    && k1 < |edges| && k2 < |edges| && |edges'| == |edges|
    && (forall i | 0 <= i < |edges| && i != k1 && i != k2 :: edges'[i] == edges[i])
    && (if c.metric.Some? then MetricIs(edges'[k1], c.metric.value) && MetricIs(edges'[k2], c.metric.value)
        else edges'[k1].metric == edges[k1].metric && edges'[k2].metric == edges[k2].metric)
    && (if c.bw.Some? then edges'[k1].bw == c.bw.value else edges'[k1].bw == edges[k1].bw)
    && (if c.avaBw.Some? then edges'[k1].avaBw == c.avaBw.value else edges'[k1].avaBw == edges[k1].avaBw)
    && (if c.delay.Some? then edges'[k1].delay == c.delay.value else edges'[k1].delay == edges[k1].delay)
    && edges'[k1] == edges[k1].(metric := edges'[k1].metric, bw := edges'[k1].bw, avaBw := edges'[k1].avaBw, delay := edges'[k1].delay)
    && (k2 != k1 ==> edges'[k2] == edges[k2].(metric := edges'[k2].metric))
  }

  lemma ChangedFacts(edges: seq<Edge>, k1: nat, k2: nat, c: LinkChange)
    requires k1 < |edges| && k2 < |edges|
    ensures LinkChanged(edges, Changed(edges, k1, k2, c), k1, k2, c)
  {
  }

  lemma ChangedAddresses(edges: seq<Edge>, k1: nat, k2: nat, c: LinkChange)
    requires AddressesOk(edges) && k1 < |edges| && k2 < |edges|
    ensures AddressesOk(Changed(edges, k1, k2, c))
  {
    var edges' := Changed(edges, k1, k2, c);
    assert forall i | 0 <= i < |edges| :: edges'[i].from == edges[i].from && edges'[i].to == edges[i].to;
  }

  // The two edges of a new link are the only ones between their addresses, alike, and of its metric.
  lemma AddedAddresses(edges: seq<Edge>, last: nat, a: Node, b: Node, metric: u32, bw: u32, avaBw: u32, delay: u32, addr1: nat, addr2: nat)
    requires AddressesOk(edges) && forall e | e in edges :: (e.from, e.to) != (addr1, addr2) && (e.from, e.to) != (addr2, addr1)
    ensures var more := LinkEdges(last, a, b, metric, bw, avaBw, delay, addr1, addr2);
      && AddressesOk(edges + more) && Alike(edges + more, addr1, addr2)
      && MetricIs(more[0], metric) && MetricIs(more[1], metric)
  {
    var more := LinkEdges(last, a, b, metric, bw, avaBw, delay, addr1, addr2);
    var edges', n := edges + more, |edges|;
    forall i | 0 <= i < n
      ensures !Runs(edges'[i], addr1, addr2) && !Runs(edges'[i], addr2, addr1)
    {
      assert edges[i] in edges;
    }
    IsFirst(edges', addr1, addr2, n);
    IsFirst(edges', addr2, addr1, if addr1 == addr2 then n else n + 1);
  }

  // Deleting a link right after it was read leaves the graph as it was.
  lemma ReadThenDelete(edges: seq<Edge>, last: nat, a: Node, b: Node, metric: u32, bw: u32, avaBw: u32, delay: u32, addr1: nat, addr2: nat)
    requires forall e | e in edges :: !Runs(e, addr1, addr2) && !Runs(e, addr2, addr1)
    ensures Cut(Cut(edges + LinkEdges(last, a, b, metric, bw, avaBw, delay, addr1, addr2), addr1, addr2), addr2, addr1) == edges
  {
    var more, n := LinkEdges(last, a, b, metric, bw, avaBw, delay, addr1, addr2), |edges|;
    assert forall i | 0 <= i < n :: edges[i] in edges;
    IsFirst(edges + more, addr1, addr2, n);
    assert Cut(edges + more, addr1, addr2) == edges + [more[1]];
    IsFirst(edges + [more[1]], addr2, addr1, n);
  }

  // Where the edge at i was before the one at k went.
  function Was(k: nat, i: nat): nat {
    if i < k then i else i + 1
  }

  lemma CutIs(edges: seq<Edge>, from: nat, to: nat)
    ensures var k, r := First(edges, from, to), Cut(edges, from, to);
      forall i | 0 <= i < |r| :: Was(k, i) < |edges| && r[i] == edges[Was(k, i)]
  {
  }

  lemma CutAddresses(edges: seq<Edge>, from: nat, to: nat)
    requires AddressesOk(edges)
    ensures AddressesOk(Cut(edges, from, to))
  {
    hide Cut, First;
    CutIs(edges, from, to);
    var k, r := First(edges, from, to), Cut(edges, from, to);
    forall i, j | 0 <= i < j < |r| && Runs(r[j], r[i].from, r[i].to)
      ensures r[i].from == r[i].to
    {
      assert Was(k, i) < Was(k, j);
      assert Runs(edges[Was(k, j)], edges[Was(k, i)].from, edges[Was(k, i)].to);
    }
    forall i, j, m | 0 <= i < j < m < |r|
      ensures !(Runs(r[j], r[i].from, r[i].to) && Runs(r[m], r[i].from, r[i].to))
    {
      assert Was(k, i) < Was(k, j) < Was(k, m);
      var x := edges[Was(k, i)];
      assert !(Runs(edges[Was(k, j)], x.from, x.to) && Runs(edges[Was(k, m)], x.from, x.to));
    }
  }

  lemma Elsewhere(edges: seq<Edge>, k: nat, e: Edge)
    requires k < |edges|
    ensures e in edges <==> e in edges[..k] + edges[k + 1..] || e == edges[k]
  {
    assert edges == edges[..k] + [edges[k]] + edges[k + 1..];
  }

  // A cut takes one edge and leaves the others.
  lemma CutMembers(edges: seq<Edge>, from: nat, to: nat, e: Edge)
    ensures var k, r := First(edges, from, to), Cut(edges, from, to);
      if k < |edges| then e in edges <==> e in r || e == edges[k] else r == edges
  {
    if First(edges, from, to) < |edges| {
      Elsewhere(edges, First(edges, from, to), e);
    }
  }

  // Where the edges left by a cut were.
  lemma CutAt(edges: seq<Edge>, from: nat, to: nat, i: nat) returns (j: nat)
    requires i < |Cut(edges, from, to)|
    ensures j < |edges| && edges[j] == Cut(edges, from, to)[i] && j >= i && j != First(edges, from, to)
    ensures Runs(edges[j], from, to) ==> First(edges, from, to) < j
  {
    var k := First(edges, from, to);
    FirstMatches(edges, from, to);
    j := if i < k then i else i + 1;
  }

  // No edge matches twice if the addresses differ.
  lemma NoneLeft(edges: seq<Edge>, from: nat, to: nat)
    requires AddressesOk(edges) && from != to
    ensures forall e | e in Cut(edges, from, to) :: !Runs(e, from, to)
  {
    var k := First(edges, from, to);
    FirstMatches(edges, from, to);
    forall e | e in Cut(edges, from, to)
      ensures !Runs(e, from, to)
    {
      var i :| 0 <= i < |Cut(edges, from, to)| && Cut(edges, from, to)[i] == e;
      var j := CutAt(edges, from, to, i);
    }
  }

  // None matches three times.
  lemma NoneLeftOfTwo(edges: seq<Edge>, a: nat)
    requires AddressesOk(edges)
    ensures forall e | e in Cut(Cut(edges, a, a), a, a) :: !Runs(e, a, a)
  {
    hide Cut, First;
    var r := Cut(edges, a, a);
    FirstMatches(edges, a, a);
    FirstMatches(r, a, a);
    forall e | e in Cut(r, a, a)
      ensures !Runs(e, a, a)
    {
      var i :| 0 <= i < |Cut(r, a, a)| && Cut(r, a, a)[i] == e;
      var j := CutAt(r, a, a, i);
      if Runs(e, a, a) {
        ThirdMatch(edges, a, j);
      }
    }
  }

  lemma ThirdMatch(edges: seq<Edge>, a: nat, j: nat)
    requires AddressesOk(edges) && j < |Cut(edges, a, a)| && First(Cut(edges, a, a), a, a) < j
    ensures !Runs(Cut(edges, a, a)[j], a, a)
  {
    var r, k := Cut(edges, a, a), First(edges, a, a);
    var m := First(r, a, a);
    FirstMatches(edges, a, a);
    FirstMatches(r, a, a);
    var m' := CutAt(edges, a, a, m);
    var j' := CutAt(edges, a, a, j);
    assert m' < j';
  }

  // Deleting a link takes its edges, of both directions, and no others.
  lemma DeletedFacts(edges: seq<Edge>, last: nat, addr1: nat, addr2: nat)
    requires AddressesOk(edges) && Numbered(edges, last)
    ensures forall e :: e in Cut(Cut(edges, addr1, addr2), addr2, addr1) <==>
                        e in edges && !Runs(e, addr1, addr2) && !Runs(e, addr2, addr1)
  {
    hide Cut, AddressesOk;
    var r := Cut(edges, addr1, addr2);
    var r' := Cut(r, addr2, addr1);
    CutAddresses(edges, addr1, addr2);
    if addr1 == addr2 {
      NoneLeftOfTwo(edges, addr1);
    } else {
      NoneLeft(edges, addr1, addr2);
      NoneLeft(r, addr2, addr1);
    }
    FirstMatches(edges, addr1, addr2);
    FirstMatches(r, addr2, addr1);
    forall e
      ensures e in r' <==> e in edges && !Runs(e, addr1, addr2) && !Runs(e, addr2, addr1)
    {
      CutMembers(edges, addr1, addr2, e);
      CutMembers(r, addr2, addr1, e);
      OnceOnly(edges, last, addr1, addr2, e);
      OnceOnly(r, last, addr2, addr1, e);
    }
  }

  // Edges are numbered, so the one a cut takes is gone.
  lemma OnceOnly(edges: seq<Edge>, last: nat, from: nat, to: nat, e: Edge)
    ensures Numbered(edges, last) && First(edges, from, to) < |edges| && e == edges[First(edges, from, to)] ==> e !in Cut(edges, from, to)
  {
  }
}
