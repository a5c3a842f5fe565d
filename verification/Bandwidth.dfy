/**
 * Paths under a bandwidth demand: pruning a copy of the graph, and the edge path that the
 * controller stores for the flow.
 */
module Bandwidth {
  import opened Basics
  import opened ShortestPaths
  import opened Graphs
  import opened Dijkstra
  import opened DijkstraProofs
  import opened Segments
  import opened SegmentTheorems
  import opened SegPaths
  import opened PathShapes
  import opened SegPathTheorems

  // The edges that graph_prune keeps for a demand of bw.
  function Pruned(edges: seq<Edge>, bw: u32): seq<Edge> {
    if edges == [] then []
    else
      var rest := Pruned(edges[..|edges| - 1], bw);
      if Last(edges).avaBw < bw then rest else rest + [Last(edges)]
  }

  // nodes_to_edges: the cheapest edge of every hop, unless one is missing.
  function NodesToEdges(minEdges: map<(Node, Node), Edge>, path: seq<Node>): (r: Option<seq<Edge>>)
  {
    if |path| <= 1 then Some([])
    else
      var n := |path| - 1;
      match NodesToEdges(minEdges, path[..n])
      case None => None
      case Some(es) =>
        if (path[n - 1], path[n]) in minEdges then Some(es + [minEdges[(path[n - 1], path[n])]]) else None
  }

  // The nodes of the legs as build_segpath collects them: waypoints appear twice.
  function Flat(legs: seq<seq<Node>>): seq<Node> {
    if legs == [] then [] else Flat(legs[..|legs| - 1]) + Last(legs)
  }

  lemma FlatAppend(legs: seq<seq<Node>>, p: seq<Node>)
    ensures Flat(legs + [p]) == Flat(legs) + p
  {
    assert (legs + [p])[..|legs|] == legs;
  }

  lemma {:induction false} MissingHop(minEdges: map<(Node, Node), Edge>, path: seq<Node>, i: nat)
    requires i <= |path| && NodesToEdges(minEdges, path[..i]).None?
    ensures NodesToEdges(minEdges, path).None?
    decreases |path|
  {
    if i < |path| {
      var front := path[..|path| - 1];
      assert front[..i] == path[..i];
      MissingHop(minEdges, front, i);
    } else {
      assert path[..i] == path;
    }
  }

  // At most one link joins a router to another.
  ghost predicate OneLink(edges: seq<Edge>) {
    forall e, f | e in edges && f in edges && e.local == f.local && e.remote == f.remote :: e == f
  }

  // A contiguous run of edges from src to dst.
  ghost predicate IsChain(es: seq<Edge>, src: Node, dst: Node) {
    if es == [] then src == dst
    else Last(es).remote == dst && IsChain(es[..|es| - 1], src, Last(es).local)
  }

  // Edges of the graph that are up and can carry bw.
  ghost predicate Carrying(edges: seq<Edge>, bw: u32, es: seq<Edge>) {
    forall e | e in es :: e in edges && e.metric != INFINITE && e.avaBw >= bw
  }

  ghost function Total(ops: Ops, es: seq<Edge>): nat {
    if es == [] then 0 else Total(ops, es[..|es| - 1]) + if ops == ByDelay then Last(es).delay else Last(es).metric
  }

  // What is kept stays in order.
  lemma {:induction false} PrunedInOrder(a: seq<Edge>, b: seq<Edge>, bw: u32)
    ensures Pruned(a + b, bw) == Pruned(a, bw) + Pruned(b, bw)
    decreases |b|
  {
    if b == [] {
      assert a + b == a;
    } else {
      var front := b[..|b| - 1];
      PrunedInOrder(a, front, bw);
      assert (a + b)[..|a + b| - 1] == a + front && Last(a + b) == Last(b);
    }
  }

  lemma {:induction false} PrunedKeeps(edges: seq<Edge>, bw: u32)
    ensures forall e :: e in Pruned(edges, bw) <==> e in edges && e.avaBw >= bw
  {
    if edges != [] {
      PrunedKeeps(edges[..|edges| - 1], bw);
      assert edges == edges[..|edges| - 1] + [Last(edges)];
    }
  }

  lemma OnlyEdgeIsMinEdge(edges: seq<Edge>, e: Edge)
    requires OneLink(edges) && e in edges && e.metric != INFINITE
    ensures MinEdge(edges, e.local, e.remote) == Some(e)
  {
    MinEdgeIsLeast(edges, e.local, e.remote);
    assert Connects(e, e.local, e.remote);
  }

  // The pruned graph's links, and the edges they stand for, are the full graph's.
  lemma PrunedViews(nodes: seq<Node>, edges: seq<Edge>, bw: u32)
    requires Topology(nodes, edges) && OneLink(edges)
    ensures Topology(nodes, Pruned(edges, bw)) && OneLink(Pruned(edges, bw))
    ensures Within(ViewOf(nodes, Pruned(edges, bw)), ViewOf(nodes, edges))
    ensures forall l | l in ViewOf(nodes, Pruned(edges, bw)).minEdges ::
              && l in ViewOf(nodes, edges).minEdges
              && ViewOf(nodes, edges).minEdges[l] == ViewOf(nodes, Pruned(edges, bw)).minEdges[l]
  {
    var kept := Pruned(edges, bw);
    PrunedKeeps(edges, bw);
    FinalizedIsConsistent(nodes, kept);
    forall l | l in ViewOf(nodes, kept).minEdges
      ensures l in ViewOf(nodes, edges).minEdges
      ensures ViewOf(nodes, edges).minEdges[l] == ViewOf(nodes, kept).minEdges[l]
    {
      MinEdgeIsLeast(kept, l.0, l.1);
      OnlyEdgeIsMinEdge(edges, MinEdge(kept, l.0, l.1).value);
    }
  }

  // ------------------------------------------------------------ chains and walks

  lemma {:induction false} WalkHasChain(nodes: seq<Node>, edges: seq<Edge>, bw: u32, ops: Ops, p: seq<Node>) returns (es: seq<Edge>)
    requires Topology(nodes, edges) && OneLink(edges)
    requires IsWalk(NetOf(ViewOf(nodes, Pruned(edges, bw)), ops), p)
    ensures NodesToEdges(MinEdgesOf(nodes, edges), p) == Some(es)
    ensures IsChain(es, p[0], Last(p)) && Carrying(edges, bw, es)
    ensures Total(ops, es) == Cost(NetOf(ViewOf(nodes, Pruned(edges, bw)), ops), p)
    decreases |p|
  {
    if |p| == 1 {
      es := [];
    } else {
      var n, net := |p| - 1, NetOf(ViewOf(nodes, Pruned(edges, bw)), ops);
      hide Topology, OneLink, Pruned, ViewOf, MinEdgesOf, NetOf;
      WalkPrefix(net, p);
      var es' := WalkHasChain(nodes, edges, bw, ops, p[..n]);
      var e := HopEdge(nodes, edges, bw, ops, p[n - 1], p[n]);
      es := es' + [e];
      ChainExtends(edges, bw, es', e, p[0]);
    }
  }

  lemma WalkPrefix(net: Net, p: seq<Node>)
    requires IsWalk(net, p) && |p| > 1
    ensures var n := |p| - 1;
      && IsWalk(net, p[..n]) && p[..n][0] == p[0] && Last(p[..n]) == p[n - 1] && Last(p) == p[n]
      && (p[n - 1], p[n]) in net.cost && Cost(net, p) == Cost(net, p[..n]) + net.cost[(p[n - 1], p[n])]
  {
  }

  lemma ChainExtends(edges: seq<Edge>, bw: u32, es: seq<Edge>, e: Edge, src: Node)
    requires IsChain(es, src, e.local) && Carrying(edges, bw, es)
    requires e in edges && e.metric != INFINITE && e.avaBw >= bw
    ensures IsChain(es + [e], src, e.remote) && Carrying(edges, bw, es + [e])
    ensures forall ops :: Total(ops, es + [e]) == Total(ops, es) + Weight(ops, e)
  {
    assert (es + [e])[..|es|] == es;
  }

  lemma HopEdge(nodes: seq<Node>, edges: seq<Edge>, bw: u32, ops: Ops, u: Node, v: Node) returns (e: Edge)
    requires Topology(nodes, edges) && OneLink(edges)
    requires (u, v) in NetOf(ViewOf(nodes, Pruned(edges, bw)), ops).cost
    ensures (u, v) in MinEdgesOf(nodes, edges) && e == MinEdgesOf(nodes, edges)[(u, v)]
    ensures Connects(e, u, v) && e in edges && e.metric != INFINITE && e.avaBw >= bw
    ensures NetOf(ViewOf(nodes, Pruned(edges, bw)), ops).cost[(u, v)] == Weight(ops, e)
  {
    var kept := Pruned(edges, bw);
    PrunedViews(nodes, edges, bw);
    PrunedKeeps(edges, bw);
    e := ViewOf(nodes, kept).minEdges[(u, v)];
    MinEdgeIsLeast(kept, u, v);
  }

  lemma {:induction false} ChainHasWalk(nodes: seq<Node>, edges: seq<Edge>, bw: u32, ops: Ops,
                                        es: seq<Edge>, src: Node, dst: Node) returns (p: seq<Node>)
    requires Topology(nodes, edges) && OneLink(edges) && src in nodes
    requires IsChain(es, src, dst) && Carrying(edges, bw, es)
    ensures Joins(NetOf(ViewOf(nodes, Pruned(edges, bw)), ops), src, dst, p)
    ensures Cost(NetOf(ViewOf(nodes, Pruned(edges, bw)), ops), p) <= Total(ops, es)
    decreases |es|
  {
    if es == [] {
      p := [src];
    } else {
      var e := Last(es);
      assert e in es;
      p := ChainHasWalk(nodes, edges, bw, ops, es[..|es| - 1], src, e.local);
      if e.local != e.remote {
        EdgeIsLink(nodes, edges, bw, ops, e);
        CostExtend(NetOf(ViewOf(nodes, Pruned(edges, bw)), ops), p, e.remote);
        p := p + [e.remote];
      }
    }
  }

  lemma EdgeIsLink(nodes: seq<Node>, edges: seq<Edge>, bw: u32, ops: Ops, e: Edge)
    requires Topology(nodes, edges) && OneLink(edges)
    requires e in edges && e.metric != INFINITE && e.avaBw >= bw && e.local != e.remote
    ensures (e.local, e.remote) in NetOf(ViewOf(nodes, Pruned(edges, bw)), ops).cost
    ensures NetOf(ViewOf(nodes, Pruned(edges, bw)), ops).cost[(e.local, e.remote)] == Weight(ops, e)
  {
    PrunedKeeps(edges, bw);
    PrunedViews(nodes, edges, bw);
    OnlyEdgeIsMinEdge(Pruned(edges, bw), e);
  }

  // ------------------------------------------------------------ build_segpath under a demand

  ghost predicate Feasible(edges: seq<Edge>, bw: u32, src: Node, dst: Node) {
    exists es :: IsChain(es, src, dst) && Carrying(edges, bw, es)
  }

  // With one link per ordered pair and no waypoint, build_segpath fails exactly when no chain
  // of links with enough bandwidth exists; otherwise the stored edge path is such a chain,
  // and none is cheaper.
  lemma DemandIsMet(nodes: seq<Node>, edges: seq<Edge>, bw: u32, ops: Ops, src: Node, dst: Node)
    requires Topology(nodes, edges) && OneLink(edges) && src in nodes && dst in nodes
    requires Sound(ViewOf(nodes, edges)) && Additive(ViewOf(nodes, Pruned(edges, bw)), ops)
    ensures var g, c := ViewOf(nodes, edges), ViewOf(nodes, Pruned(edges, bw));
      && Within(c, g) && InGraph(c, [dst])
      && var r := Legs(g, c, ops, Trip([], [], src), [dst]);
      && (r.None? <==> !Feasible(edges, bw, src, dst))
      && (r.Some? ==>
            && |r.value.legs| == 1
            && var ep := NodesToEdges(g.minEdges, r.value.legs[0]);
            && ep.Some? && IsChain(ep.value, src, dst) && Carrying(edges, bw, ep.value)
            && forall es | IsChain(es, src, dst) && Carrying(edges, bw, es) :: Total(ops, ep.value) <= Total(ops, es))
  {
    var g, c := ViewOf(nodes, edges), ViewOf(nodes, Pruned(edges, bw));
    PrunedViews(nodes, edges, bw);
    var r := Legs(g, c, ops, Trip([], [], src), [dst]);
    ReachableIsFeasible(nodes, edges, bw, ops, src, dst);
    hide Topology, OneLink, Sound, Additive, Within, NetOf, ViewOf, Pruned, Feasible, Consistent, Legs, NodesToEdges;
    TripFails(g, c, ops, src, [dst]);
    assert Broken(NetOf(c, ops), src, [dst]) <==> !Reachable(NetOf(c, ops), src, dst) by {
      BrokenExtends(NetOf(c, ops), src, [], dst);
      assert [] + [dst] == [dst];
    }
    if r.Some? {
      TripIsExact(g, c, ops, src, [dst]);
      assert ShortestFrom(NetOf(c, ops), Station(src, [dst], 0), [dst][0], r.value.legs[0]);
      CheapestChain(nodes, edges, bw, ops, src, dst, r.value.legs[0]);
    }
  }

  lemma ReachableIsFeasible(nodes: seq<Node>, edges: seq<Edge>, bw: u32, ops: Ops, src: Node, dst: Node)
    requires Topology(nodes, edges) && OneLink(edges) && src in nodes
    ensures Reachable(NetOf(ViewOf(nodes, Pruned(edges, bw)), ops), src, dst) <==> Feasible(edges, bw, src, dst)
  {
    hide Topology, OneLink, ViewOf, NetOf, Pruned, IsChain, Carrying;
    if p :| Joins(NetOf(ViewOf(nodes, Pruned(edges, bw)), ops), src, dst, p) {
      var es := WalkHasChain(nodes, edges, bw, ops, p);
    }
    if es :| IsChain(es, src, dst) && Carrying(edges, bw, es) {
      var p := ChainHasWalk(nodes, edges, bw, ops, es, src, dst);
    }
  }

  lemma CheapestChain(nodes: seq<Node>, edges: seq<Edge>, bw: u32, ops: Ops, src: Node, dst: Node, p: seq<Node>)
    requires Topology(nodes, edges) && OneLink(edges) && src in nodes
    requires ShortestFrom(NetOf(ViewOf(nodes, Pruned(edges, bw)), ops), src, dst, p)
    ensures var ep := NodesToEdges(ViewOf(nodes, edges).minEdges, p);
      && ep.Some? && IsChain(ep.value, src, dst) && Carrying(edges, bw, ep.value)
      && forall es | IsChain(es, src, dst) && Carrying(edges, bw, es) :: Total(ops, ep.value) <= Total(ops, es)
  {
    hide Topology, OneLink, NetOf, Pruned, IsChain, Carrying, NodesToEdges, MinEdgesOf;
    var ep := WalkHasChain(nodes, edges, bw, ops, p);
    forall es | IsChain(es, src, dst) && Carrying(edges, bw, es)
      ensures Total(ops, ep) <= Total(ops, es)
    {
      var q := ChainHasWalk(nodes, edges, bw, ops, es, src, dst);
    }
  }

  // ------------------------------------------------------------ where the stored path goes wrong

  // Two legs joined at a waypoint name it twice, and no edge leads from a router to itself:
  // a flow with waypoints is stored without an edge path.
  lemma {:induction false} WaypointsLoseEdgePath(view: View, p: seq<Node>, q: seq<Node>)
    requires Consistent(view) && |p| > 0 && |q| > 0 && Last(p) == q[0]
    ensures NodesToEdges(view.minEdges, p + q).None?
    decreases |q|
  {
    var r, n := p + q, |p| + |q| - 1;
    if |q| == 1 {
      assert r[n - 1] == r[n];
    } else {
      assert r[..n] == p + q[..|q| - 1];
      WaypointsLoseEdgePath(view, p, q[..|q| - 1]);
    }
  }

  lemma {:induction false} LinkedHasEdges(view: View, p: seq<Node>)
    requires Linked(view, p)
    ensures NodesToEdges(view.minEdges, p).Some?
    decreases |p|
  {
    if |p| > 1 {
      var n := |p| - 1;
      assert Linked(view, p[..n]) && (p[n - 1], p[n]) in view.minEdges;
      LinkedHasEdges(view, p[..n]);
    }
  }

  lemma {:induction false} FlatPrefix(legs: seq<seq<Node>>, i: nat)
    requires i <= |legs|
    ensures Flat(legs[..i]) <= Flat(legs)
    decreases |legs|
  {
    if i < |legs| {
      var front := legs[..|legs| - 1];
      assert front[..i] == legs[..i];
      FlatPrefix(front, i);
    } else {
      assert legs[..i] == legs;
    }
  }

  // From the second leg on the collected nodes have no edge path.
  lemma TwoLegsLoseEdgePath(view: View, legs: seq<seq<Node>>)
    requires Consistent(view) && |legs| > 1 && |legs[0]| > 0 && |legs[1]| > 0 && Last(legs[0]) == legs[1][0]
    ensures NodesToEdges(view.minEdges, Flat(legs)).None?
  {
    WaypointsLoseEdgePath(view, legs[0], legs[1]);
    FlatAppend([], legs[0]);
    FlatAppend([legs[0]], legs[1]);
    assert [] + [legs[0]] == [legs[0]] && [legs[0]] + [legs[1]] == legs[..2] && [] + legs[0] == legs[0];
    FlatPrefix(legs, 2);
    hide Consistent, NodesToEdges, Flat;
    assert Flat(legs)[..|Flat(legs[..2])|] == Flat(legs[..2]);
    MissingHop(view.minEdges, Flat(legs), |Flat(legs[..2])|);
  }

  // build_segpath stores an edge path if and only if the flow has no waypoint.
  lemma EdgePathNeedsNoWaypoint(g: View, c: View, ops: Ops, src: Node, via: seq<Node>, dst: Node)
    requires Sound(g) && Within(c, g) && src in c.nodes && InGraph(c, via + [dst])
    requires Legs(g, c, ops, Trip([], [], src), via + [dst]).Some?
    ensures NodesToEdges(g.minEdges, Flat(Legs(g, c, ops, Trip([], [], src), via + [dst]).value.legs)).Some? <==> via == []
  {
    hide Consistent, NoOverflow, NetOf, Legs, Exactly, GoodLegs, InGraph, NodesToEdges, Flat, Linked, NoDup;
    var ts := via + [dst];
    var legs := Legs(g, c, ops, Trip([], [], src), ts).value.legs;
    TripIsExact(g, c, ops, src, ts);
    assert IsChainOf(g, Station(src, ts, 0), ts[0], legs[0]);
    if via == [] {
      LinkedHasEdges(g, legs[0]);
      FlatOne(legs);
    } else {
      assert IsChainOf(g, Station(src, ts, 1), ts[1], legs[1]);
      TwoLegsLoseEdgePath(g, legs);
    }
  }

  lemma FlatOne(legs: seq<seq<Node>>)
    requires |legs| == 1
    ensures Flat(legs) == legs[0]
  {
    assert legs[..0] == [] && Flat([]) == [] && Last(legs) == legs[0];
  }

  // ------------------------------------------------------------ where pruning goes wrong

  // A net with no links but 1-2, 1-3 and 3-2.
  ghost predicate Triangle(net: Net) {
    net.nodes == {1, 2, 3} && net.cost.Keys <= {(1, 2), (1, 3), (3, 2)}
  }

  lemma {:induction false} TriangleWalks(net: Net, p: seq<Node>)
    requires IsWalk(net, p) && Triangle(net)
    ensures p == [1] || p == [2] || p == [3] || p == [1, 2] || p == [1, 3] || p == [3, 2] || p == [1, 3, 2]
    decreases |p|
  {
    if |p| == 1 {
      assert p == [p[0]];
    } else {
      var n := |p| - 1;
      var q := p[..n];
      assert (p[n - 1], p[n]) in net.cost && p == q + [p[n]];
      assert IsWalk(net, q);
      TriangleWalks(net, q);
      assert [1] + [2] == [1, 2] && [1] + [3] == [1, 3] && [3] + [2] == [3, 2] && [1, 3] + [2] == [1, 3, 2];
    }
  }

  lemma TriangleCosts(net: Net)
    requires net.Valid() && Triangle(net)
    ensures Cost(net, [1]) == Cost(net, [2]) == Cost(net, [3]) == 0
    ensures (1, 2) in net.cost ==> Cost(net, [1, 2]) == net.cost[(1, 2)]
    ensures (1, 3) in net.cost ==> Cost(net, [1, 3]) == net.cost[(1, 3)]
    ensures (3, 2) in net.cost ==> Cost(net, [3, 2]) == net.cost[(3, 2)]
    ensures (1, 3) in net.cost && (3, 2) in net.cost ==> Cost(net, [1, 3, 2]) == net.cost[(1, 3)] + net.cost[(3, 2)]
  {
    if (1, 2) in net.cost { CostExtend(net, [1], 2); assert [1] + [2] == [1, 2]; }
    if (3, 2) in net.cost { CostExtend(net, [3], 2); assert [3] + [2] == [3, 2]; }
    if (1, 3) in net.cost {
      CostExtend(net, [1], 3);
      assert [1] + [3] == [1, 3];
      if (3, 2) in net.cost { CostExtend(net, [1, 3], 2); assert [1, 3] + [2] == [1, 3, 2]; }
    }
  }

  lemma TriangleAdds(net: Net, r: Node)
    requires net.Valid() && Triangle(net)
    requires forall l | l in net.cost :: net.cost[l] < INFINITE
    requires (1, 3) in net.cost && (3, 2) in net.cost ==> net.cost[(1, 3)] + net.cost[(3, 2)] < INFINITE
    ensures NoOverflow(net, r)
  {
    TriangleCosts(net);
    forall p: seq<Node>, v: Node | Shortest(net, p) && p[0] == r && (Last(p), v) in net.cost
      ensures Cost(net, p) + net.cost[(Last(p), v)] < INFINITE
    {
      TriangleWalks(net, p);
      assert (Last(p), v) == (1, 2) || (Last(p), v) == (1, 3) || (Last(p), v) == (3, 2);
    }
  }

  // The cheap way round is the only least-cost one.
  lemma DetourIsUnique(net: Net)
    requires net.Valid() && Triangle(net) && net.cost.Keys == {(1, 2), (1, 3), (3, 2)}
    requires net.cost[(1, 3)] + net.cost[(3, 2)] < net.cost[(1, 2)]
    ensures Unique(net, [1, 3, 2]) && !GoodHop(net, 1, 2)
  {
    TriangleCosts(net);
    assert Joins(net, 1, 2, [1, 3, 2]);
    forall p | Joins(net, 1, 2, p)
      ensures p == [1, 2] || p == [1, 3, 2]
    {
      TriangleWalks(net, p);
    }
    assert forall u | TightPred(net, 1, u, 2) :: u == 3;
  }

  // Without link 1-3, only the direct link leads from 1 to 2.
  lemma OnlyDirectWalk(net: Net, p: seq<Node>)
    requires net.Valid() && Triangle(net) && (1, 2) in net.cost && (1, 3) !in net.cost
    ensures Reachable(net, 1, 2) && (Joins(net, 1, 2, p) ==> p == [1, 2])
  {
    assert Joins(net, 1, 2, [1, 2]);
    if Joins(net, 1, 2, p) {
      TriangleWalks(net, p);
      assert [1, 3, 2][0] == 1 && [1, 3, 2][1] == 3;
    }
  }

  // A dear direct link, and a cheap way round that lacks the bandwidth.
  ghost predicate Detour(e: Edge, d1: Edge, d2: Edge, bw: u32) {
    && Connects(e, 1, 2) && Connects(d1, 1, 3) && Connects(d2, 3, 2)
    && 0 < d1.metric && 0 < d2.metric && d1.metric + d2.metric < e.metric < INFINITE
    && d1.avaBw < bw <= e.avaBw
  }

  lemma DetourLinks(e: Edge, d1: Edge, d2: Edge, bw: u32)
    requires Detour(e, d1, d2, bw)
    ensures var c := ViewOf([1, 2, 3], Pruned([e, d1, d2], bw)); (1, 2) in c.minEdges && (1, 3) !in c.minEdges
  {
    var nodes, edges := [1, 2, 3], [e, d1, d2];
    DirectLinkSurvives(nodes, edges, e, bw);
    PrunedKeeps(edges, bw);
    MinEdgeIsLeast(Pruned(edges, bw), 1, 3);
    assert [1, 2][0] == 1 && [1, 2][1] == 2;
  }

  lemma DetourTopology(e: Edge, d1: Edge, d2: Edge, bw: u32)
    requires Detour(e, d1, d2, bw)
    ensures Topology([1, 2, 3], [e, d1, d2]) && OneLink([e, d1, d2])
  {
  }

  // The same of the two graphs.
  ghost predicate Lossy(g: View, c: View) {
    && Consistent(g) && Within(c, g) && g.nodes == [1, 2, 3]
    && (1, 2) in c.minEdges && (1, 3) !in c.minEdges
    && var net := NetOf(g, ByMetric);
    && Triangle(net) && (1, 3) in net.cost && (3, 2) in net.cost && (1, 2) in net.cost
    && net.cost[(1, 3)] + net.cost[(3, 2)] < net.cost[(1, 2)] < INFINITE
  }

  lemma DetourIsLossy(e: Edge, d1: Edge, d2: Edge, bw: u32)
    requires Detour(e, d1, d2, bw)
    ensures Lossy(ViewOf([1, 2, 3], [e, d1, d2]), ViewOf([1, 2, 3], Pruned([e, d1, d2], bw)))
  {
    hide Pruned, NetOf, MinEdgesOf, NoOverflow, Topology, OneLink, Consistent, Within, Triangle;
    DetourTopology(e, d1, d2, bw);
    DetourCosts(e, d1, d2, bw);
    DetourLinks(e, d1, d2, bw);
    DetourViews([1, 2, 3], [e, d1, d2], bw);
  }

  lemma DetourViews(nodes: seq<Node>, edges: seq<Edge>, bw: u32)
    requires Topology(nodes, edges) && OneLink(edges)
    ensures Consistent(ViewOf(nodes, edges)) && Within(ViewOf(nodes, Pruned(edges, bw)), ViewOf(nodes, edges))
  {
    FinalizedIsConsistent(nodes, edges);
    PrunedViews(nodes, edges, bw);
  }

  lemma DetourCosts(e: Edge, d1: Edge, d2: Edge, bw: u32)
    requires Detour(e, d1, d2, bw)
    ensures var net := NetOf(ViewOf([1, 2, 3], [e, d1, d2]), ByMetric);
      && Triangle(net) && (1, 3) in net.cost && (3, 2) in net.cost && (1, 2) in net.cost
      && net.cost[(1, 3)] + net.cost[(3, 2)] < net.cost[(1, 2)] < INFINITE
  {
    hide ViewOf, NetOf;
    DetourNet(e, d1, d2);
  }

  lemma WithinTriangle(c: View, g: View)
    requires Within(c, g) && Consistent(g) && Triangle(NetOf(g, ByMetric))
    ensures Triangle(NetOf(c, ByMetric)) && NetOf(c, ByMetric).Valid()
    ensures forall l | l in NetOf(c, ByMetric).cost :: NetOf(c, ByMetric).cost[l] < INFINITE
  {
    NetOfIsValid(c, ByMetric);
    assert forall l | l in c.minEdges :: l in NetOf(g, ByMetric).cost;
  }

  lemma LinkIsCost(view: View, u: Node, v: Node)
    ensures (u, v) in NetOf(view, ByMetric).cost <==> (u, v) in view.minEdges
  {
  }

  lemma LossyIsSound(g: View, c: View)
    requires Lossy(g, c)
    ensures Sound(g) && Additive(c, ByMetric) && InGraph(c, [2])
  {
    hide NetOf, NoOverflow, Consistent, Triangle;
    assert Consistent(c) && c.nodes == g.nodes;
    WithinTriangle(c, g);
    WithinTriangle(g, g);
    LinkIsCost(c, 1, 3);
    forall r
      ensures NoOverflow(NetOf(g, ByMetric), r) && NoOverflow(NetOf(c, ByMetric), r)
    {
      TriangleAdds(NetOf(g, ByMetric), r);
      TriangleAdds(NetOf(c, ByMetric), r);
    }
  }

  // The path found is the direct link.
  lemma LossyPath(g: View, c: View)
    requires Lossy(g, c) && Additive(c, ByMetric)
    ensures FirstPath(c, ByMetric, 1, 2) == Some([1, 2])
  {
    hide NetOf, NoOverflow, Consistent, Triangle, FirstPath, Shortest, IsWalk;
    WithinTriangle(c, g);
    LinkIsCost(c, 1, 2);
    LinkIsCost(c, 1, 3);
    FirstPathIsShortest(c, ByMetric, 1, 2);
    var p := if FirstPath(c, ByMetric, 1, 2).Some? then FirstPath(c, ByMetric, 1, 2).value else [];
    OnlyDirectWalk(NetOf(c, ByMetric), p);
    ShortestJoins(NetOf(c, ByMetric), 1, 2, p);
  }

  // At a bad hop from the start of the path its two ends are named.
  lemma BadStart(g: View, x: Node, y: Node)
    requires Sound(g) && (x, y) in g.minEdges && x in g.nodes && y in g.nodes && !GoodHop(NetOf(g, ByMetric), x, y)
    ensures InGraph(g, [x, y]) && EndLeg([] + MinSegs(g, [x, y], 1).segs, y) == [NodeSegment(x), NodeSegment(y)] && MinSegs(g, [x, y], 1).ok
  {
    hide NoOverflow, Consistent, GoodHop, NetOf, Hop;
    BadHopNamesNode(g, Progress([], x, true), x, y);
    assert MinSegs(g, [x, y], 0) == Progress([], x, true);
    assert [] + [NodeSegment(x)] == [NodeSegment(x)] && [NodeSegment(x)] + [NodeSegment(y)] == [NodeSegment(x), NodeSegment(y)];
  }

  lemma OneLeg(g: View, c: View, ops: Ops, s: Trip, t: Node, p: seq<Node>)
    requires Consistent(g) && Consistent(c) && g.nodes == c.nodes && s.cur in c.nodes && InGraph(c, [t]) && t in c.nodes
    requires FirstPath(c, ops, s.cur, t) == Some(p) && InGraph(g, p) && |p| > 0 && MinSegs(g, p, |p| - 1).ok
    ensures Legs(g, c, ops, s, [t]) == Some(Trip(EndLeg(s.segs + MinSegs(g, p, |p| - 1).segs, t), s.legs + [p], t))
  {
    hide Consistent, FirstPath, MinSegs, EndLeg;
    assert [t][..0] == [] && Last([t]) == t;
    assert Legs(g, c, ops, s, []) == Some(s);
  }

  lemma LossyTrip(g: View, c: View)
    requires Lossy(g, c) && Sound(g) && Additive(c, ByMetric) && InGraph(c, [2]) && !GoodHop(NetOf(g, ByMetric), 1, 2)
    ensures Legs(g, c, ByMetric, Trip([], [], 1), [2]) == Some(Trip([NodeSegment(1), NodeSegment(2)], [[1, 2]], 2))
  {
    hide NetOf, NoOverflow, Consistent, Triangle, FirstPath, MinSegs, EndLeg, GoodHop, Legs;
    LinkIsCost(g, 1, 2);
    LossyPath(g, c);
    BadStart(g, 1, 2);
    assert [] + [[1, 2]] == [[1, 2]];
    OneLeg(g, c, ByMetric, Trip([], [], 1), 2, [1, 2]);
  }

  lemma LossyDetour(g: View, c: View)
    requires Lossy(g, c)
    ensures !GoodHop(NetOf(g, ByMetric), 1, 2)
    ensures Exactly(NetOf(g, ByMetric), 1, [NodeSegment(1), NodeSegment(2)], [1, 3, 2])
  {
    hide NetOf, Consistent, Within, GoodHop, Unique, Exactly;
    var net := NetOf(g, ByMetric);
    assert net.cost.Keys == {(1, 2), (1, 3), (3, 2)};
    NetOfIsValid(g, ByMetric);
    DetourIsUnique(net);
    NamingEnds(net, [1, 3, 2]);
  }

  // Naming the first node and the last leads every packet over the unique least-cost walk.
  lemma NamingEnds(net: Net, w: seq<Node>)
    requires net.Valid() && net.Positive() && Unique(net, w) && w[0] in net.nodes
    ensures Exactly(net, w[0], [NodeSegment(w[0]), NodeSegment(Last(w))], w)
  {
    var x, t := w[0], Last(w);
    StandingStillIsUnique(net, x);
    NodeSegmentIsExact(net, [x]);
    ExactlyAppend(net, x, [], [x], NodeSegment(x), [x]);
    assert [] + [NodeSegment(x)] == [NodeSegment(x)] && Glue([x], [x]) == [x] && Glue([x], w) == w;
    NodeSegmentIsExact(net, w);
    ExactlyAppend(net, x, [NodeSegment(x)], [x], NodeSegment(t), w);
    assert [NodeSegment(x)] + [NodeSegment(t)] == [NodeSegment(x), NodeSegment(t)];
  }

  // A path that avoids a cheap way round for lack of bandwidth is not followed: build_segpath
  // finds the direct link and compiles it into segments that take every packet over the detour.
  lemma PruningCanLoseThePath(e: Edge, d1: Edge, d2: Edge, bw: u32)
    requires Detour(e, d1, d2, bw)
    ensures var g, c := ViewOf([1, 2, 3], [e, d1, d2]), ViewOf([1, 2, 3], Pruned([e, d1, d2], bw));
      && Sound(g) && Within(c, g) && Additive(c, ByMetric) && InGraph(c, [2])
      && var r := Legs(g, c, ByMetric, Trip([], [], 1), [2]);
      && r.Some? && r.value.legs == [[1, 2]]
      && Exactly(NetOf(g, ByMetric), 1, r.value.segs, [1, 3, 2]) && !Carries(NetOf(g, ByMetric), 1, r.value.segs, [1, 2])
  {
    hide ViewOf, NetOf, NoOverflow, GoodHop, Legs, Consistent, InGraph, Carries, Triangle, Within, Pruned;
    var g, c := ViewOf([1, 2, 3], [e, d1, d2]), ViewOf([1, 2, 3], Pruned([e, d1, d2], bw));
    DetourIsLossy(e, d1, d2, bw);
    LossyIsSound(g, c);
    LossyDetour(g, c);
    LossyTrip(g, c);
    assert [1, 2] != [1, 3, 2];
  }

  lemma DirectLinkSurvives(nodes: seq<Node>, edges: seq<Edge>, e: Edge, bw: u32)
    requires e in edges && e.local in nodes && e.remote in nodes && e.local != e.remote
    requires e.metric != INFINITE && bw <= e.avaBw
    ensures Linked(ViewOf(nodes, Pruned(edges, bw)), [e.local, e.remote])
  {
    PrunedKeeps(edges, bw);
    MinEdgeIsLeast(Pruned(edges, bw), e.local, e.remote);
    assert Connects(e, e.local, e.remote);
  }

  lemma DetourEdge(e: Edge, d1: Edge, d2: Edge, u: Node, v: Node)
    requires Connects(e, 1, 2) && Connects(d1, 1, 3) && Connects(d2, 3, 2)
    requires e.metric < INFINITE && d1.metric < INFINITE && d2.metric < INFINITE
    ensures MinEdge([e, d1, d2], u, v) == if Connects(e, u, v) then Some(e) else if Connects(d1, u, v) then Some(d1)
                                          else if Connects(d2, u, v) then Some(d2) else None
  {
    hide MinEdge;
    var edges := [e, d1, d2];
    MinEdgeIsLeast(edges, u, v);
    assert e in edges && d1 in edges && d2 in edges;
  }

  lemma DetourCost(e: Edge, d1: Edge, d2: Edge, l: (Node, Node))
    requires Connects(e, 1, 2) && Connects(d1, 1, 3) && Connects(d2, 3, 2)
    requires e.metric < INFINITE && d1.metric < INFINITE && d2.metric < INFINITE
    ensures var cost := NetOf(ViewOf([1, 2, 3], [e, d1, d2]), ByMetric).cost;
      && (l in cost <==> l == (1, 2) || l == (1, 3) || l == (3, 2))
      && (l in cost ==> cost[l] == if l == (1, 2) then e.metric else if l == (1, 3) then d1.metric else d2.metric)
  {
    hide MinEdge, Neighbours;
    DetourEdge(e, d1, d2, l.0, l.1);
  }

  lemma DetourNet(e: Edge, d1: Edge, d2: Edge)
    requires Connects(e, 1, 2) && Connects(d1, 1, 3) && Connects(d2, 3, 2)
    requires e.metric < INFINITE && d1.metric < INFINITE && d2.metric < INFINITE
    ensures var net := NetOf(ViewOf([1, 2, 3], [e, d1, d2]), ByMetric);
      && net.nodes == {1, 2, 3}
      && net.cost == map[(1, 2) := e.metric, (1, 3) := d1.metric, (3, 2) := d2.metric]
  {
    hide MinEdgesOf, Neighbours;
    var net := NetOf(ViewOf([1, 2, 3], [e, d1, d2]), ByMetric);
    assert net.nodes == {1, 2, 3};
    hide NetOf, ViewOf;
    forall l
      ensures l in net.cost <==> l == (1, 2) || l == (1, 3) || l == (3, 2)
      ensures l in net.cost ==> net.cost[l] == if l == (1, 2) then e.metric else if l == (1, 3) then d1.metric else d2.metric
    {
      DetourCost(e, d1, d2, l);
    }
  }
}
