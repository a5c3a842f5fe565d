/**
 * The flows of the controller against the published graph: which are affected by a change,
 * how they are rerouted, and what the monitor thread keeps while workers admit new ones.
 */
module Flows {
  import opened Basics
  import opened ShortestPaths
  import opened Graphs
  import opened Dijkstra
  import opened DijkstraProofs
  import opened Segments
  import opened SegmentTheorems
  import opened SegPaths
  import opened SegPathTheorems
  import opened Bandwidth
  import opened PathEngine

  datatype Topo = Topo(nodes: seq<Node>, edges: seq<Edge>)

  // A flow without waypoints: what it asks for, and the segments and edges it was given.
  datatype Flow = Flow(src: Node, dst: Node, bw: u32, byDelay: bool, segs: seq<Segment>, epath: seq<Edge>, orphan: bool)

  function Hook(fl: Flow): Ops {
    if fl.byDelay then ByDelay else ByMetric
  }

  // ------------------------------------------------------------ the published graph

  ghost predicate UniqueIds(edges: seq<Edge>) {
    forall i, j | 0 <= i < j < |edges| :: edges[i].id != edges[j].id
  }

  ghost function Kept(g: Topo, bw: u32): View {
    ViewOf(g.nodes, Pruned(g.edges, bw))
  }

  // A graph of the controller in which no cost or delay sum reaches infinity.
  ghost predicate Tame(g: Topo) {
    && Topology(g.nodes, g.edges) && UniqueIds(g.edges)
    && forall bw, ops: Ops | !ops.DelayBelow? :: Additive(Kept(g, bw), ops)
  }

  // The walk the engine finds for the flow.
  ghost function TripOf(g: Topo, fl: Flow): Option<Trip>
    requires Tame(g) && fl.src in g.nodes && fl.dst in g.nodes
  {
    TripReady(g, fl);
    Legs(ViewOf(g.nodes, g.edges), Kept(g, fl.bw), Hook(fl), Trip([], [], fl.src), [fl.dst])
  }

  lemma TripReady(g: Topo, fl: Flow)
    requires Tame(g) && fl.src in g.nodes && fl.dst in g.nodes
    ensures Consistent(ViewOf(g.nodes, g.edges)) && Consistent(Kept(g, fl.bw))
    ensures Within(Kept(g, fl.bw), ViewOf(g.nodes, g.edges)) && Additive(Kept(g, fl.bw), Hook(fl))
    ensures InGraph(Kept(g, fl.bw), [fl.dst]) && Trip([], [], fl.src).cur in Kept(g, fl.bw).nodes
  {
    hide Tame, Consistent, NoOverflow, Additive, Within;
    TameFacts(g, fl.bw, Hook(fl));
    KeptWithin(g, fl.bw);
  }

  lemma TameFacts(g: Topo, bw: u32, ops: Ops)
    requires Tame(g) && !ops.DelayBelow?
    ensures Consistent(ViewOf(g.nodes, g.edges)) && Consistent(Kept(g, bw)) && Additive(Kept(g, bw), ops)
    ensures UniqueIds(g.edges)
  {
    hide Consistent, NoOverflow, Topology, UniqueIds, ViewOf, NetOf;
    FinalizedIsConsistent(g.nodes, g.edges);
    assert Additive(Kept(g, bw), ops);
  }

  lemma KeptLink(nodes: seq<Node>, edges: seq<Edge>, bw: u32, l: (Node, Node))
    requires l in MinEdgesOf(nodes, Pruned(edges, bw))
    ensures l in MinEdgesOf(nodes, edges)
  {
    hide Pruned;
    PrunedKeeps(edges, bw);
    MinEdgeIsLeast(Pruned(edges, bw), l.0, l.1);
    var e := MinEdge(Pruned(edges, bw), l.0, l.1).value;
    assert e in edges && Connects(e, l.0, l.1) && e.metric != INFINITE;
    MinEdgeIsLeast(edges, l.0, l.1);
  }

  // Pruning takes links away and adds none.
  lemma KeptWithin(g: Topo, bw: u32)
    requires Consistent(Kept(g, bw))
    ensures Within(Kept(g, bw), ViewOf(g.nodes, g.edges))
  {
    hide Pruned, MinEdgesOf, Consistent;
    forall l | l in Kept(g, bw).minEdges
      ensures l in ViewOf(g.nodes, g.edges).minEdges
    {
      KeptLink(g.nodes, g.edges, bw, l);
    }
  }

  // No chain of links with the flow's bandwidth leads from its source to its destination.
  ghost predicate NoPath(g: Topo, fl: Flow) {
    fl.src in g.nodes && fl.dst in g.nodes && !Reachable(NetOf(Kept(g, fl.bw), Hook(fl)), fl.src, fl.dst)
  }

  // ------------------------------------------------------------ affected flows

  // The first edge with the number.
  function ById(edges: seq<Edge>, id: nat): Option<Edge> {
    if edges == [] then None else if edges[0].id == id then Some(edges[0]) else ById(edges[1..], id)
  }

  lemma {:induction false} ByIdAt(edges: seq<Edge>, id: nat, k: nat)
    requires k <= |edges| && (forall i | 0 <= i < k :: edges[i].id != id) && (k < |edges| ==> edges[k].id == id)
    ensures ById(edges, id) == if k < |edges| then Some(edges[k]) else None
    decreases k
  {
    if k > 0 {
      ByIdAt(edges[1..], id, k - 1);
    }
  }

  // The edge is still there, at the same metric.
  predicate Unchanged(edges: seq<Edge>, e: Edge) {
    var f := ById(edges, e.id);
    f.Some? && f.value.metric == e.metric
  }

  predicate Intact(edges: seq<Edge>, fl: Flow) {
    forall i | 0 <= i < |fl.epath| :: Unchanged(edges, fl.epath[i])
  }

  // Some edge of the graph has the number and the metric.
  ghost predicate Published(edges: seq<Edge>, id: nat, metric: u32) {
    exists f :: f in edges && f.id == id && f.metric == metric
  }

  lemma {:induction false} ByIdIs(edges: seq<Edge>, id: nat)
    ensures ById(edges, id).Some? <==> exists f :: f in edges && f.id == id
    ensures ById(edges, id).Some? ==> ById(edges, id).value in edges && ById(edges, id).value.id == id
  {
    if edges != [] && edges[0].id != id {
      ByIdIs(edges[1..], id);
    }
  }

  // In a graph with an edge for each number, an edge is unchanged exactly if one with its number and
  // its metric is published.
  lemma UnchangedIsPublished(edges: seq<Edge>, e: Edge)
    requires UniqueIds(edges)
    ensures Unchanged(edges, e) <==> Published(edges, e.id, e.metric)
  {
    ByIdIs(edges, e.id);
    forall f | f in edges && f.id == e.id
      ensures ById(edges, e.id) == Some(f)
    {
      UniqueById(edges, f);
    }
  }

  // No edge of the flow's path is gone or has another metric.
  ghost predicate PathPublished(g: Topo, fl: Flow) {
    forall e | e in fl.epath :: Published(g.edges, e.id, e.metric)
  }

  lemma IntactIsPublished(g: Topo, fl: Flow)
    requires UniqueIds(g.edges)
    ensures Intact(g.edges, fl) <==> PathPublished(g, fl)
  {
    forall e | e in fl.epath
      ensures Unchanged(g.edges, e) <==> Published(g.edges, e.id, e.metric)
    {
      UnchangedIsPublished(g.edges, e);
    }
    hide UniqueIds, Unchanged, Published;
    if Intact(g.edges, fl) {
      forall e | e in fl.epath
        ensures Published(g.edges, e.id, e.metric)
      {
        var i :| 0 <= i < |fl.epath| && fl.epath[i] == e;
        assert Unchanged(g.edges, fl.epath[i]);
      }
    } else {
      var i :| 0 <= i < |fl.epath| && !Unchanged(g.edges, fl.epath[i]);
      assert fl.epath[i] in fl.epath;
    }
  }

  method FlowAffected(g: Graph, fl: Flow) returns (affected: bool)
    ensures affected <==> !Intact(g.edges, fl)
    ensures UniqueIds(g.edges) ==> (affected <==> !PathPublished(Topo(g.nodes, g.edges), fl))
  {
    if UniqueIds(g.edges) { IntactIsPublished(Topo(g.nodes, g.edges), fl); }
    for i := 0 to |fl.epath|
      invariant forall j | 0 <= j < i :: Unchanged(g.edges, fl.epath[j])
    {
      var e := fl.epath[i];
      var k := g.FindEdgeById(e.id);
      ByIdAt(g.edges, e.id, k);
      if k == |g.edges| {
        return true;
      }
      if e.metric != g.edges[k].metric {
        return true;
      }
    }
    affected := false;
  }

  // ------------------------------------------------------------ rerouting

  // The engine finds a walk exactly when there is one, and the walk runs over published links.
  lemma TripFacts(g: Topo, fl: Flow)
    requires Tame(g) && fl.src in g.nodes && fl.dst in g.nodes
    ensures TripOf(g, fl).None? <==> NoPath(g, fl)
    ensures TripOf(g, fl).Some? ==>
      var t := TripOf(g, fl).value;
      |t.legs| == 1 && IsWalk(NetOf(Kept(g, fl.bw), Hook(fl)), t.legs[0])
  {
    TripReady(g, fl);
    var full, kept, start := ViewOf(g.nodes, g.edges), Kept(g, fl.bw), Trip([], [], fl.src);
    hide Consistent, Additive, Within, FirstPath, MinSegs, InGraph, NetOf, Kept, ViewOf, EndLeg, Tame;
    assert Legs(full, kept, Hook(fl), start, [fl.dst]) == Leg(full, kept, Hook(fl), start, fl.dst) by {
      assert [fl.dst][..0] == [] && Last([fl.dst]) == fl.dst;
      assert Legs(full, kept, Hook(fl), start, []) == Some(start);
    }
    LegFails(full, kept, Hook(fl), start, fl.dst);
    FirstPathIsShortest(kept, Hook(fl), fl.src, fl.dst);
    if TripOf(g, fl).Some? {
      var p := FirstPath(kept, Hook(fl), fl.src, fl.dst).value;
      ShortestJoins(NetOf(kept, Hook(fl)), fl.src, fl.dst, p);
      assert TripOf(g, fl).value.legs == [] + [p];
    }
  }

  // Each hop of a walk in the pruned graph has its cheapest edge in the full one.
  lemma {:induction false} WalkHasEdges(g: Topo, bw: u32, ops: Ops, p: seq<Node>) returns (es: seq<Edge>)
    requires IsWalk(NetOf(Kept(g, bw), ops), p)
    ensures NodesToEdges(ViewOf(g.nodes, g.edges).minEdges, p) == Some(es)
    ensures forall e | e in es :: e in g.edges
    decreases |p|
  {
    if |p| == 1 {
      es := [];
    } else {
      var n, net := |p| - 1, NetOf(Kept(g, bw), ops);
      WalkPrefix(net, p);
      var es' := WalkHasEdges(g, bw, ops, p[..n]);
      var l := (p[n - 1], p[n]);
      assert l in Kept(g, bw).minEdges;
      KeptLink(g.nodes, g.edges, bw, l);
      MinEdgeIsLeast(g.edges, l.0, l.1);
      hide NetOf, Kept, Pruned, IsWalk;
      es := es' + [MinEdge(g.edges, l.0, l.1).value];
    }
  }

  // The edges stored for a flow.
  ghost function EdgesOf(g: Topo, t: Trip): Option<seq<Edge>> {
    NodesToEdges(ViewOf(g.nodes, g.edges).minEdges, Flat(t.legs))
  }

  // recompute_flow: a flow that lost a router is orphaned, one without a path stays as it is.
  ghost function Rerouted(g: Topo, fl: Flow): Flow
    requires Tame(g)
  {
    if fl.src !in g.nodes || fl.dst !in g.nodes then fl.(orphan := true)
    else
      match TripOf(g, fl)
      case None => fl
      case Some(t) => fl.(segs := t.segs, epath := if EdgesOf(g, t).Some? then EdgesOf(g, t).value else [])
  }

  lemma {:induction false} UniqueById(edges: seq<Edge>, e: Edge)
    requires UniqueIds(edges) && e in edges
    ensures ById(edges, e.id) == Some(e)
  {
    if edges[0] != e {
      UniqueById(edges[1..], e);
    }
  }

  // The edges stored for a routed flow are edges of the graph it was routed in.
  lemma RoutedIsIntact(g: Topo, fl: Flow)
    requires Tame(g) && fl.src in g.nodes && fl.dst in g.nodes && TripOf(g, fl).Some?
    ensures EdgesOf(g, TripOf(g, fl).value).Some? && Intact(g.edges, Rerouted(g, fl))
  {
    hide Tame, TripOf, Consistent, UniqueIds, NetOf, Kept, ViewOf, NodesToEdges, Additive;
    TripFacts(g, fl);
    TameFacts(g, fl.bw, Hook(fl));
    var t := TripOf(g, fl).value;
    var p := t.legs[0];
    assert Flat(t.legs) == p by {
      assert t.legs == [p] && t.legs[..0] == [];
      assert Flat([]) == [] && Flat([p]) == [] + p;
    }
    var es := WalkHasEdges(g, fl.bw, Hook(fl), p);
    forall i | 0 <= i < |es|
      ensures Unchanged(g.edges, es[i])
    {
      UniqueById(g.edges, es[i]);
    }
  }

  // ------------------------------------------------------------ segments and edges belong together

  // The network the routers forward in.
  ghost function Full(g: Topo): Net {
    NetOf(ViewOf(g.nodes, g.edges), ByMetric)
  }

  // The flow's edges are those of w, a least-cost walk over links with its bandwidth, and its segments
  // carry every packet along w and nowhere else exactly if every hop of w is good in the full graph.
  ghost predicate Follows(g: Topo, fl: Flow, w: seq<Node>) {
    && ShortestFrom(NetOf(Kept(g, fl.bw), Hook(fl)), fl.src, fl.dst, w)
    && NodesToEdges(ViewOf(g.nodes, g.edges).minEdges, w) == Some(fl.epath)
    && (Exactly(Full(g), fl.src, fl.segs, w) <==> GoodPath(Full(g), w))
  }

  ghost predicate Routed(g: Topo, fl: Flow) {
    exists w :: Follows(g, fl, w)
  }

  lemma TameIsSound(g: Topo)
    requires Tame(g)
    ensures Sound(ViewOf(g.nodes, g.edges))
  {
    hide Consistent, NoOverflow, Topology, UniqueIds, ViewOf, NetOf;
    TameFacts(g, 0, ByMetric);
    NothingPruned(g.edges);
  }

  lemma OneLegOnly(net: Net, full: Net, src: Node, dst: Node, legs: seq<seq<Node>>)
    requires ShortestLegs(net, src, [dst], legs)
    ensures |legs| == 1 && ShortestFrom(net, src, dst, legs[0]) && Flat(legs) == legs[0] && Walk(src, legs) == legs[0]
    ensures GoodLegs(full, legs) <==> GoodPath(full, legs[0])
  {
    FlatOne(legs);
    var p := legs[0];
    assert Walk(src, legs[..0]) == [src] && Last(legs) == p;
    assert Glue([src], p) == p;
  }

  // A flow for which the engine finds a walk gets the segments and the edges of that walk.
  lemma RoutedFollows(g: Topo, fl: Flow)
    requires Tame(g) && fl.src in g.nodes && fl.dst in g.nodes && TripOf(g, fl).Some?
    ensures Routed(g, Rerouted(g, fl))
  {
    hide Tame, Consistent, UniqueIds, NetOf, Kept, ViewOf, NodesToEdges, Additive, NoOverflow, Legs, GoodPath, Exactly, ShortestFrom, InGraph, Within;
    TripReady(g, fl);
    TameIsSound(g);
    RoutedIsIntact(g, fl);
    var full, kept := ViewOf(g.nodes, g.edges), Kept(g, fl.bw);
    var t := TripOf(g, fl).value;
    TripIsExact(full, kept, Hook(fl), fl.src, [fl.dst]);
    OneLegOnly(NetOf(kept, Hook(fl)), Full(g), fl.src, fl.dst, t.legs);
    assert Follows(g, Rerouted(g, fl), t.legs[0]);
  }

  // The flow's edges are published at the metrics it was routed by, or it has no path, or it is orphaned.
  ghost predicate Settled(g: Topo, fl: Flow) {
    PathPublished(g, fl) || NoPath(g, fl) || fl.orphan
  }

  lemma ReroutedIsSettled(g: Topo, fl: Flow)
    requires Tame(g)
    ensures Settled(g, Rerouted(g, fl))
    ensures fl.src in g.nodes && fl.dst in g.nodes && !NoPath(g, fl) ==> Routed(g, Rerouted(g, fl))
  {
    if fl.src in g.nodes && fl.dst in g.nodes {
      TripFacts(g, fl);
      hide Tame, TripOf, Routed;
      if TripOf(g, fl).Some? {
        RoutedIsIntact(g, fl);
        RoutedFollows(g, fl);
        TameFacts(g, fl.bw, Hook(fl));
        IntactIsPublished(g, Rerouted(g, fl));
      }
    }
  }

  // ------------------------------------------------------------ recompute_flow

  predicate SameSegment(a: Segment, b: Segment) {
    if a.AdjSegment? then b.AdjSegment? && a.edge.id == b.edge.id else b.NodeSegment? && a.node == b.node
  }

  predicate SameSegments(a: seq<Segment>, b: seq<Segment>) {
    |a| == |b| && forall i | 0 <= i < |a| :: SameSegment(a[i], b[i])
  }

  // What a segment says: its kind and its number.
  function Says(s: Segment): (bool, nat) {
    match s
    case NodeSegment(n) => (false, n)
    case AdjSegment(e) => (true, e.id)
  }

  function AllSay(segs: seq<Segment>): (r: seq<(bool, nat)>)
    ensures |r| == |segs| && forall i | 0 <= i < |segs| :: r[i] == Says(segs[i])
  {
    seq(|segs|, i requires 0 <= i < |segs| => Says(segs[i]))
  }

  ghost predicate EdgesFrom(segs: seq<Segment>, edges: seq<Edge>) {
    forall s | s in segs && s.AdjSegment? :: s.edge in edges
  }

  // Two lists over the links of one graph compare equal exactly if they are the same.
  lemma SameIsEqual(a: seq<Segment>, b: seq<Segment>, edges: seq<Edge>)
    requires UniqueIds(edges) && EdgesFrom(a, edges) && EdgesFrom(b, edges)
    ensures AllSay(a) == AllSay(b) <==> a == b
  {
    if AllSay(a) == AllSay(b) {
      assert |a| == |AllSay(a)| == |b|;
      forall i | 0 <= i < |a|
        ensures a[i] == b[i]
      {
        assert AllSay(a)[i] == AllSay(b)[i] && a[i] in a && b[i] in b;
        if a[i].AdjSegment? {
          UniqueById(edges, a[i].edge);
          UniqueById(edges, b[i].edge);
        }
      }
    }
  }

  method CompareSegments(a: seq<Segment>, b: seq<Segment>) returns (same: bool)
    ensures same <==> SameSegments(a, b)
    ensures same <==> AllSay(a) == AllSay(b)
  {
    if |a| != |b| {
      return false;
    }
    for i := 0 to |a|
      invariant forall j | 0 <= j < i :: SameSegment(a[j], b[j]) && AllSay(a)[j] == AllSay(b)[j]
    {
      if a[i].AdjSegment? != b[i].AdjSegment? {
        return false;
      }
      if a[i].AdjSegment? && a[i].edge.id != b[i].edge.id {
        return false;
      }
      if !a[i].AdjSegment? && a[i].node != b[i].node {
        return false;
      }
    }
    same := true;
  }

  // The flow's new path, and whether its row has to be updated.
  method RecomputeFlow(g: Graph, fl: Flow) returns (fl': Flow, update: bool)
    requires g.Finalized() && g.CacheExact() && Tame(Topo(g.nodes, g.edges))
    ensures fl' == Rerouted(Topo(g.nodes, g.edges), fl)
    ensures update <==> AllSay(fl'.segs) != AllSay(fl.segs)
    ensures fl.src in g.nodes && fl.dst in g.nodes && !NoPath(Topo(g.nodes, g.edges), fl) ==> Routed(Topo(g.nodes, g.edges), fl')
  {
    hide Tame, Legs, NodesToEdges, SameSegment, Consistent, ViewOf, ExactCache, Topology, NoPath, Routed;
    ghost var topo := Topo(g.nodes, g.edges);
    fl', update := fl, false;
    if fl.src !in g.nodes || fl.dst !in g.nodes {
      fl' := fl.(orphan := true);
    } else {
      TripReady(topo, fl);
      TripFacts(topo, fl);
      assert [] + [fl.dst] == [fl.dst];
      assert InGraph(g.Now(), [fl.dst]);
      var segs, epath := g.BuildSegpath(fl.src, [], fl.dst, fl.bw, if fl.byDelay then ByDelay else ByMetric);
      if segs.Some? {
        RoutedIsIntact(topo, fl);
        RoutedFollows(topo, fl);
        fl' := fl.(segs := segs.value, epath := epath.value);
      }
    }
    var same := CompareSegments(fl'.segs, fl.segs);
    update := !same;
  }
}
