/**
 * The controller's graph: nodes and edges in list order, and the two indexes
 * (cheapest edge per ordered pair, outgoing neighbours) that graph_finalize builds.
 */
module Graphs {
  import opened Basics
  import opened ShortestPaths

  // Metrics, delays and bandwidths are 32-bit; the largest value stands for infinity.
  type u32 = x: int | 0 <= x < 0x1_0000_0000

  const INFINITE: u32 := 0xFFFF_FFFF

  function Wrap32(x: nat): u32 {
    x % 0x1_0000_0000
  }

  // A directed link: its two interface addresses identify it.
  datatype Edge = Edge(id: nat, local: Node, remote: Node, metric: u32, bw: u32, avaBw: u32, delay: u32, from: nat, to: nat)

  // What graph_finalize leaves behind for the path computations to read.
  datatype View = View(nodes: seq<Node>, minEdges: map<(Node, Node), Edge>, neighs: map<Node, seq<Node>>)

  predicate Connects(e: Edge, u: Node, v: Node) {
    e.local == u && e.remote == v
  }

  function MetricOr(r: Option<Edge>): u32 {
    if r.Some? then r.value.metric else INFINITE
  }

  // The first edge of least finite metric from u to v.
  function MinEdge(edges: seq<Edge>, u: Node, v: Node): (r: Option<Edge>) {
    if edges == [] then None
    else
      var r := MinEdge(edges[..|edges| - 1], u, v);
      var e := Last(edges);
      if Connects(e, u, v) && e.metric < MetricOr(r) then Some(e) else r
  }

  // The remote ends of u's usable edges, each once, in the order first met.
  function Neighbours(edges: seq<Edge>, u: Node): (r: seq<Node>) {
    if edges == [] then []
    else
      var r := Neighbours(edges[..|edges| - 1], u);
      var e := Last(edges);
      if e.local == u && e.metric != INFINITE && e.remote !in r then r + [e.remote] else r
  }

  ghost function MinEdgesOf(nodes: seq<Node>, edges: seq<Edge>): map<(Node, Node), Edge> {
    map u, v | u in nodes && v in nodes && u != v && MinEdge(edges, u, v).Some?
      :: (u, v) := MinEdge(edges, u, v).value
  }

  ghost function NeighboursOf(nodes: seq<Node>, edges: seq<Edge>): map<Node, seq<Node>> {
    map u | u in nodes :: Neighbours(edges, u)
  }

  ghost function ViewOf(nodes: seq<Node>, edges: seq<Edge>): View {
    View(nodes, MinEdgesOf(nodes, edges), NeighboursOf(nodes, edges))
  }

  // A graph as the controller builds it: node ids differ, edges join listed nodes,
  // and no metric is zero (the controller turns zero into infinity).
  ghost predicate Topology(nodes: seq<Node>, edges: seq<Edge>) {
    && NoDup(nodes)
    && (forall e | e in edges :: e.local in nodes && e.remote in nodes && e.metric > 0)
  }

  // How the two indexes fit together.
  ghost predicate Consistent(view: View) {
    && NoDup(view.nodes)
    && (forall l | l in view.minEdges ::
          && l.0 in view.nodes && l.1 in view.nodes && l.0 != l.1
          && Connects(view.minEdges[l], l.0, l.1)
          && 0 < view.minEdges[l].metric < INFINITE)
    && (forall u :: u in view.neighs <==> u in view.nodes)
    && (forall u | u in view.nodes ::
          NoDup(view.neighs[u]) && forall v | v in view.neighs[u] :: v in view.nodes)
    && (forall u, v | u in view.nodes && u != v ::
          v in view.neighs[u] <==> (u, v) in view.minEdges)
  }

  // The cheapest edge is an edge between the two, none usable is cheaper, and there is one
  // exactly when some edge between them is usable.
  lemma {:induction false} MinEdgeIsLeast(edges: seq<Edge>, u: Node, v: Node)
    ensures var r := MinEdge(edges, u, v);
      && (r.Some? ==> r.value in edges && Connects(r.value, u, v) && r.value.metric < INFINITE)
      && (forall e | e in edges && Connects(e, u, v) :: MetricOr(r) <= e.metric)
      && (r.Some? <==> exists e :: e in edges && Connects(e, u, v) && e.metric != INFINITE)
  {
    if edges != [] {
      var rest, last := edges[..|edges| - 1], Last(edges);
      assert edges == rest + [last];
      MinEdgeIsLeast(rest, u, v);
      if Connects(last, u, v) && last.metric != INFINITE {
        assert last in edges;
      }
    }
  }

  lemma {:induction false} NeighboursAreUsable(edges: seq<Edge>, u: Node)
    ensures NoDup(Neighbours(edges, u))
    ensures forall v :: v in Neighbours(edges, u) <==>
              exists e :: e in edges && Connects(e, u, v) && e.metric != INFINITE
  {
    if edges != [] {
      var rest, last := edges[..|edges| - 1], Last(edges);
      assert edges == rest + [last];
      NeighboursAreUsable(rest, u);
      forall v
        ensures v in Neighbours(edges, u) <==>
                  exists e :: e in edges && Connects(e, u, v) && e.metric != INFINITE
      {
        if e :| e in edges && Connects(e, u, v) && e.metric != INFINITE {
          assert e in rest || e == last;
        }
        if v == last.remote && last.local == u && last.metric != INFINITE {
          assert Connects(last, u, v);
        }
      }
    }
  }

  // Both indexes of a finalized graph describe the same usable links.
  lemma FinalizedIsConsistent(nodes: seq<Node>, edges: seq<Edge>)
    requires Topology(nodes, edges)
    ensures Consistent(ViewOf(nodes, edges))
  {
    var view := ViewOf(nodes, edges);
    forall u, v | u in nodes
      ensures v in Neighbours(edges, u) ==> v in nodes
      ensures u != v ==> (v in view.neighs[u] <==> (u, v) in view.minEdges)
      ensures NoDup(view.neighs[u])
    {
      NeighboursAreUsable(edges, u);
      MinEdgeIsLeast(edges, u, v);
    }
    forall l | l in view.minEdges
      ensures Connects(view.minEdges[l], l.0, l.1) && 0 < view.minEdges[l].metric < INFINITE
    {
      MinEdgeIsLeast(edges, l.0, l.1);
    }
  }
}
