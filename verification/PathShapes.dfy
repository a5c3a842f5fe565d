/**
 * What the recorded paths look like whatever the cost hook and even if sums wrap around: simple
 * chains of links from the source.
 */
module PathShapes {
  import opened Basics
  import opened ShortestPaths
  import opened Graphs
  import opened Dijkstra
  import opened DijkstraProofs
  import opened DijkstraTheorems
  import opened Segments
  import opened SegmentTheorems
  import opened SegPaths

  // The source is settled first and has no predecessor, every other node with a distance has one,
  // and predecessors are linked.
  ghost predicate Shaped(view: View, src: Node, s: State) {
    && src in s.dist && s.dist[src] == 0 && src in s.prev && s.prev[src] == []
    && (src in s.q ==> s.done == [])
    && (forall v | v in s.done :: v in s.dist && s.dist[v] < INFINITE)
    && (forall v | v in s.dist && v != src && s.dist[v] < INFINITE :: v in s.prev && s.prev[v] != [])
    && (forall v, w | v in s.prev && w in s.prev[v] :: (w, v) in view.minEdges)
  }

  lemma ShapedInit(view: View, src: Node)
    requires Consistent(view) && src in view.nodes
    ensures Shaped(view, src, Init(view, src))
  {
  }

  lemma ShapedSettle(view: View, src: Node, s: State, i: nat)
    requires Ok(view, s) && Shaped(view, src, s) && i < |s.q| && s.dist[s.q[i]] < INFINITE
    ensures Shaped(view, src, Settle(view, s, i))
  {
    hide AllPaths, Layered, Consistent;
    var u := s.q[i];
    RemoveFromQueue(view.nodes, s.q, s.done, i);
    SourceIsFirst(view, src, s, u);
  }

  lemma SourceIsFirst(view: View, src: Node, s: State, u: Node)
    requires Ok(view, s) && Shaped(view, src, s) && u in s.dist && s.dist[u] < INFINITE
    ensures src in s.q ==> u == src
  {
    hide Consistent, Layered, Partition;
    if u != src {
      assert s.prev[u][0] in s.prev[u];
      assert s.prev[u][0] in s.done;
    }
  }

  lemma ShapedTry(view: View, ops: Ops, src: Node, s: State, u: Node, v: Node)
    requires Ok(view, s) && Shaped(view, src, s) && u in s.done && v in s.q && (u, v) in view.minEdges
    requires u in s.dist && v in s.dist && v in s.prev
    ensures Shaped(view, src, TryEdge(ops, u, s, v, view.minEdges[(u, v)]))
  {
    hide Consistent, Layered, Alt;
    assert v != src;
  }

  lemma ShapedRelax(view: View, ops: Ops, src: Node, s: State, u: Node, v: Node)
    requires Ok(view, s) && Shaped(view, src, s) && u in s.done && v in view.nodes && (v in s.q ==> (u, v) in view.minEdges)
    requires u in s.dist && v in s.dist && v in s.prev
    ensures Shaped(view, src, Relax(view, ops, u, s, v))
  {
    hide Ok, Shaped, TryEdge;
    if v in s.q {
      ShapedTry(view, ops, src, s, u, v);
    }
  }

  lemma NeighbourFacts(view: View, s: State, u: Node, v: Node)
    requires Ok(view, s) && u in s.done && v in view.neighs[u]
    ensures v in view.nodes && u in s.dist && v in s.dist && v in s.prev && (v in s.q ==> (u, v) in view.minEdges)
  {
    assert u in view.nodes;
  }

  lemma {:induction false} ShapedRelaxAll(view: View, ops: Ops, src: Node, s: State, u: Node, vs: seq<Node>)
    requires Ok(view, s) && Shaped(view, src, s) && u in s.done && u in view.neighs && forall v | v in vs :: v in view.neighs[u]
    ensures Shaped(view, src, RelaxAll(view, ops, u, s, vs))
    decreases |vs|
  {
    hide Ok, Shaped, Relax;
    if vs != [] {
      var front := vs[..|vs| - 1];
      assert Last(vs) in vs && forall v | v in front :: v in vs;
      ShapedRelaxAll(view, ops, src, s, u, front);
      var t := RelaxAll(view, ops, u, s, front);
      NeighbourFacts(view, t, u, Last(vs));
      ShapedRelax(view, ops, src, t, u, Last(vs));
    }
  }

  lemma {:induction false} ShapedRun(view: View, ops: Ops, src: Node, s: State)
    requires Ok(view, s) && Shaped(view, src, s)
    ensures Shaped(view, src, Run(view, ops, s))
    decreases |s.q|
  {
    hide Consistent, Tables, Shaped, RelaxAll, Settle;
    PickInTable(view, s);
    var i := Pick(s.dist, s.q);
    if i.Some? {
      ShapedSettle(view, src, s, i.value);
      SettleOk(view, s, i.value);
      QueuedLinks(view, ByMetric, s, i.value);
      SettledLast(view, s, i.value);
      ShapedRelaxAll(view, ops, src, Settle(view, s, i.value), s.q[i.value], view.neighs[s.q[i.value]]);
      ShapedRun(view, ops, src, Step(view, ops, s, i.value));
    }
  }

  lemma SettledLast(view: View, s: State, i: nat)
    requires Ok(view, s) && i < |s.q|
    ensures s.q[i] in Settle(view, s, i).done
  {
  }

  // ------------------------------------------------------------ lists

  lemma ShapedHasOneRoot(view: View, src: Node, s: State)
    requires Ok(view, s) && Shaped(view, src, s)
    ensures OneRoot(s.prev, s.done, src)
  {
    assert forall v | v in s.done :: v in view.nodes;
  }

  lemma {:induction false} ListIsLinked(view: View, src: Node, s: State, v: Node, l: seq<Node>)
    requires Ok(view, s) && Shaped(view, src, s) && v in s.done && l in AllPaths(s.prev, s.done, v)
    ensures Linked(view, Forward(src, l)) && Last(Forward(src, l)) == v
    decreases |l|
  {
    hide Consistent, Partition, PrevSettled;
    ShapedHasOneRoot(view, src, s);
    ListHead(s.prev, s.done, src, v, l);
    if l == [] {
      assert Forward(src, l) == [src];
    } else {
      ThroughMember(s.prev, s.done, v, s.prev[v], l);
      var w :| w in s.prev[v] && w in s.done && l[1..] in AllPaths(s.prev, s.done, w);
      ListIsLinked(view, src, s, w, l[1..]);
      ForwardExtends(src, l);
      LinkOn(view, Forward(src, l[1..]), v);
    }
  }

  lemma LinkOn(view: View, p: seq<Node>, v: Node)
    requires Linked(view, p) && |p| > 0 && (Last(p), v) in view.minEdges
    ensures Linked(view, p + [v]) && Last(p + [v]) == v
  {
    var q := p + [v];
    forall i, j | 0 <= i < |q| - 1 && j == i + 1
      ensures (q[i], q[j]) in view.minEdges
    {
      assert j < |p| ==> q[i] == p[i] && q[j] == p[j];
    }
  }

  // A simple chain of links from one node to another.
  ghost predicate IsChainOf(view: View, s: Node, t: Node, p: seq<Node>) {
    |p| > 0 && p[0] == s && Last(p) == t && Linked(view, p) && NoDup(p)
  }

  // The path taken to a node, under any of the cost hooks.
  lemma FirstPathIsChain(view: View, ops: Ops, src: Node, t: Node)
    requires Consistent(view) && src in view.nodes && t in view.nodes && FirstPath(view, ops, src, t).Some?
    ensures IsChainOf(view, src, t, FirstPath(view, ops, src, t).value)
  {
    hide Consistent, Run, Init, Shaped, Linked;
    InitOk(view, src);
    ShapedInit(view, src);
    InitRecords(view, src);
    ShapedRun(view, ops, src, Init(view, src));
    RunRecords(view, ops, Init(view, src));
    var s := Run(view, ops, Init(view, src));
    var l := s.path[t][0];
    ShapedHasOneRoot(view, src, s);
    ListIsLinked(view, src, s, t, l);
    ListIsSimple(s.prev, s.done, src, t, l);
    ForwardIsSimple(src, l);
  }
}
