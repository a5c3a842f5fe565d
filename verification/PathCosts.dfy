/**
 * What the cost hooks make the engine minimise, in terms of the links' own metrics and delays.
 */
module PathCosts {
  import opened Basics
  import opened ShortestPaths
  import opened Graphs
  import opened Dijkstra
  import opened DijkstraProofs
  import opened DijkstraTheorems
  import opened Segments
  import opened SegmentTheorems
  import opened SegPaths
  import opened SegPathTheorems
  import opened PathShapes
  import opened DelayBound

  // The metrics of the links of a path, added up.
  ghost function Metrics(view: View, p: seq<Node>): nat
    requires Linked(view, p)
  {
    if |p| <= 1 then 0
    else Metrics(view, p[..|p| - 1]) + view.minEdges[(p[|p| - 2], p[|p| - 1])].metric
  }

  // A chain of links from s to t.
  ghost predicate Chain(view: View, s: Node, t: Node, p: seq<Node>) {
    |p| > 0 && p[0] == s && Last(p) == t && Linked(view, p)
  }

  lemma ChainIsWalk(view: View, ops: Ops, s: Node, t: Node, p: seq<Node>)
    requires s in view.nodes
    ensures Chain(view, s, t, p) <==> Joins(NetOf(view, ops), s, t, p)
  {
  }

  lemma {:induction false} CostIsSum(view: View, p: seq<Node>)
    requires |p| > 0 && p[0] in view.nodes && Linked(view, p)
    ensures IsWalk(NetOf(view, ByMetric), p) && Cost(NetOf(view, ByMetric), p) == Metrics(view, p)
    ensures IsWalk(NetOf(view, ByDelay), p) && Cost(NetOf(view, ByDelay), p) == Delay(view, p)
    decreases |p|
  {
    if |p| > 1 {
      CostIsSum(view, p[..|p| - 1]);
    }
  }

  // With the delay hook the path taken has the least total delay of all chains of links, and none is
  // found only if there is none.
  lemma LeastDelay(c: View, s: Node, t: Node)
    requires Additive(c, ByDelay) && s in c.nodes && t in c.nodes
    ensures FirstPath(c, ByDelay, s, t).Some? <==> exists q :: Chain(c, s, t, q)
    ensures FirstPath(c, ByDelay, s, t).Some? ==>
              var p := FirstPath(c, ByDelay, s, t).value;
              Chain(c, s, t, p) && forall q | Chain(c, s, t, q) :: Delay(c, p) <= Delay(c, q)
  {
    hide Consistent, NoOverflow, FirstPath, NetOf, Linked, IsWalk;
    var net := NetOf(c, ByDelay);
    FirstPathIsShortest(c, ByDelay, s, t);
    forall q
      ensures Chain(c, s, t, q) <==> Joins(net, s, t, q)
      ensures Chain(c, s, t, q) ==> Cost(net, q) == Delay(c, q)
    {
      ChainIsWalk(c, ByDelay, s, t, q);
      if Chain(c, s, t, q) {
        CostIsSum(c, q);
      }
    }
  }

  // Without a hook it has the least total metric.
  lemma LeastMetric(c: View, s: Node, t: Node)
    requires Additive(c, ByMetric) && s in c.nodes && t in c.nodes
    ensures FirstPath(c, ByMetric, s, t).Some? <==> exists q :: Chain(c, s, t, q)
    ensures FirstPath(c, ByMetric, s, t).Some? ==>
              var p := FirstPath(c, ByMetric, s, t).value;
              Chain(c, s, t, p) && forall q | Chain(c, s, t, q) :: Metrics(c, p) <= Metrics(c, q)
  {
    hide Consistent, NoOverflow, FirstPath, NetOf, Linked, IsWalk;
    var net := NetOf(c, ByMetric);
    FirstPathIsShortest(c, ByMetric, s, t);
    forall q
      ensures Chain(c, s, t, q) <==> Joins(net, s, t, q)
      ensures Chain(c, s, t, q) ==> Cost(net, q) == Metrics(c, q)
    {
      ChainIsWalk(c, ByMetric, s, t, q);
      if Chain(c, s, t, q) {
        CostIsSum(c, q);
      }
    }
  }

  // ------------------------------------------------------------ a bound that excludes nothing

  // No simple chain of links from src exceeds the bound.
  ghost predicate Loose(view: View, bound: u32, src: Node) {
    forall t, p | IsChainOf(view, src, t, p) :: Delay(view, p) <= bound
  }

  // The two runs differ in the delays they note only.
  ghost predicate Alike(s: State, t: State) {
    t == s.(delays := t.delays)
  }

  lemma SourceIsDone(view: View, src: Node, s: State)
    requires Ok(view, s) && Shaped(view, src, s) && s.done != []
    ensures src in s.done
  {
    hide Consistent, Layered, PrevSettled;
    assert src in view.nodes;
  }

  lemma ExtendsSimply(p: seq<Node>, v: Node)
    requires NoDup(p) && v !in p
    ensures NoDup(p + [v])
  {
  }

  // The way to a settled node and on to a queued one is a simple chain, so the link passes the test.
  lemma WayOn(view: View, bound: u32, src: Node, s: State, u: Node, v: Node)
    requires Ok(view, s) && DelayInv(view, bound, src, s) && Shaped(view, src, s) && Loose(view, bound, src)
    requires u in s.done && v in s.q && (u, v) in view.minEdges
    ensures Lookup(s.delays, u) + view.minEdges[(u, v)].delay <= bound
  {
    hide Consistent, DelayInv, Shaped, AllPaths, Linked, Delay, NoDup;
    FirstListDelay(view, bound, src, s, u);
    var l := AllPaths(s.prev, s.done, u)[0];
    var p := Forward(src, l);
    ShapedHasOneRoot(view, src, s);
    ListIsSimple(s.prev, s.done, src, u, l);
    ForwardIsSimple(src, l);
    SourceIsDone(view, src, s);
    assert v !in p by { NotOnTheWay(view, s, src, l, v); }
    ExtendsSimply(p, v);
    LinkedExtends(view, p, v);
    assert IsChainOf(view, src, v, p + [v]);
  }

  lemma NotOnTheWay(view: View, s: State, src: Node, l: seq<Node>, v: Node)
    requires Ok(view, s) && src in s.done && v in s.q && forall x | x in l :: x in s.done
    ensures v !in Forward(src, l)
  {
    hide Consistent, Layered, PrevSettled;
    ForwardMembers(src, l, v);
  }

  lemma {:induction false} ForwardMembers(src: Node, l: seq<Node>, v: Node)
    ensures v in Forward(src, l) ==> v == src || v in l
  {
    if l != [] {
      ForwardExtends(src, l);
      ForwardMembers(src, l[1..], v);
    }
  }

  lemma LooseTry(view: View, bound: u32, src: Node, s: State, t: State, u: Node, v: Node)
    requires Ok(view, s) && DelayInv(view, bound, src, s) && Shaped(view, src, s) && Loose(view, bound, src) && Alike(s, t)
    requires u in s.done && v in s.q && (u, v) in view.minEdges && u in s.dist && v in s.dist && v in s.prev
    ensures Alike(TryEdge(DelayBelow(bound), u, s, v, view.minEdges[(u, v)]), TryEdge(ByMetric, u, t, v, view.minEdges[(u, v)]))
  {
    hide DelayInv, Shaped, Loose, Tables;
    WayOn(view, bound, src, s, u, v);
    var e := view.minEdges[(u, v)];
    assert e.local == u;
    assert Alt(DelayBelow(bound), s.dist[u], e, s.delays) == Alt(ByMetric, t.dist[u], e, t.delays);
  }

  lemma AlikeIsOk(view: View, s: State, t: State)
    requires Ok(view, s) && Alike(s, t)
    ensures Ok(view, t)
  {
  }

  // What the bounded run keeps.
  ghost predicate Bounded(view: View, bound: u32, src: Node, s: State) {
    DelayInv(view, bound, src, s) && Shaped(view, src, s) && NoDelayWrap(view, bound) && Loose(view, bound, src)
  }

  lemma {:induction false} LooseRelaxAll(view: View, bound: u32, src: Node, s: State, t: State, u: Node, vs: seq<Node>)
    requires Ok(view, s) && Ok(view, t) && Bounded(view, bound, src, s) && Alike(s, t)
    requires u in s.done && u in view.nodes && u in view.neighs && forall v | v in vs :: v in view.neighs[u]
    ensures Alike(RelaxAll(view, DelayBelow(bound), u, s, vs), RelaxAll(view, ByMetric, u, t, vs))
    decreases |vs|
  {
    hide Ok, DelayInv, Shaped, NoDelayWrap, Loose, TryEdge;
    if vs != [] {
      var front, v := vs[..|vs| - 1], Last(vs);
      assert v in vs && forall x | x in front :: x in vs;
      LooseRelaxAll(view, bound, src, s, t, u, front);
      assert Consistent(view) by { OkIsConsistent(view, s); }
      DelayRelaxAll(view, bound, src, s, u, front);
      ShapedRelaxAll(view, DelayBelow(bound), src, s, u, front);
      var s1, t1 := RelaxAll(view, DelayBelow(bound), u, s, front), RelaxAll(view, ByMetric, u, t, front);
      NeighbourFacts(view, s1, u, v);
      if v in s1.q {
        LooseTry(view, bound, src, s1, t1, u, v);
      }
    }
  }

  lemma OkIsConsistent(view: View, s: State)
    requires Ok(view, s)
    ensures Consistent(view)
  {
  }

  lemma BoundedSettle(view: View, bound: u32, src: Node, s: State, i: nat)
    requires Ok(view, s) && Bounded(view, bound, src, s) && i < |s.q| && s.q[i] in s.dist && s.dist[s.q[i]] < INFINITE
    ensures Bounded(view, bound, src, Settle(view, s, i)) && Ok(view, Settle(view, s, i)) && s.q[i] in Settle(view, s, i).done
    ensures s.q[i] in view.nodes && s.q[i] in view.neighs
  {
    hide DelayInv, Shaped, NoDelayWrap, Loose, Settle;
    DelaySettle(view, bound, src, s, i);
    ShapedSettle(view, src, s, i);
    SettleOk(view, s, i);
    SettledLast(view, s, i);
    assert s.q[i] in s.q;
  }

  lemma AlikeSettle(view: View, s: State, t: State, i: nat)
    requires Ok(view, s) && Ok(view, t) && Alike(s, t) && i < |s.q|
    ensures Alike(Settle(view, s, i), Settle(view, t, i))
  {
  }

  lemma {:induction false} LooseRun(view: View, bound: u32, src: Node, s: State, t: State)
    requires Ok(view, s) && Ok(view, t) && Bounded(view, bound, src, s) && Alike(s, t)
    ensures Alike(Run(view, DelayBelow(bound), s), Run(view, ByMetric, t))
    decreases |s.q|
  {
    hide Ok, Bounded, Settle, RelaxAll;
    PickInTable(view, s);
    PickInTable(view, t);
    var i := Pick(s.dist, s.q);
    if i.Some? {
      var k := i.value;
      var u := s.q[k];
      BoundedSettle(view, bound, src, s, k);
      AlikeSettle(view, s, t, k);
      SettleOk(view, t, k);
      var s1, t1 := Settle(view, s, k), Settle(view, t, k);
      LooseRelaxAll(view, bound, src, s1, t1, u, view.neighs[u]);
      BoundedRelax(view, bound, src, s1, u);
      LooseRun(view, bound, src, Step(view, DelayBelow(bound), s, k), Step(view, ByMetric, t, k));
    }
  }

  lemma BoundedRelax(view: View, bound: u32, src: Node, s: State, u: Node)
    requires Ok(view, s) && Bounded(view, bound, src, s) && u in s.done && u in view.nodes && u in view.neighs
    ensures Bounded(view, bound, src, RelaxAll(view, DelayBelow(bound), u, s, view.neighs[u]))
  {
    hide DelayInv, Shaped, NoDelayWrap, Loose, Tables, RelaxAll;
    DelayRelaxAll(view, bound, src, s, u, view.neighs[u]);
    ShapedRelaxAll(view, DelayBelow(bound), src, s, u, view.neighs[u]);
  }

  // Under a delay bound that no simple chain exceeds, the bounded hook finds what plain metrics find.
  lemma LooseBoundIsMetric(view: View, bound: u32, src: Node)
    requires Consistent(view) && src in view.nodes && NoDelayWrap(view, bound) && Loose(view, bound, src)
    ensures Result(view, DelayBelow(bound), src) == Result(view, ByMetric, src)
  {
    hide DelayInv, Shaped, NoDelayWrap, Loose, Consistent, Init, Run;
    InitOk(view, src);
    DelayInit(view, bound, src);
    ShapedInit(view, src);
    LooseRun(view, bound, src, Init(view, src), Init(view, src));
  }
}
