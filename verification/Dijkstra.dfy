/**
 * The steps of graph_dijkstra as functions of its tables.  The method in PathEngine
 * runs exactly these steps; the lemmas in DijkstraProofs say what they compute.
 */
module Dijkstra {
  import opened Basics
  import opened ShortestPaths
  import opened Graphs

  // The cost hooks a caller can install: none, total delay, or metric under a delay bound.
  datatype Ops = ByMetric | ByDelay | DelayBelow(bound: u32)

  datatype Dres = Dres(dist: map<Node, u32>, prev: map<Node, seq<Node>>, path: map<Node, seq<seq<Node>>>)

  // The tables during a run: q holds the unsettled nodes, done the settled ones in order.
  datatype State = State(dist: map<Node, u32>,
                         prev: map<Node, seq<Node>>,
                         path: map<Node, seq<seq<Node>>>,
                         q: seq<Node>,
                         done: seq<Node>,
                         delays: map<Node, u32>)

  function Lookup(m: map<Node, u32>, n: Node): u32 {
    if n in m then m[n] else 0
  }

  // The weight the additive hooks add for an edge.
  function Weight(ops: Ops, e: Edge): u32 {
    if ops.ByDelay? then e.delay else e.metric
  }

  function Alt(ops: Ops, d: u32, e: Edge, delays: map<Node, u32>): u32 {
    if ops.DelayBelow? && Wrap32(Lookup(delays, e.local) + e.delay) > ops.bound then INFINITE
    else Wrap32(d + Weight(ops, e))
  }

  function Index(s: seq<Node>, x: Node): (i: nat)
    requires x in s
    ensures i < |s| && s[i] == x
    ensures forall j | 0 <= j < i :: s[j] != x
  {
    if s[0] == x then 0 else 1 + Index(s[1..], x)
  }

  // Every settled node's predecessors were settled before it.
  ghost predicate Layered(prev: map<Node, seq<Node>>, done: seq<Node>) {
    forall k | 0 <= k < |done| ::
      done[k] in prev && forall w | w in prev[done[k]] :: w in done[..k]
  }

  lemma EarlierIndex(prev: map<Node, seq<Node>>, done: seq<Node>, u: Node, w: Node)
    requires Layered(prev, done) && u in done && w in prev[u]
    ensures w in done && Index(done, w) < Index(done, u)
  {
    var k := Index(done, u);
    var j :| 0 <= j < k && done[..k][j] == w;
    assert done[j] == w;
  }

  function Prefixed(t: seq<Node>, ls: seq<seq<Node>>): (r: seq<seq<Node>>)
    ensures |r| == |ls| && forall i | 0 <= i < |r| :: r[i] == t + ls[i]
  {
    seq(|ls|, i requires 0 <= i < |ls| => t + ls[i])
  }

  // The lists compute_paths collects for u: back from u along prev, without the source.
  function AllPaths(prev: map<Node, seq<Node>>, done: seq<Node>, u: Node): seq<seq<Node>>
    requires Layered(prev, done) && u in done
    decreases Index(done, u), 1, 0
  {
    if prev[u] == [] then [[]] else Through(prev, done, u, prev[u])
  }

  function Through(prev: map<Node, seq<Node>>, done: seq<Node>, u: Node, ws: seq<Node>): seq<seq<Node>>
    requires Layered(prev, done) && u in done
    requires forall w | w in ws :: w in prev[u]
    decreases Index(done, u), 0, |ws|
  {
    if ws == [] then []
    else
      EarlierIndex(prev, done, u, Last(ws));
      Through(prev, done, u, ws[..|ws| - 1]) + Prefixed([u], AllPaths(prev, done, Last(ws)))
  }

  // The position of the first unsettled node of least finite distance.
  function Pick(dist: map<Node, u32>, q: seq<Node>): (r: Option<nat>)
    requires forall v | v in q :: v in dist
    ensures r.None? ==> forall i | 0 <= i < |q| :: dist[q[i]] == INFINITE
    ensures r.Some? ==>
              && r.value < |q| && dist[q[r.value]] < INFINITE
              && (forall i | 0 <= i < |q| :: dist[q[r.value]] <= dist[q[i]])
              && (forall i | 0 <= i < r.value :: dist[q[r.value]] < dist[q[i]])
  {
    if q == [] then None
    else
      var r := Pick(dist, q[..|q| - 1]);
      if dist[Last(q)] < (if r.Some? then dist[q[r.value]] else INFINITE) then Some(|q| - 1) else r
  }

  ghost predicate Keyed<T>(m: map<Node, T>, nodes: seq<Node>) {
    forall v :: v in m <==> v in nodes
  }

  // The queue and the settled nodes split the graph's nodes.
  ghost predicate Partition(nodes: seq<Node>, q: seq<Node>, done: seq<Node>) {
    && NoDup(q) && NoDup(done)
    && (forall v :: v in nodes <==> v in q || v in done)
    && (forall v | v in q :: v !in done)
  }

  ghost predicate PrevSettled(prev: map<Node, seq<Node>>, done: seq<Node>) {
    forall v, w | v in prev && w in prev[v] :: w in done
  }

  ghost predicate SamePrev(done: seq<Node>, prev: map<Node, seq<Node>>, prev': map<Node, seq<Node>>) {
    forall x | x in done :: x in prev && x in prev' && prev'[x] == prev[x]
  }

  // What holds of the tables whatever the costs are.
  ghost predicate Tables(nodes: seq<Node>, s: State) {
    && Keyed(s.dist, nodes) && Keyed(s.prev, nodes) && Keyed(s.path, nodes)
    && Partition(nodes, s.q, s.done)
    && PrevSettled(s.prev, s.done)
    && Layered(s.prev, s.done)
  }

  ghost predicate Ok(view: View, s: State) {
    Consistent(view) && Tables(view.nodes, s)
  }

  function Init(view: View, src: Node): State {
    State(map n | n in view.nodes :: (if n == src then 0 else INFINITE),
          map n | n in view.nodes :: [],
          map n | n in view.nodes :: [],
          view.nodes, [],
          map n | n in view.nodes :: (if n == src then 0 else INFINITE))
  }

  // Taking a node out of the queue records its paths and settles it.
  function Settle(view: View, s: State, i: nat): State
    requires Ok(view, s) && i < |s.q|
  {
    var u := s.q[i];
    SettleLayers(view, s, i);
    s.(q := s.q[..i] + s.q[i + 1..],
       done := s.done + [u],
       path := s.path[u := AllPaths(s.prev, s.done + [u], u)])
  }

  lemma SettleLayers(view: View, s: State, i: nat)
    requires Ok(view, s) && i < |s.q|
    ensures Layered(s.prev, s.done + [s.q[i]]) && s.q[i] in s.done + [s.q[i]]
  {
    var d := s.done + [s.q[i]];
    assert s.q[i] in view.nodes;
    forall k | 0 <= k < |d|
      ensures d[k] in s.prev && forall w | w in s.prev[d[k]] :: w in d[..k]
    {
      if k < |s.done| {
        assert d[..k] == s.done[..k];
      } else {
        assert d[..k] == s.done;
      }
    }
  }

  lemma RemoveFromQueue(nodes: seq<Node>, q: seq<Node>, done: seq<Node>, i: nat)
    requires Partition(nodes, q, done) && i < |q|
    ensures Partition(nodes, q[..i] + q[i + 1..], done + [q[i]])
  {
    var t, u := q[..i] + q[i + 1..], q[i];
    forall v
      ensures v in q <==> v in t || v == u
    {
      if v in q {
        var k :| 0 <= k < |q| && q[k] == v;
        if k < i { assert t[k] == v; } else if k > i { assert t[k - 1] == v; }
      }
    }
    assert u !in t;
  }

  lemma SettleOk(view: View, s: State, i: nat)
    requires Ok(view, s) && i < |s.q|
    ensures Ok(view, Settle(view, s, i))
  {
    SettleLayers(view, s, i);
    RemoveFromQueue(view.nodes, s.q, s.done, i);
    assert s.q[i] in view.nodes;
  }

  // Trying the edge e from the node u just settled to an unsettled neighbour v.
  function TryEdge(ops: Ops, u: Node, s: State, v: Node, e: Edge): State
    requires u in s.dist && v in s.dist && v in s.prev
  {
    var alt := Alt(ops, s.dist[u], e, s.delays);
    if alt < s.dist[v] then
      s.(prev := s.prev[v := [u]],
         dist := s.dist[v := alt],
         delays := if ops.DelayBelow?
                   then s.delays[e.remote := Wrap32(Lookup(s.delays, e.local) + e.delay)]
                   else s.delays)
    else if alt == s.dist[v] then
      s.(prev := s.prev[v := s.prev[v] + [u]])
    else s
  }

  // One neighbour v of the node u just settled.
  function Relax(view: View, ops: Ops, u: Node, s: State, v: Node): State
    requires u in s.dist && v in s.dist && v in s.prev
    requires v in s.q ==> (u, v) in view.minEdges
  {
    if v !in s.q then s else TryEdge(ops, u, s, v, view.minEdges[(u, v)])
  }

  lemma SettledPrevKept(prev: map<Node, seq<Node>>, done: seq<Node>, v: Node, ws: seq<Node>)
    requires Layered(prev, done) && PrevSettled(prev, done) && v !in done && v in prev
    requires forall w | w in ws :: w in done
    ensures Layered(prev[v := ws], done) && PrevSettled(prev[v := ws], done)
    ensures SamePrev(done, prev, prev[v := ws])
  {
  }

  // Rewriting the entries of one queued node keeps the tables in order.
  lemma UpdateTables(nodes: seq<Node>, s: State, t: State, v: Node, ws: seq<Node>, d: u32)
    requires Tables(nodes, s) && v in s.q && forall w | w in ws :: w in s.done
    requires t.q == s.q && t.done == s.done && t.path == s.path
    requires t.prev == s.prev[v := ws] && t.dist == s.dist[v := d]
    ensures Tables(nodes, t) && SamePrev(s.done, s.prev, t.prev)
  {
    assert v in nodes && v in s.prev && v !in s.done;
    SettledPrevKept(s.prev, s.done, v, ws);
  }

  lemma TryEdgeTables(ops: Ops, u: Node, s: State, v: Node, e: Edge, nodes: seq<Node>)
    requires Tables(nodes, s) && u in s.done && v in s.q && v in nodes
    ensures var t := TryEdge(ops, u, s, v, e);
      Tables(nodes, t) && t.q == s.q && t.done == s.done && t.path == s.path && SamePrev(s.done, s.prev, t.prev)
  {
    assert forall w | w in s.prev[v] + [u] :: w in s.done;
    assert SamePrev(s.done, s.prev, s.prev);
    hide Layered, PrevSettled, Partition, SamePrev, Alt;
    var t := TryEdge(ops, u, s, v, e);
    var alt := Alt(ops, s.dist[u], e, s.delays);
    if alt < s.dist[v] {
      UpdateTables(nodes, s, t, v, [u], alt);
    } else if alt == s.dist[v] {
      assert s.dist == s.dist[v := alt];
      UpdateTables(nodes, s, t, v, s.prev[v] + [u], alt);
    }
  }

  lemma RelaxOk(view: View, ops: Ops, u: Node, s: State, v: Node)
    requires Ok(view, s) && u in s.done && v in view.nodes
    requires v in s.q ==> (u, v) in view.minEdges
    ensures var t := Relax(view, ops, u, s, v);
      Ok(view, t) && t.q == s.q && t.done == s.done && t.path == s.path && SamePrev(s.done, s.prev, t.prev)
  {
    if v in s.q {
      TryEdgeTables(ops, u, s, v, view.minEdges[(u, v)], view.nodes);
    }
  }

  function RelaxAll(view: View, ops: Ops, u: Node, s: State, vs: seq<Node>): (t: State)
    requires Ok(view, s) && u in s.done
    requires forall v | v in vs :: v in view.neighs[u]
    ensures Ok(view, t) && t.q == s.q && t.done == s.done && t.path == s.path
    ensures SamePrev(s.done, s.prev, t.prev)
  {
    if vs == [] then s
    else
      var t := RelaxAll(view, ops, u, s, vs[..|vs| - 1]);
      assert Last(vs) in view.neighs[u];
      RelaxOk(view, ops, u, t, Last(vs));
      Relax(view, ops, u, t, Last(vs))
  }

  // One turn of the main loop that found a node to settle.
  function Step(view: View, ops: Ops, s: State, i: nat): (t: State)
    requires Ok(view, s) && i < |s.q|
    ensures Ok(view, t) && |t.q| == |s.q| - 1
  {
    SettleOk(view, s, i);
    RelaxAll(view, ops, s.q[i], Settle(view, s, i), view.neighs[s.q[i]])
  }

  lemma PickInTable(view: View, s: State)
    requires Ok(view, s)
    ensures forall v | v in s.q :: v in s.dist
  {
  }

  function Run(view: View, ops: Ops, s: State): (t: State)
    requires Ok(view, s)
    ensures Ok(view, t)
    decreases |s.q|
  {
    PickInTable(view, s);
    var i := Pick(s.dist, s.q);
    if i.None? then s else Run(view, ops, Step(view, ops, s, i.value))
  }

  lemma InitOk(view: View, src: Node)
    requires Consistent(view)
    ensures Ok(view, Init(view, src))
  {
  }

  function ResultOf(s: State): Dres {
    Dres(s.dist, s.prev, s.path)
  }

  // The tables graph_dijkstra returns.
  function Result(view: View, ops: Ops, src: Node): Dres
    requires Consistent(view)
  {
    InitOk(view, src);
    ResultOf(Run(view, ops, Init(view, src)))
  }
}
