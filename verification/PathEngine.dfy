/**
 * The graph object of the controller and its operations, as they run: lists and maps
 * rewritten in loops, each loop tied to the function that specifies it.
 */
module PathEngine {
  import opened Basics
  import opened ShortestPaths
  import opened Graphs
  import opened Dijkstra
  import opened DijkstraTheorems
  import opened Segments
  import opened SegPaths
  import opened Bandwidth

  lemma PrefixedAppend(t: seq<Node>, u: Node, a: seq<seq<Node>>, b: seq<seq<Node>>)
    ensures Prefixed(t, a + Prefixed([u], b)) == Prefixed(t, a) + Prefixed(t + [u], b)
  {
    var l, r := Prefixed(t, a + Prefixed([u], b)), Prefixed(t, a) + Prefixed(t + [u], b);
    forall i | 0 <= i < |l| ensures l[i] == r[i] {
      if i >= |a| {
        assert t + ([u] + b[i - |a|]) == t + [u] + b[i - |a|];
      }
    }
  }

  // The lists collected through one more predecessor.
  lemma OneMorePredecessor(prev: map<Node, seq<Node>>, done: seq<Node>, u: Node, i: nat, tmp: seq<Node>)
    requires Layered(prev, done) && u in done && i < |prev[u]|
    ensures prev[u][i] in done && Index(done, prev[u][i]) < Index(done, u)
    ensures forall k | 0 <= k <= |prev[u]| :: forall x | x in prev[u][..k] :: x in prev[u]
    ensures Prefixed(tmp, Through(prev, done, u, prev[u][..i + 1])) ==
            Prefixed(tmp, Through(prev, done, u, prev[u][..i])) + Prefixed(tmp + [u], AllPaths(prev, done, prev[u][i]))
  {
    var w := prev[u];
    EarlierIndex(prev, done, u, w[i]);
    assert w[..i + 1][..i] == w[..i];
    PrefixedAppend(tmp, u, Through(prev, done, u, w[..i]), AllPaths(prev, done, w[i]));
  }

  // Appends to res the lists that lead back from u, each after tmp.
  method ComputePaths(res: seq<seq<Node>>, tmp: seq<Node>, prev: map<Node, seq<Node>>, u: Node, ghost done: seq<Node>)
    returns (out: seq<seq<Node>>)
    requires Layered(prev, done) && u in done
    ensures out == res + Prefixed(tmp, AllPaths(prev, done, u))
    decreases Index(done, u)
  {
    hide Through, AllPaths, Layered, Prefixed;
    PredecessorEnds(prev, done, u, tmp);
    var w := prev[u];
    if w == [] {
      return res + [tmp];
    }
    var longer := tmp + [u];
    out := res;
    assert w[..0] == [] && w[..|w|] == w;
    for i := 0 to |w|
      invariant forall x | x in w[..i] :: x in prev[u]
      invariant out == res + Prefixed(tmp, Through(prev, done, u, w[..i]))
    {
      OneMorePredecessor(prev, done, u, i, tmp);
      out := ComputePaths(out, longer, prev, w[i], done);
    }
  }

  lemma PredecessorEnds(prev: map<Node, seq<Node>>, done: seq<Node>, u: Node, tmp: seq<Node>)
    requires Layered(prev, done) && u in done
    ensures u in prev
    ensures prev[u] == [] ==> Prefixed(tmp, AllPaths(prev, done, u)) == [tmp]
    ensures prev[u] != [] ==> AllPaths(prev, done, u) == Through(prev, done, u, prev[u])
    ensures Prefixed(tmp, Through(prev, done, u, [])) == []
  {
    assert tmp + [] == tmp;
  }

  // The scan of the queue for the node to settle.
  method PickLeast(dist: map<Node, u32>, q: seq<Node>) returns (r: Option<nat>)
    requires forall v | v in q :: v in dist
    ensures r == Pick(dist, q)
  {
    r := None;
    var least := INFINITE;
    for i := 0 to |q|
      invariant r == Pick(dist, q[..i])
      invariant least == if r.Some? then dist[q[r.value]] else INFINITE
    {
      assert q[..i + 1][..i] == q[..i];
      if dist[q[i]] < least {
        least := dist[q[i]];
        r := Some(i);
      }
    }
    assert q[..|q|] == q;
  }

  // One turn of the pruning loop, on the list as it stands.
  lemma PruneTurn(was: seq<Edge>, k: nat, bw: u32, now: seq<Edge>, i: nat)
    requires k < |was| && now == Pruned(was[..k], bw) + was[k..] && i == |Pruned(was[..k], bw)|
    ensures i < |now| && now[i] == was[k]
    ensures was[k].avaBw < bw ==>
              now[..i] + now[i + 1..] == Pruned(was[..k + 1], bw) + was[k + 1..] && i == |Pruned(was[..k + 1], bw)|
    ensures was[k].avaBw >= bw ==>
              now == Pruned(was[..k + 1], bw) + was[k + 1..] && i + 1 == |Pruned(was[..k + 1], bw)|
  {
    assert was[..k + 1][..k] == was[..k];
  }

  // An offer to one queued neighbour.
  method TryNeighbour(u: Node, v: Node, e: Edge, ops: Ops,
                      dist: map<Node, u32>, prev: map<Node, seq<Node>>, delays: map<Node, u32>, ghost s: State)
    returns (dist': map<Node, u32>, prev': map<Node, seq<Node>>, delays': map<Node, u32>)
    requires u in dist && v in dist && v in prev
    requires dist == s.dist && prev == s.prev && delays == s.delays
    ensures var t := TryEdge(ops, u, s, v, e); dist' == t.dist && prev' == t.prev && delays' == t.delays
  {
    dist', prev', delays' := dist, prev, delays;
    var alt := Alt(ops, dist[u], e, delays);
    if alt < dist[v] {
      prev' := prev[v := [u]];
      dist' := dist[v := alt];
      if ops.DelayBelow? {
        delays' := delays[e.remote := Wrap32(Lookup(delays, e.local) + e.delay)];
      }
    } else if alt == dist[v] {
      prev' := prev[v := prev[v] + [u]];
    }
  }

  lemma RelaxNone(view: View, ops: Ops, u: Node, s: State)
    requires Ok(view, s) && u in s.done
    ensures RelaxAll(view, ops, u, s, []) == s
  {
  }

  lemma RelaxOneMore(view: View, ops: Ops, u: Node, s: State, ns: seq<Node>, k: nat)
    requires Ok(view, s) && u in s.done && u in view.neighs && ns == view.neighs[u] && k < |ns|
    ensures ns[k] in view.nodes && u in view.nodes
    ensures ns[k] in s.q ==> (u, ns[k]) in view.minEdges
    ensures forall v | v in ns[..k + 1] :: v in view.neighs[u]
    ensures var t := RelaxAll(view, ops, u, s, ns[..k]);
      && t.q == s.q && Tables(view.nodes, t) && ns[k] in t.dist && ns[k] in t.prev && u in t.dist
      && RelaxAll(view, ops, u, s, ns[..k + 1]) == Relax(view, ops, u, t, ns[k])
  {
    var m := ns[..k + 1];
    assert m[..|m| - 1] == ns[..k] && Last(m) == ns[k] && ns[k] in view.neighs[u];
  }

  ghost predicate ExactCache(view: View, dcache: map<Node, Dres>)
    requires Consistent(view)
  {
    forall n | n in dcache :: dcache[n] == Result(view, ByMetric, n)
  }

  class Graph {
    var nodes: seq<Node>
    var edges: seq<Edge>
    var minEdges: map<(Node, Node), Edge>
    var neighs: map<Node, seq<Node>>
    var dcache: map<Node, Dres>
    var dirty: bool
    var cloned: bool
    var lastNode: nat
    var lastEdge: nat

    // An empty graph, whose empty indexes already agree with it.
    constructor ()
      ensures nodes == [] && edges == [] && dcache == map[] && !dirty && !cloned && lastNode == 0 && lastEdge == 0
      ensures Finalized()
    {
      nodes, edges, minEdges, neighs, dcache := [], [], map[], map[], map[];
      dirty, cloned := false, false;
      lastNode, lastEdge := 0, 0;
    }

    // A new node, numbered one past the last.
    method AddNode() returns (n: Node)
      modifies this`nodes, this`lastNode, this`dirty
      ensures n == lastNode == old(lastNode) + 1 && nodes == old(nodes) + [n] && dirty
    {
      lastNode := lastNode + 1;
      n := lastNode;
      nodes := nodes + [n];
      dirty := true;
    }

    // A new edge and, for a symmetric one, before it the edge the other way with the same data.
    method AddEdge(local: Node, remote: Node, metric: u32, sym: bool, bw: u32, avaBw: u32, delay: u32, from: nat, to: nat)
      modifies this`edges, this`lastEdge, this`dirty
      ensures lastEdge == old(lastEdge) + (if sym then 2 else 1) && dirty
      ensures edges == old(edges)
                       + (if sym then [Edge(lastEdge - 1, remote, local, metric, bw, avaBw, delay, from, to)] else [])
                       + [Edge(lastEdge, local, remote, metric, bw, avaBw, delay, from, to)]
      decreases sym
    {
      if sym {
        AddEdge(remote, local, metric, false, bw, avaBw, delay, from, to);
      }
      lastEdge := lastEdge + 1;
      edges := edges + [Edge(lastEdge, local, remote, metric, bw, avaBw, delay, from, to)];
      dirty := true;
    }

    // The position of the first edge between the two addresses, or past the end.
    method FindEdge(from: nat, to: nat) returns (k: nat)
      ensures k <= |edges| && (k < |edges| ==> edges[k].from == from && edges[k].to == to)
      ensures forall i | 0 <= i < k :: !(edges[i].from == from && edges[i].to == to)
    {
      k := 0;
      while k < |edges| && !(edges[k].from == from && edges[k].to == to)
        invariant k <= |edges|
        invariant forall i | 0 <= i < k :: !(edges[i].from == from && edges[i].to == to)
      {
        k := k + 1;
      }
    }

    // The position of the first edge with the number, or past the end.
    method FindEdgeById(id: nat) returns (k: nat)
      ensures k <= |edges| && (k < |edges| ==> edges[k].id == id)
      ensures forall i | 0 <= i < k :: edges[i].id != id
    {
      k := 0;
      while k < |edges| && edges[k].id != id
        invariant k <= |edges| && forall i | 0 <= i < k :: edges[i].id != id
      {
        k := k + 1;
      }
    }

    // Takes the edge out of the list, if it is there.
    method RemoveEdge(e: Edge)
      modifies this`edges, this`dirty
      ensures TakenOut(old(edges), edges, e) && dirty == (old(dirty) || e in old(edges))
    {
      var k := 0;
      while k < |edges| && edges[k] != e
        invariant k <= |edges| && e !in edges[..k]
      {
        k := k + 1;
      }
      if k == |edges| {
        return;
      }
      assert e in edges;
      edges := edges[..k] + edges[k + 1..];
      dirty := true;
    }

    // Takes the node out of the list, and with it every edge from or to it.
    method RemoveNode(n: Node)
      modifies this`nodes, this`edges, this`dirty
      ensures TakenOut(old(nodes), nodes, n) && dirty == (old(dirty) || n in old(nodes))
      ensures edges == if n in old(nodes) then Apart(old(edges), n) else old(edges)
    {
      var k := 0;
      while k < |nodes| && nodes[k] != n
        invariant k <= |nodes| && n !in nodes[..k]
      {
        k := k + 1;
      }
      if k == |nodes| {
        return;
      }
      assert n in nodes;
      RemoveEdgesOf(n);
      nodes := nodes[..k] + nodes[k + 1..];
      dirty := true;
    }

    method RemoveEdgesOf(n: Node)
      modifies this`edges
      ensures edges == Apart(old(edges), n)
    {
      ghost var was := edges;
      var i := 0;
      ghost var k := 0;
      while i < |edges|
        invariant 0 <= k <= |was| && edges == Apart(was[..k], n) + was[k..] && i == |Apart(was[..k], n)|
        decreases |edges| - i
      {
        ApartTurn(was, k, n, edges, i);
        if edges[i].local == n || edges[i].remote == n {
          edges := edges[..i] + edges[i + 1..];
        } else {
          i := i + 1;
        }
        k := k + 1;
      }
      assert was[..k] == was;
    }

    // A copy with its own nodes and edges, of the same numbers.
    method DeepCopy() returns (g: Graph)
      ensures fresh(g) && g.nodes == nodes && g.edges == edges && g.lastNode == lastNode && g.lastEdge == lastEdge
      ensures !g.cloned && g.dcache == map[]
    {
      g := new Graph();
      g.lastNode, g.lastEdge := lastNode, lastEdge;
      for i := 0 to |nodes|
        invariant fresh(g) && g.nodes == nodes[..i] && g.edges == [] && g.dcache == map[] && !g.cloned
        invariant g.lastNode == lastNode && g.lastEdge == lastEdge
      {
        g.nodes := g.nodes + [nodes[i]];
      }
      for i := 0 to |edges|
        invariant fresh(g) && g.nodes == nodes && g.edges == edges[..i] && g.dcache == map[] && !g.cloned
        invariant g.lastNode == lastNode && g.lastEdge == lastEdge
      {
        var e := edges[i];
        g.edges := g.edges + [Edge(e.id, e.local, e.remote, e.metric, e.bw, e.avaBw, e.delay, e.from, e.to)];
      }
    }

    function Now(): View
      reads this
    {
      View(nodes, minEdges, neighs)
    }

    // The indexes agree with the nodes and edges.
    ghost predicate Finalized()
      reads this
    {
      Topology(nodes, edges) && Now() == ViewOf(nodes, edges) && Consistent(Now())
    }

    // Every cached result is the one a fresh run would give.
    ghost predicate CacheExact()
      reads this
      requires Finalized()
    {
      ExactCache(Now(), dcache)
    }

    method GetMinimalEdge(u: Node, v: Node) returns (r: Option<Edge>)
      ensures r == MinEdge(edges, u, v)
    {
      r := None;
      var metric := INFINITE;
      for i := 0 to |edges|
        invariant r == MinEdge(edges[..i], u, v)
        invariant metric == MetricOr(r)
      {
        assert edges[..i + 1][..i] == edges[..i];
        var e := edges[i];
        if e.local == u && e.remote == v && e.metric < metric {
          r := Some(e);
          metric := e.metric;
        }
      }
      assert edges[..|edges|] == edges;
    }

    method ComputeNeighbours(u: Node) returns (r: seq<Node>)
      ensures r == Neighbours(edges, u)
    {
      r := [];
      for i := 0 to |edges|
        invariant r == Neighbours(edges[..i], u)
      {
        assert edges[..i + 1][..i] == edges[..i];
        var e := edges[i];
        if e.local == u && e.metric != INFINITE && e.remote !in r {
          r := r + [e.remote];
        }
      }
      assert edges[..|edges|] == edges;
    }

    method ComputeMinimalEdges()
      requires NoDup(nodes)
      modifies this`minEdges
      ensures minEdges == MinEdgesOf(nodes, edges)
    {
      minEdges := map[];
      for i := 0 to |nodes|
        invariant forall l | l in minEdges :: Some(minEdges[l]) == MinEdge(edges, l.0, l.1)
        invariant forall u, v :: (u, v) in minEdges <==>
          u in nodes[..i] && v in nodes && u != v && MinEdge(edges, u, v).Some?
      {
        MinimalEdgesFrom(i);
        assert nodes[..i + 1] == nodes[..i] + [nodes[i]];
      }
      assert nodes[..|nodes|] == nodes;
    }

    // The inner loop: all pairs that start at node i.
    method MinimalEdgesFrom(i: nat)
      requires i < |nodes| && NoDup(nodes)
      requires forall l | l in minEdges :: Some(minEdges[l]) == MinEdge(edges, l.0, l.1)
      requires forall v :: (nodes[i], v) !in minEdges
      modifies this`minEdges
      ensures forall l | l in minEdges :: Some(minEdges[l]) == MinEdge(edges, l.0, l.1)
      ensures forall u, v | u != nodes[i] :: (u, v) in minEdges <==> (u, v) in old(minEdges)
      ensures forall v :: (nodes[i], v) in minEdges <==>
                v in nodes && nodes[i] != v && MinEdge(edges, nodes[i], v).Some?
    {
      var u := nodes[i];
      for j := 0 to |nodes|
        invariant forall l | l in minEdges :: Some(minEdges[l]) == MinEdge(edges, l.0, l.1)
        invariant forall x, v | x != u :: (x, v) in minEdges <==> (x, v) in old(minEdges)
        invariant forall v :: (u, v) in minEdges <==> v in nodes[..j] && u != v && MinEdge(edges, u, v).Some?
      {
        var v := nodes[j];
        assert nodes[..j + 1] == nodes[..j] + [v];
        if u != v {
          var e := GetMinimalEdge(u, v);
          if e.Some? {
            MinEdgeIsLeast(edges, u, v);
            minEdges := minEdges[(e.value.local, e.value.remote) := e.value];
          }
        }
      }
      assert nodes[..|nodes|] == nodes;
    }

    method ComputeAllNeighbours()
      modifies this`neighs
      ensures neighs == NeighboursOf(nodes, edges)
    {
      neighs := map[];
      for i := 0 to |nodes|
        invariant neighs == NeighboursOf(nodes[..i], edges)
      {
        var r := ComputeNeighbours(nodes[i]);
        neighs := neighs[nodes[i] := r];
        assert nodes[..i + 1] == nodes[..i] + [nodes[i]];
      }
      assert nodes[..|nodes|] == nodes;
    }

    method Finalize()
      requires Topology(nodes, edges)
      modifies this`minEdges, this`neighs, this`dirty
      ensures Finalized() && !dirty
    {
      ComputeMinimalEdges();
      ComputeAllNeighbours();
      dirty := false;
      FinalizedIsConsistent(nodes, edges);
    }

    // A shallow copy: the same nodes and edges, no indexes yet.
    method Clone() returns (g: Graph)
      ensures fresh(g) && g.nodes == nodes && g.edges == edges && g.cloned && g.dcache == map[]
    {
      g := new Graph();
      for i := 0 to |nodes|
        invariant fresh(g) && g.nodes == nodes[..i] && g.edges == [] && g.dcache == map[]
      {
        g.nodes := g.nodes + [nodes[i]];
      }
      for i := 0 to |edges|
        invariant fresh(g) && g.nodes == nodes && g.edges == edges[..i] && g.dcache == map[]
      {
        g.edges := g.edges + [edges[i]];
      }
      g.cloned := true;
    }

    // Removes the edges that cannot carry bw; returns how many.
    method Prune(bw: u32) returns (removed: nat)
      modifies this`edges
      ensures edges == Pruned(old(edges), bw)
      ensures removed == |old(edges)| - |edges|
    {
      removed := 0;
      ghost var was := edges;
      var i := 0;
      ghost var k := 0;
      while i < |edges|
        invariant 0 <= k <= |was| && edges == Pruned(was[..k], bw) + was[k..]
        invariant i == |Pruned(was[..k], bw)| && removed == |was| - |edges|
        decreases |edges| - i
      {
        PruneTurn(was, k, bw, edges, i);
        if edges[i].avaBw < bw {
          edges := edges[..i] + edges[i + 1..];
          removed := removed + 1;
        } else {
          i := i + 1;
        }
        k := k + 1;
      }
      assert was[..k] == was;
    }

    // The neighbour loop of graph_dijkstra for the node u just settled.
    method RelaxNeighbours(u: Node, ops: Ops, dist: map<Node, u32>, prev: map<Node, seq<Node>>, delays: map<Node, u32>,
                           q: seq<Node>, ghost s: State)
      returns (dist': map<Node, u32>, prev': map<Node, seq<Node>>, delays': map<Node, u32>)
      requires Ok(Now(), s) && u in s.done
      requires dist == s.dist && prev == s.prev && delays == s.delays && q == s.q
      ensures u in neighs
      ensures var t := RelaxAll(Now(), ops, u, s, neighs[u]);
        dist' == t.dist && prev' == t.prev && delays' == t.delays
    {
      hide RelaxAll, TryEdge, Layered, PrevSettled;
      ghost var view := Now();
      dist', prev', delays' := dist, prev, delays;
      var ns := neighs[u];
      RelaxNone(view, ops, u, s);
      for k := 0 to |ns|
        invariant forall v | v in ns[..k] :: v in view.neighs[u]
        invariant var t := RelaxAll(view, ops, u, s, ns[..k]); dist' == t.dist && prev' == t.prev && delays' == t.delays
      {
        RelaxOneMore(view, ops, u, s, ns, k);
        var v := ns[k];
        if v in q {
          assert (u, v) in minEdges;
          dist', prev', delays' :=
            TryNeighbour(u, v, minEdges[(u, v)], ops, dist', prev', delays', RelaxAll(view, ops, u, s, ns[..k]));
        }
      }
      assert ns[..|ns|] == ns;
    }

    method InitTables(src: Node)
      returns (dist: map<Node, u32>, prev: map<Node, seq<Node>>, path: map<Node, seq<seq<Node>>>,
               delays: map<Node, u32>, q: seq<Node>)
      ensures var s := Init(Now(), src);
        dist == s.dist && prev == s.prev && path == s.path && delays == s.delays && q == s.q
    {
      dist, prev, path, delays, q := map[], map[], map[], map[], [];
      for i := 0 to |nodes|
        invariant q == nodes[..i]
        invariant dist == map n | n in nodes[..i] :: (if n == src then 0 else INFINITE)
        invariant delays == dist
        invariant prev == map n | n in nodes[..i] :: []
        invariant path == map n | n in nodes[..i] :: []
      {
        var n := nodes[i];
        assert nodes[..i + 1] == nodes[..i] + [n];
        dist := dist[n := if n == src then 0 else INFINITE];
        delays := delays[n := if n == src then 0 else INFINITE];
        prev := prev[n := []];
        path := path[n := []];
        q := q + [n];
      }
      assert nodes[..|nodes|] == nodes;
    }

    // Settles the i-th queued node and relaxes its links.
    method SettleNext(i: nat, ops: Ops, dist: map<Node, u32>, prev: map<Node, seq<Node>>, path: map<Node, seq<seq<Node>>>,
                      delays: map<Node, u32>, q: seq<Node>, ghost s: State)
      returns (dist': map<Node, u32>, prev': map<Node, seq<Node>>, path': map<Node, seq<seq<Node>>>,
               delays': map<Node, u32>, q': seq<Node>)
      requires Ok(Now(), s) && i < |s.q|
      requires dist == s.dist && prev == s.prev && path == s.path && delays == s.delays && q == s.q
      ensures var t := Step(Now(), ops, s, i);
        dist' == t.dist && prev' == t.prev && path' == t.path && delays' == t.delays && q' == t.q
    {
      ghost var m := Settle(Now(), s, i);
      SettleLayers(Now(), s, i);
      SettleOk(Now(), s, i);
      var u := q[i];
      var lists := ComputePaths([], [], prev, u, s.done + [u]);
      UnprefixedLists(lists, AllPaths(prev, s.done + [u], u));
      path' := path[u := lists];
      q' := q[..i] + q[i + 1..];
      dist', prev', delays' := RelaxNeighbours(u, ops, dist, prev, delays, q', m);
    }

    method Dijkstra(src: Node, ops: Ops) returns (r: Dres)
      requires Finalized()
      ensures r == Result(Now(), ops, src)
    {
      InitOk(Now(), src);
      ghost var s := Init(Now(), src);
      var dist, prev, path, delays, q := InitTables(src);
      while q != []
        invariant Ok(Now(), s) && Run(Now(), ops, s) == Run(Now(), ops, Init(Now(), src))
        invariant dist == s.dist && prev == s.prev && path == s.path && delays == s.delays && q == s.q
        decreases |q|
      {
        PickInTable(Now(), s);
        var i := PickLeast(dist, q);
        if i.None? {
          break;
        }
        dist, prev, path, delays, q := SettleNext(i.value, ops, dist, prev, path, delays, q, s);
        s := Step(Now(), ops, s, i.value);
      }
      r := Dres(dist, prev, path);
    }

    method BuildCache()
      requires Finalized()
      modifies this`dcache
      ensures Finalized() && CacheExact()
      ensures forall n | n in nodes :: n in dcache
    {
      hide Topology, Consistent, ViewOf, Result;
      ghost var view := Now();
      dcache := map[];
      for i := 0 to |nodes|
        invariant Now() == view && ExactCache(view, dcache)
        invariant forall n | n in nodes[..i] :: n in dcache
      {
        var r := Dijkstra(nodes[i], ByMetric);
        dcache := dcache[nodes[i] := r];
      }
    }

    // A cached result if there is one, a fresh one otherwise.
    method ResultFor(n: Node) returns (r: Dres)
      requires Finalized() && CacheExact()
      ensures r == Result(Now(), ByMetric, n)
    {
      if n in dcache {
        r := dcache[n];
      } else {
        r := Dijkstra(n, ByMetric);
      }
    }

    // Appends to base the segments for path; fails when a link is missing.
    method MinSeg(path: seq<Node>, base: seq<Segment>) returns (ok: bool, res: seq<Segment>)
      requires Finalized() && CacheExact() && InGraph(Now(), path)
      ensures path == [] ==> ok && res == base
      ensures path != [] ==> var m := MinSegs(Now(), path, |path| - 1); ok == m.ok && res == base + m.segs
    {
      hide Topology, Consistent, ViewOf, Hop, InGraph, ExactCache, MinSegs;
      res := base;
      ok := true;
      if path == [] {
        return;
      }
      FirstSegs(Now(), path);
      ghost var view := Now();
      var from := path[0];
      var i := 0;
      while i < |path| - 1 && ok
        invariant 0 <= i < |path|
        invariant var s := MinSegs(view, path, i); res == base + s.segs && from == s.from && ok == s.ok
        invariant !ok ==> MinSegs(view, path, |path| - 1) == MinSegs(view, path, i)
      {
        ghost var s := MinSegs(view, path, i);
        NextSegs(view, path, i);
        var more;
        ok, more, from := OneHop(path[i], path[i + 1], from, s);
        res := res + more;
        i := i + 1;
        if !ok {
          StuckSegs(view, path, i, |path| - 1);
        }
      }
    }

    // The body of graph_minseg's loop.
    method OneHop(x: Node, y: Node, from: Node, ghost s: Progress)
      returns (ok: bool, more: seq<Segment>, from': Node)
      requires Finalized() && CacheExact() && y in nodes && s.ok && s.from == from
      ensures Hop(Now(), s, x, y) == Progress(s.segs + more, from', ok)
    {
      hide Consistent, Topology, ViewOf, PrevOf, OverLink, ExactCache;
      ghost var view := Now();
      var fromX := PrevList(x, y);
      var fromR := PrevList(from, y);
      if x !in fromR {
        if |fromX| == 1 {
          ok, more, from' := true, [NodeSegment(x)], x;
        } else {
          ok, more, from' := LinkSegments(x, y, from, s);
        }
      } else if |fromR| <= 1 {
        ok, more, from' := true, [], from;
        assert s.segs + [] == s.segs;
      } else if |fromX| > 1 {
        ok, more, from' := LinkSegments(x, y, from, s);
      } else {
        ok, more, from' := true, [NodeSegment(x)], x;
      }
    }

    method PrevList(n: Node, y: Node) returns (l: seq<Node>)
      requires Finalized() && CacheExact() && y in nodes
      ensures l == PrevOf(Now(), n, y)
    {
      InitOk(Now(), n);
      var r := ResultFor(n);
      l := r.prev[y];
    }

    // A node segment for x and an adjacency segment for the link to y, if there is one.
    method LinkSegments(x: Node, y: Node, from: Node, ghost s: Progress)
      returns (ok: bool, more: seq<Segment>, from': Node)
      requires s.ok && s.from == from
      ensures OverLink(Now(), s, x, y) == Progress(s.segs + more, from', ok)
    {
      ok, more, from' := false, [NodeSegment(x)], from;
      if (x, y) in minEdges {
        ok, from' := true, y;
        more := more + [AdjSegment(minEdges[(x, y)])];
      }
    }

    method EdgePath(path: seq<Node>) returns (r: Option<seq<Edge>>)
      ensures r == NodesToEdges(minEdges, path)
    {
      if path == [] {
        return Some([]);
      }
      var es := [];
      for i := 1 to |path|
        invariant NodesToEdges(minEdges, path[..i]) == Some(es)
      {
        assert path[..i + 1][..i] == path[..i];
        if (path[i - 1], path[i]) !in minEdges {
          MissingHop(minEdges, path, i + 1);
          return None;
        }
        es := es + [minEdges[(path[i - 1], path[i])]];
      }
      assert path[..|path|] == path;
      return Some(es);
    }

    // The graph to search in: a pruned, finalized copy.
    method PrunedCopy(bw: u32) returns (g: Graph)
      requires Finalized()
      ensures fresh(g) && g.Finalized() && g.nodes == nodes && g.edges == Pruned(edges, bw)
    {
      g := Clone();
      PrunedTopology(nodes, edges, bw);
      if bw != 0 {
        var _ := g.Prune(bw);
      } else {
        NothingPruned(edges);
      }
      g.Finalize();
    }

    // The segments, and the edge path stored with the flow, for a trip from src by way of via
    // to dst; none when some leg has no path.
    method BuildSegpath(src: Node, via: seq<Node>, dst: Node, bw: u32, ops: Ops)
      returns (r: Option<seq<Segment>>, epath: Option<seq<Edge>>)
      requires Finalized() && CacheExact() && src in nodes && InGraph(Now(), via + [dst])
      ensures Consistent(ViewOf(nodes, Pruned(edges, bw)))
      ensures var t := Legs(Now(), ViewOf(nodes, Pruned(edges, bw)), ops, Trip([], [], src), via + [dst]);
        && (r.Some? <==> t.Some?)
        && (t.Some? ==> r.value == t.value.segs && epath == NodesToEdges(minEdges, Flat(t.value.legs)))
    {
      hide Topology, Consistent, ViewOf, Leg, Legs, ExactCache, NodesToEdges, InGraph;
      var gc := PrunedCopy(bw);
      SameNodes(Now(), gc.Now(), via + [dst]);
      ghost var g, c := Now(), gc.Now();
      var targets := via + [dst];
      var segs, fpath, cur := [], [], src;
      ghost var trip := Trip([], [], src);
      FirstLegs(g, c, ops, src);
      for i := 0 to |targets|
        invariant gc.Finalized() && gc.Now() == c && gc.nodes == nodes
        invariant InGraph(c, targets[..i]) && cur in c.nodes
        invariant Legs(g, c, ops, Trip([], [], src), targets[..i]) == Some(trip)
        invariant segs == trip.segs && fpath == Flat(trip.legs) && cur == trip.cur
      {
        var t := targets[i];
        NextLegs(g, c, ops, src, targets, i);
        var ok, segs', rev := OneLeg(gc, ops, cur, t, segs, trip);
        if !ok {
          DeadTrip(g, c, ops, src, targets, i + 1);
          return None, None;
        }
        trip := Leg(g, c, ops, trip, t).value;
        segs, fpath, cur := segs', fpath + rev, t;
      }
      assert targets[..|targets|] == targets;
      r := Some(segs);
      epath := EdgePath(fpath);
    }

    // One waypoint: a path in gc, compiled against this graph.
    method OneLeg(gc: Graph, ops: Ops, cur: Node, t: Node, segs: seq<Segment>, ghost trip: Trip)
      returns (ok: bool, segs': seq<Segment>, rev: seq<Node>)
      requires Finalized() && CacheExact() && gc.Finalized() && gc.nodes == nodes
      requires cur in nodes && t in nodes && trip.cur == cur && trip.segs == segs
      ensures var l := Leg(Now(), gc.Now(), ops, trip, t);
        && (ok <==> l.Some?)
        && (ok ==> l.value.segs == segs' && l.value.cur == t && Flat(l.value.legs) == Flat(trip.legs) + rev)
    {
      hide Topology, ViewOf, ExactCache, MinSegs, FirstPath, InGraph, EndLeg, Consistent;
      var p := FirstPathOf(gc, ops, cur, t);
      if p.None? {
        return false, segs, [];
      }
      rev := p.value;
      FirstPathInGraph(gc.Now(), ops, cur, t);
      SameNodes(gc.Now(), Now(), rev);
      ok, segs' := MinSeg(rev, segs);
      if ok {
        segs' := EndLeg(segs', t);
        FlatAppend(trip.legs, rev);
      }
    }

    method FirstPathOf(gc: Graph, ops: Ops, cur: Node, t: Node) returns (p: Option<seq<Node>>)
      requires gc.Finalized() && t in gc.nodes
      ensures p == FirstPath(gc.Now(), ops, cur, t)
      ensures p.Some? ==> p.value != []
    {
      InitOk(gc.Now(), cur);
      var res := gc.Dijkstra(cur, ops);
      var paths := res.path[t];
      if paths == [] {
        return None;
      }
      var rev := CopyReverse(paths[0]);
      p := Some([cur] + rev);
    }
  }

  lemma SameNodes(a: View, b: View, p: seq<Node>)
    requires a.nodes == b.nodes && InGraph(a, p)
    ensures InGraph(b, p)
  {
  }

  method CopyReverse(l: seq<Node>) returns (r: seq<Node>)
    ensures r == Reversed(l)
  {
    r := [];
    for i := 0 to |l|
      invariant Reversed(l) == Reversed(l[i..]) + r
    {
      assert l[i..][1..] == l[i + 1..];
      r := [l[i]] + r;
    }
  }

  // The first x is gone from the list, or there was none and nothing changed.
  ghost predicate TakenOut<T>(s: seq<T>, s': seq<T>, x: T) {
    if x in s then exists k :: 0 <= k < |s| && s[k] == x && x !in s[..k] && s' == s[..k] + s[k + 1..] else s' == s
  }

  // The edges that neither come from nor lead to n.
  function Apart(edges: seq<Edge>, n: Node): seq<Edge> {
    if edges == [] then []
    else
      var e, rest := Last(edges), Apart(edges[..|edges| - 1], n);
      if e.local == n || e.remote == n then rest else rest + [e]
  }

  lemma ApartTurn(was: seq<Edge>, k: nat, n: Node, now: seq<Edge>, i: nat)
    requires k < |was| && now == Apart(was[..k], n) + was[k..] && i == |Apart(was[..k], n)|
    ensures i < |now| && now[i] == was[k]
    ensures was[k].local == n || was[k].remote == n ==>
              now[..i] + now[i + 1..] == Apart(was[..k + 1], n) + was[k + 1..] && i == |Apart(was[..k + 1], n)|
    ensures !(was[k].local == n || was[k].remote == n) ==>
              now == Apart(was[..k + 1], n) + was[k + 1..] && i + 1 == |Apart(was[..k + 1], n)|
  {
    assert was[..k + 1][..k] == was[..k];
  }

  // Removal leaves a topology, in which no edge names the node.
  lemma {:induction false} ApartIs(edges: seq<Edge>, n: Node)
    ensures forall e :: e in Apart(edges, n) <==> e in edges && e.local != n && e.remote != n
  {
    if edges != [] {
      ApartIs(edges[..|edges| - 1], n);
      assert edges == edges[..|edges| - 1] + [Last(edges)];
    }
  }

  lemma RemovedTopology(nodes: seq<Node>, edges: seq<Edge>, n: Node, nodes': seq<Node>)
    requires Topology(nodes, edges) && n in nodes && TakenOut(nodes, nodes', n)
    ensures n !in nodes' && Topology(nodes', Apart(edges, n))
  {
    ApartIs(edges, n);
    var k :| 0 <= k < |nodes| && nodes[k] == n && n !in nodes[..k] && nodes' == nodes[..k] + nodes[k + 1..];
    forall x | x in nodes && x != n
      ensures x in nodes'
    {
      var i :| 0 <= i < |nodes| && nodes[i] == x;
      assert nodes'[if i < k then i else i - 1] == x;
    }
  }

  lemma PrunedTopology(nodes: seq<Node>, edges: seq<Edge>, bw: u32)
    requires Topology(nodes, edges)
    ensures Topology(nodes, Pruned(edges, bw))
  {
    PrunedKeeps(edges, bw);
  }

  lemma {:induction false} NothingPruned(edges: seq<Edge>)
    ensures Pruned(edges, 0) == edges
  {
    if edges != [] {
      NothingPruned(edges[..|edges| - 1]);
    }
  }

  lemma FirstLegs(g: View, c: View, ops: Ops, src: Node)
    requires Consistent(g) && Consistent(c) && g.nodes == c.nodes && src in c.nodes
    ensures InGraph(c, []) && Legs(g, c, ops, Trip([], [], src), []) == Some(Trip([], [], src))
  {
  }

  lemma NextLegs(g: View, c: View, ops: Ops, src: Node, targets: seq<Node>, i: nat)
    requires Consistent(g) && Consistent(c) && g.nodes == c.nodes && src in c.nodes
    requires InGraph(c, targets) && i < |targets| && InGraph(c, targets[..i])
    requires Legs(g, c, ops, Trip([], [], src), targets[..i]).Some?
    ensures targets[i] in c.nodes && InGraph(c, targets[..i + 1])
    ensures var s := Legs(g, c, ops, Trip([], [], src), targets[..i]).value;
      s.cur in c.nodes && Legs(g, c, ops, Trip([], [], src), targets[..i + 1]) == Leg(g, c, ops, s, targets[i])
  {
    var m := targets[..i + 1];
    assert m[..|m| - 1] == targets[..i] && Last(m) == targets[i];
    assert targets[i] in targets;
  }

  lemma {:induction false} DeadTrip(g: View, c: View, ops: Ops, src: Node, targets: seq<Node>, i: nat)
    requires Consistent(g) && Consistent(c) && g.nodes == c.nodes && src in c.nodes
    requires InGraph(c, targets) && i <= |targets| && InGraph(c, targets[..i])
    requires Legs(g, c, ops, Trip([], [], src), targets[..i]).None?
    ensures Legs(g, c, ops, Trip([], [], src), targets).None?
    decreases |targets|
  {
    hide Consistent, Leg;
    if i < |targets| {
      var front := targets[..|targets| - 1];
      assert front[..i] == targets[..i];
      DeadTrip(g, c, ops, src, front, i);
    } else {
      assert targets[..i] == targets;
    }
  }

  lemma FirstSegs(view: View, path: seq<Node>)
    requires Consistent(view) && InGraph(view, path) && |path| > 0
    ensures MinSegs(view, path, 0) == Progress([], path[0], true)
  {
  }

  lemma NextSegs(view: View, path: seq<Node>, i: nat)
    requires Consistent(view) && InGraph(view, path) && i + 1 < |path| && MinSegs(view, path, i).ok
    ensures path[i + 1] in view.nodes
    ensures MinSegs(view, path, i + 1) == Hop(view, MinSegs(view, path, i), path[i], path[i + 1])
  {
    assert path[i + 1] in path;
  }

  lemma UnprefixedLists(lists: seq<seq<Node>>, all: seq<seq<Node>>)
    requires lists == [] + Prefixed([], all)
    ensures lists == all
  {
    forall i | 0 <= i < |all| ensures lists[i] == all[i] {
      assert [] + all[i] == all[i];
    }
  }

  lemma {:induction false} StuckSegs(view: View, path: seq<Node>, i: nat, n: nat)
    requires Consistent(view) && InGraph(view, path) && i <= n < |path| && !MinSegs(view, path, i).ok
    ensures MinSegs(view, path, n) == MinSegs(view, path, i)
  {
    if i < n {
      StuckSegs(view, path, i, n - 1);
    }
  }
}
