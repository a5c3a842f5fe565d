/**
 * What the steps of graph_dijkstra compute when costs add up: least distances, the tight
 * predecessors, and every least-cost path once.
 */
module DijkstraProofs {
  import opened Basics
  import opened ShortestPaths
  import opened Graphs
  import opened Dijkstra

  // The network a search works in: links cost their delay under the delay hook, else their metric.
  ghost function NetOf(view: View, ops: Ops): Net {
    Net(set n | n in view.nodes,
        map l | l in view.minEdges :: (if ops == ByDelay then view.minEdges[l].delay else view.minEdges[l].metric) as nat)
  }

  // No sum the run forms reaches the value that stands for infinity.
  ghost predicate NoOverflow(net: Net, src: Node) {
    forall p: seq<Node>, v: Node | Shortest(net, p) && p[0] == src && (Last(p), v) in net.cost ::
      Cost(net, p) + net.cost[(Last(p), v)] < INFINITE
  }

  lemma NetOfIsValid(view: View, ops: Ops)
    requires Consistent(view)
    ensures NetOf(view, ops).Valid()
    ensures !ops.ByDelay? ==> NetOf(view, ops).Positive()
  {
  }

  // ------------------------------------------------------------ the invariant

  ghost predicate Exact(net: Net, src: Node, v: Node, d: nat) {
    exists p: seq<Node> :: ShortestFrom(net, src, v, p) && Cost(net, p) == d
  }

  ghost predicate PrevTight(net: Net, s: State) {
    forall v, x | v in s.prev && x in s.prev[v] ::
      x in s.dist && v in s.dist && (x, v) in net.cost && s.dist[x] + net.cost[(x, v)] == s.dist[v]
  }

  ghost predicate Rooted(src: Node, s: State) {
    && src in s.dist && s.dist[src] == 0 && src in s.prev && s.prev[src] == []
    && (src in s.q ==> s.done == [])
    && forall v | v in s.prev && v != src :: v in s.dist && (s.dist[v] < INFINITE <==> s.prev[v] != [])
  }

  ghost predicate SettledExact(net: Net, src: Node, s: State) {
    forall v | v in s.done :: v in s.dist && s.dist[v] < INFINITE && Exact(net, src, v, s.dist[v])
  }

  ghost predicate Ordered(s: State) {
    forall x, v | x in s.done && v in s.q :: x in s.dist && v in s.dist && s.dist[x] <= s.dist[v]
  }

  // u was settled last.
  ghost predicate Highest(s: State, u: Node) {
    && u in s.done && u in s.dist
    && forall x | x in s.done :: x in s.dist && s.dist[x] <= s.dist[u]
  }

  // The link l has been accounted for.
  ghost predicate LinkDone(net: Net, s: State, l: (Node, Node))
    requires l in net.cost
  {
    && l.0 in s.dist && l.1 in s.dist && l.1 in s.prev
    && s.dist[l.1] <= s.dist[l.0] + net.cost[l]
    && ((l.1 in s.q || net.Positive()) && s.dist[l.1] == s.dist[l.0] + net.cost[l] ==> l.0 in s.prev[l.1])
  }

  // Every link out of a settled node has been accounted for, except those from u to pending.
  ghost predicate Relaxed(net: Net, s: State, u: Node, pending: seq<Node>) {
    forall l | l in net.cost && l.0 in s.done && !(l.0 == u && l.1 in pending) :: LinkDone(net, s, l)
  }

  ghost predicate Once(s: State, u: Node, pending: seq<Node>) {
    && (forall v | v in s.prev :: NoDup(s.prev[v]))
    && (forall v | v in pending && v in s.prev :: u !in s.prev[v])
  }

  ghost predicate Inv(net: Net, src: Node, s: State, u: Node, pending: seq<Node>) {
    && PrevTight(net, s) && Rooted(src, s) && SettledExact(net, src, s) && Ordered(s)
    && Relaxed(net, s, u, pending) && Once(s, u, pending)
  }

  lemma InitInv(view: View, ops: Ops, src: Node, u: Node)
    requires Consistent(view) && src in view.nodes
    ensures Inv(NetOf(view, ops), src, Init(view, src), u, [])
  {
  }

  // ------------------------------------------------------------ settling a node

  // Any walk from the source either ends settled and priced, or costs at least as much as
  // some queued node's distance.
  lemma {:induction false} Frontier(nodes: seq<Node>, net: Net, src: Node, s: State, u: Node, p: seq<Node>) returns (x: Node)
    requires Tables(nodes, s) && net.Valid() && net.nodes == (set n | n in nodes)
    requires Inv(net, src, s, u, [])
    requires IsWalk(net, p) && p[0] == src
    ensures x in s.dist && s.dist[x] <= Cost(net, p)
    ensures x in s.q || (x in s.done && x == Last(p))
    decreases |p|
  {
    if |p| == 1 {
      x := src;
    } else {
      var p' := p[..|p| - 1];
      assert IsWalk(net, p');
      x := Frontier(nodes, net, src, s, u, p');
      if x !in s.q {
        var l := (x, Last(p));
        assert p[|p| - 2] == x && l in net.cost;
        assert LinkDone(net, s, l);
        x := Last(p);
        WalkStaysInNodes(net, p, |p| - 1);
      }
    }
  }

  // The queued node of least distance is already exact.
  lemma PickedIsExact(nodes: seq<Node>, net: Net, src: Node, s: State, i: nat)
    requires Tables(nodes, s) && net.Valid() && net.nodes == (set n | n in nodes)
    requires i < |s.q| && s.dist[s.q[i]] < INFINITE
    requires Inv(net, src, s, s.q[i], [])
    requires forall k | 0 <= k < |s.q| :: s.dist[s.q[i]] <= s.dist[s.q[k]]
    ensures Exact(net, src, s.q[i], s.dist[s.q[i]])
  {
    var u := s.q[i];
    var p := WalkTo(nodes, net, src, s, u);
    forall r | Joins(net, src, u, r)
      ensures Cost(net, p) <= Cost(net, r)
    {
      var x := Frontier(nodes, net, src, s, u, r);
      assert u in s.q;
      assert x in s.q;
    }
    assert ShortestFrom(net, src, u, p);
  }

  lemma WalkTo(nodes: seq<Node>, net: Net, src: Node, s: State, u: Node) returns (p: seq<Node>)
    requires Tables(nodes, s) && net.Valid() && net.nodes == (set n | n in nodes)
    requires PrevTight(net, s) && Rooted(src, s) && SettledExact(net, src, s)
    requires u in s.q && s.dist[u] < INFINITE
    ensures Joins(net, src, u, p) && Cost(net, p) == s.dist[u]
  {
    hide Layered, Exact, Shortest;
    if u == src {
      p := [src];
      assert src in nodes;
    } else {
      var x := s.prev[u][0];
      assert x in s.prev[u] && x in s.done;
      var p' := ExactWalk(net, src, x, s.dist[x]);
      CostExtend(net, p', u);
      p := p' + [u];
    }
  }

  lemma ExactWalk(net: Net, src: Node, v: Node, d: nat) returns (p: seq<Node>)
    requires Exact(net, src, v, d)
    ensures ShortestFrom(net, src, v, p) && Joins(net, src, v, p) && Cost(net, p) == d
  {
    p :| ShortestFrom(net, src, v, p) && Cost(net, p) == d;
  }

  lemma SettleShape(nodes: seq<Node>, net: Net, src: Node, s: State, t: State, u: Node)
    requires Tables(nodes, s) && u in s.q && s.dist[u] < INFINITE
    requires PrevTight(net, s) && Rooted(src, s) && SettledExact(net, src, s) && Ordered(s)
    requires Exact(net, src, u, s.dist[u])
    requires forall v | v in s.q :: s.dist[u] <= s.dist[v]
    requires t.dist == s.dist && t.prev == s.prev
    requires forall v | v in t.q :: v in s.q && v != u
    requires forall v :: v in t.done <==> v in s.done || v == u
    ensures PrevTight(net, t) && Rooted(src, t) && SettledExact(net, src, t) && Ordered(t) && Highest(t, u)
  {
    assert u != src ==> s.prev[u] != [] && s.prev[u][0] in s.done;
  }

  lemma SettleLinks(nodes: seq<Node>, net: Net, s: State, t: State, u: Node, pending: seq<Node>)
    requires Tables(nodes, s) && u in s.q
    requires Relaxed(net, s, u, []) && Once(s, u, [])
    requires t.dist == s.dist && t.prev == s.prev
    requires forall v | v in t.q :: v in s.q && v != u
    requires forall v :: v in t.done <==> v in s.done || v == u
    requires forall v | (u, v) in net.cost :: v in pending
    ensures Relaxed(net, t, u, pending) && Once(t, u, pending)
  {
    forall l | l in net.cost && l.0 in t.done && !(l.0 == u && l.1 in pending)
      ensures LinkDone(net, t, l)
    {
      assert l == (l.0, l.1);
      assert l.0 != u;
      assert LinkDone(net, s, l);
    }
    assert u !in s.done;
  }

  lemma SettleInv(view: View, net: Net, src: Node, s: State, i: nat)
    requires Ok(view, s) && net.Valid() && net.nodes == (set n | n in view.nodes)
    requires i < |s.q| && s.dist[s.q[i]] < INFINITE
    requires Inv(net, src, s, s.q[i], [])
    requires forall k | 0 <= k < |s.q| :: s.dist[s.q[i]] <= s.dist[s.q[k]]
    requires forall v | (s.q[i], v) in net.cost :: v in view.neighs[s.q[i]]
    ensures Inv(net, src, Settle(view, s, i), s.q[i], view.neighs[s.q[i]])
    ensures Highest(Settle(view, s, i), s.q[i])
  {
    var u, t := s.q[i], Settle(view, s, i);
    RemoveFromQueue(view.nodes, s.q, s.done, i);
    PickedIsExact(view.nodes, net, src, s, i);
    assert forall v | v in t.q :: v in s.q && v != u;
    SettleShape(view.nodes, net, src, s, t, u);
    SettleLinks(view.nodes, net, s, t, u, view.neighs[u]);
  }

  // ------------------------------------------------------------ trying an edge

  // The edge's sum stays finite and unwrapped.
  lemma AltIsSum(net: Net, src: Node, s: State, ops: Ops, u: Node, v: Node, e: Edge)
    requires !ops.DelayBelow? && NoOverflow(net, src)
    requires SettledExact(net, src, s) && u in s.done
    requires (u, v) in net.cost && net.cost[(u, v)] == Weight(ops, e)
    ensures Alt(ops, s.dist[u], e, s.delays) == s.dist[u] + Weight(ops, e) < INFINITE
  {
    var p: seq<Node> :| ShortestFrom(net, src, u, p) && Cost(net, p) == s.dist[u];
    assert (Last(p), v) in net.cost;
  }

  // The effect of offering v the distance alt by way of u.
  ghost predicate Offered(s: State, t: State, u: Node, v: Node, alt: nat)
    requires v in s.dist && v in s.prev
  {
    && t.q == s.q && t.done == s.done
    && t.dist == (if alt < s.dist[v] then s.dist[v := alt] else s.dist)
    && t.prev == (if alt < s.dist[v] then s.prev[v := [u]]
                  else if alt == s.dist[v] then s.prev[v := s.prev[v] + [u]]
                  else s.prev)
  }

  lemma OfferTight(net: Net, s: State, t: State, u: Node, v: Node, alt: nat)
    requires u in s.done && v in s.dist && v in s.prev && v !in s.done && PrevSettled(s.prev, s.done)
    requires u in s.dist && (u, v) in net.cost && alt == s.dist[u] + net.cost[(u, v)]
    requires Offered(s, t, u, v, alt) && PrevTight(net, s)
    ensures PrevTight(net, t)
  {
    forall y, x | y in t.prev && x in t.prev[y]
      ensures x in t.dist && y in t.dist && (x, y) in net.cost && t.dist[x] + net.cost[(x, y)] == t.dist[y]
    {
      assert x in s.done;
    }
  }

  lemma OfferShape(net: Net, src: Node, s: State, t: State, u: Node, v: Node, alt: nat)
    requires u in s.done && v in s.q && v in s.dist && v in s.prev && v !in s.done
    requires u in s.dist && s.dist[u] <= alt < INFINITE
    requires Offered(s, t, u, v, alt)
    requires Rooted(src, s) && SettledExact(net, src, s) && Ordered(s) && Highest(s, u)
    ensures Rooted(src, t) && SettledExact(net, src, t) && Ordered(t) && Highest(t, u)
  {
    assert v != src;
    assert forall x | x in s.done :: x != v;
  }

  lemma OfferLinks(net: Net, s: State, t: State, u: Node, pending: seq<Node>, alt: nat)
    requires pending != [] && NoDup(pending)
    requires u in s.done && pending[0] in s.dist && pending[0] in s.prev && pending[0] !in s.done
    requires u in s.dist && (u, pending[0]) in net.cost && alt == s.dist[u] + net.cost[(u, pending[0])]
    requires Offered(s, t, u, pending[0], alt)
    requires Relaxed(net, s, u, pending)
    ensures Relaxed(net, t, u, pending[1..])
  {
    var v := pending[0];
    forall l | l in net.cost && l.0 in t.done && !(l.0 == u && l.1 in pending[1..])
      ensures LinkDone(net, t, l)
    {
      assert l.0 != v && l == (l.0, l.1);
      if l != (u, v) {
        assert LinkDone(net, s, l);
        assert l.1 != v ==> t.prev[l.1] == s.prev[l.1] && t.dist[l.1] == s.dist[l.1];
      }
    }
  }

  lemma OfferOnce(s: State, t: State, u: Node, pending: seq<Node>, alt: nat)
    requires pending != [] && NoDup(pending)
    requires pending[0] in s.dist && pending[0] in s.prev
    requires Offered(s, t, u, pending[0], alt)
    requires Once(s, u, pending)
    ensures Once(t, u, pending[1..])
  {
    var v := pending[0];
    assert forall w | w in pending[1..] :: w in pending && w != v;
    assert NoDup(s.prev[v] + [u]);
  }

  // A neighbour that was settled earlier needs no update.
  lemma SkipLinks(net: Net, s: State, u: Node, pending: seq<Node>)
    requires pending != [] && pending[0] !in s.q && pending[0] in s.done
    requires pending[0] in s.prev
    requires Highest(s, u)
    requires Relaxed(net, s, u, pending) && Once(s, u, pending)
    ensures Relaxed(net, s, u, pending[1..]) && Once(s, u, pending[1..])
  {
    var v := pending[0];
    forall l | l in net.cost && l.0 in s.done && !(l.0 == u && l.1 in pending[1..])
      ensures LinkDone(net, s, l)
    {
      if l != (u, v) {
        assert l.0 == u ==> l.1 !in pending;
      }
    }
  }

  lemma OfferInv(nodes: seq<Node>, net: Net, src: Node, s: State, t: State, u: Node, pending: seq<Node>, alt: nat)
    requires Tables(nodes, s) && pending != [] && NoDup(pending) && pending[0] in s.q
    requires Inv(net, src, s, u, pending) && Highest(s, u)
    requires (u, pending[0]) in net.cost && alt == s.dist[u] + net.cost[(u, pending[0])] < INFINITE
    requires Offered(s, t, u, pending[0], alt)
    ensures Inv(net, src, t, u, pending[1..]) && Highest(t, u)
  {
    var v := pending[0];
    OfferTight(net, s, t, u, v, alt);
    OfferShape(net, src, s, t, u, v, alt);
    OfferLinks(net, s, t, u, pending, alt);
    OfferOnce(s, t, u, pending, alt);
  }

  lemma TryEdgeOffers(ops: Ops, u: Node, s: State, v: Node, e: Edge, alt: nat)
    requires !ops.DelayBelow? && u in s.dist && v in s.dist && v in s.prev
    requires Alt(ops, s.dist[u], e, s.delays) == alt
    ensures Offered(s, TryEdge(ops, u, s, v, e), u, v, alt)
  {
  }

  lemma TryEdgeInv(nodes: seq<Node>, ops: Ops, net: Net, src: Node, s: State, u: Node, pending: seq<Node>, e: Edge)
    requires Tables(nodes, s) && !ops.DelayBelow? && NoOverflow(net, src)
    requires pending != [] && NoDup(pending) && pending[0] in s.q
    requires Inv(net, src, s, u, pending) && Highest(s, u)
    requires (u, pending[0]) in net.cost && net.cost[(u, pending[0])] == Weight(ops, e)
    ensures Inv(net, src, TryEdge(ops, u, s, pending[0], e), u, pending[1..])
    ensures Highest(TryEdge(ops, u, s, pending[0], e), u)
  {
    hide Layered, PrevTight, Relaxed, Once, Ordered, Offered, NoOverflow, Alt, Weight, Rooted, SettledExact;
    AltIsSum(net, src, s, ops, u, pending[0], e);
    TryEdgeOffers(ops, u, s, pending[0], e, s.dist[u] + Weight(ops, e));
    OfferInv(nodes, net, src, s, TryEdge(ops, u, s, pending[0], e), u, pending, s.dist[u] + Weight(ops, e));
  }

  lemma RelaxInv(view: View, ops: Ops, net: Net, src: Node, s: State, u: Node, pending: seq<Node>)
    requires Ok(view, s) && !ops.DelayBelow? && net == NetOf(view, ops) && NoOverflow(net, src)
    requires pending != [] && NoDup(pending) && pending[0] in view.nodes
    requires Inv(net, src, s, u, pending) && Highest(s, u)
    requires pending[0] in s.q ==> (u, pending[0]) in view.minEdges
    ensures Inv(net, src, Relax(view, ops, u, s, pending[0]), u, pending[1..])
    ensures Highest(Relax(view, ops, u, s, pending[0]), u)
  {
    if pending[0] in s.q {
      TryEdgeInv(view.nodes, ops, net, src, s, u, pending, view.minEdges[(u, pending[0])]);
    } else {
      SkipLinks(net, s, u, pending);
    }
  }

  lemma TailNoDup(vs: seq<Node>, rest: seq<Node>)
    requires vs != [] && NoDup(vs + rest)
    ensures vs[..|vs| - 1] + ([Last(vs)] + rest) == vs + rest
    ensures NoDup([Last(vs)] + rest)
  {
    var p, k := [Last(vs)] + rest, |vs| - 1;
    assert forall i | 0 <= i < |p| :: p[i] == (vs + rest)[k + i];
  }

  lemma {:induction false} RelaxAllInv(view: View, ops: Ops, net: Net, src: Node, s: State, u: Node, vs: seq<Node>, rest: seq<Node>)
    requires Ok(view, s) && !ops.DelayBelow? && net == NetOf(view, ops) && NoOverflow(net, src)
    requires u in s.done && NoDup(vs + rest)
    requires forall v | v in vs :: v in view.neighs[u]
    requires Inv(net, src, s, u, vs + rest) && Highest(s, u)
    ensures Inv(net, src, RelaxAll(view, ops, u, s, vs), u, rest)
    ensures Highest(RelaxAll(view, ops, u, s, vs), u)
    decreases |vs|
  {
    if vs == [] {
      assert vs + rest == rest;
    } else {
      var vs', pending := vs[..|vs| - 1], [Last(vs)] + rest;
      TailNoDup(vs, rest);
      RelaxAllInv(view, ops, net, src, s, u, vs', pending);
      assert pending[1..] == rest && pending[0] == Last(vs);
      assert Last(vs) in view.neighs[u];
      RelaxInv(view, ops, net, src, RelaxAll(view, ops, u, s, vs'), u, pending);
    }
  }

  // ------------------------------------------------------------ the whole run

  lemma QueuedLinks(view: View, ops: Ops, s: State, i: nat)
    requires Ok(view, s) && i < |s.q|
    ensures s.q[i] in view.nodes && s.q[i] in view.neighs && NoDup(view.neighs[s.q[i]])
    ensures NetOf(view, ops).Valid()
    ensures forall v | (s.q[i], v) in NetOf(view, ops).cost :: v in view.neighs[s.q[i]]
  {
    NetOfIsValid(view, ops);
  }

  lemma StepInv(view: View, ops: Ops, net: Net, src: Node, s: State, i: nat)
    requires Ok(view, s) && !ops.DelayBelow? && net == NetOf(view, ops) && NoOverflow(net, src)
    requires i < |s.q| && s.dist[s.q[i]] < INFINITE
    requires Inv(net, src, s, s.q[i], [])
    requires forall k | 0 <= k < |s.q| :: s.dist[s.q[i]] <= s.dist[s.q[k]]
    ensures Inv(net, src, Step(view, ops, s, i), s.q[i], [])
  {
    hide Inv, Highest, Tables, Consistent;
    var u := s.q[i];
    QueuedLinks(view, ops, s, i);
    SettleInv(view, net, src, s, i);
    SettleOk(view, s, i);
    assert view.neighs[u] + [] == view.neighs[u];
    RelaxAllInv(view, ops, net, src, Settle(view, s, i), u, view.neighs[u], []);
  }

  lemma IdleForAll(net: Net, src: Node, s: State, u: Node, u': Node)
    requires Inv(net, src, s, u, [])
    ensures Inv(net, src, s, u', [])
  {
  }

  // No queued node can be settled any more.
  ghost predicate Exhausted(s: State) {
    forall v | v in s.q :: v in s.dist && s.dist[v] == INFINITE
  }

  lemma {:induction false} RunInv(view: View, ops: Ops, net: Net, src: Node, s: State, u: Node)
    requires Ok(view, s) && !ops.DelayBelow? && net == NetOf(view, ops) && NoOverflow(net, src)
    requires Inv(net, src, s, u, [])
    ensures Inv(net, src, Run(view, ops, s), u, [])
    ensures Exhausted(Run(view, ops, s))
    decreases |s.q|
  {
    var i := Pick(s.dist, s.q);
    if i.Some? {
      var u' := s.q[i.value];
      IdleForAll(net, src, s, u, u');
      StepInv(view, ops, net, src, s, i.value);
      IdleForAll(net, src, Step(view, ops, s, i.value), u', u);
      RunInv(view, ops, net, src, Step(view, ops, s, i.value), u);
    }
  }

  // ------------------------------------------------------------ the recorded paths

  lemma {:induction false} AllPathsFrame(prev: map<Node, seq<Node>>, prev': map<Node, seq<Node>>,
                                         done: seq<Node>, done': seq<Node>, u: Node)
    requires Layered(prev, done) && Layered(prev', done') && done <= done'
    requires forall x | x in done :: prev'[x] == prev[x]
    requires u in done
    ensures AllPaths(prev, done, u) == AllPaths(prev', done', u)
    decreases Index(done, u), 1, 0
  {
    if prev[u] != [] {
      ThroughFrame(prev, prev', done, done', u, prev[u]);
    }
  }

  lemma {:induction false} ThroughFrame(prev: map<Node, seq<Node>>, prev': map<Node, seq<Node>>,
                                        done: seq<Node>, done': seq<Node>, u: Node, ws: seq<Node>)
    requires Layered(prev, done) && Layered(prev', done') && done <= done'
    requires forall x | x in done :: prev'[x] == prev[x]
    requires u in done && forall w | w in ws :: w in prev[u]
    ensures Through(prev, done, u, ws) == Through(prev', done', u, ws)
    decreases Index(done, u), 0, |ws|
  {
    if ws != [] {
      EarlierIndex(prev, done, u, Last(ws));
      ThroughFrame(prev, prev', done, done', u, ws[..|ws| - 1]);
      AllPathsFrame(prev, prev', done, done', Last(ws));
    }
  }

  ghost predicate Recorded(s: State)
    requires Layered(s.prev, s.done)
  {
    && (forall v | v in s.done :: v in s.path && s.path[v] == AllPaths(s.prev, s.done, v))
    && (forall v | v in s.q :: v in s.path && s.path[v] == [])
  }

  lemma InitRecords(view: View, src: Node)
    requires Consistent(view)
    ensures Layered(Init(view, src).prev, Init(view, src).done) && Recorded(Init(view, src))
  {
  }

  lemma StepRecords(view: View, ops: Ops, s: State, i: nat)
    requires Ok(view, s) && i < |s.q| && Recorded(s)
    ensures Recorded(Step(view, ops, s, i))
  {
    var u, m, t := s.q[i], Settle(view, s, i), Step(view, ops, s, i);
    SettleOk(view, s, i);
    SettleLayers(view, s, i);
    RemoveFromQueue(view.nodes, s.q, s.done, i);
    forall v | v in t.done
      ensures v in t.path && t.path[v] == AllPaths(t.prev, t.done, v)
    {
      AllPathsFrame(m.prev, t.prev, m.done, t.done, v);
      if v != u {
        AllPathsFrame(s.prev, m.prev, s.done, m.done, v);
      }
    }
    forall v | v in t.q
      ensures v in t.path && t.path[v] == []
    {
      assert v in s.q && v != u;
    }
  }

  lemma {:induction false} RunRecords(view: View, ops: Ops, s: State)
    requires Ok(view, s) && Recorded(s)
    ensures Recorded(Run(view, ops, s))
    decreases |s.q|
  {
    var i := Pick(s.dist, s.q);
    if i.Some? {
      StepRecords(view, ops, s, i.value);
      RunRecords(view, ops, Step(view, ops, s, i.value));
    }
  }
}
