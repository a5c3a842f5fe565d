/**
 * The result of graph_dijkstra, stated without its steps.
 */
module DijkstraTheorems {
  import opened Basics
  import opened ShortestPaths
  import opened Graphs
  import opened Dijkstra
  import opened DijkstraProofs

  function Reversed(s: seq<Node>): seq<Node> {
    if s == [] then [] else Reversed(s[1..]) + [s[0]]
  }

  // The walk that a recorded list stands for: lists run backwards and omit the source.
  function Forward(src: Node, l: seq<Node>): (p: seq<Node>) {
    [src] + Reversed(l)
  }

  // A finite distance is the cost of a least-cost walk; an infinite one means there is no walk.
  ghost predicate ExactDistances(net: Net, src: Node, r: Dres) {
    forall v | v in net.nodes ::
      && v in r.dist
      && (if r.dist[v] < INFINITE then Exact(net, src, v, r.dist[v]) else !Reachable(net, src, v))
  }

  // Every recorded list is a simple least-cost walk, none is listed twice, and there is one
  // exactly for the reachable nodes.
  ghost predicate PathsAreShortest(net: Net, src: Node, r: Dres) {
    forall v | v in net.nodes ::
      && v in r.path && NoDup(r.path[v])
      && (r.path[v] != [] <==> Reachable(net, src, v))
      && forall l | l in r.path[v] :: ShortestFrom(net, src, v, Forward(src, l)) && NoDup(Forward(src, l))
  }

  // The predecessor lists hold exactly the tight predecessors, each once.
  ghost predicate PrevIsTight(net: Net, src: Node, r: Dres) {
    forall v | v in net.nodes ::
      && v in r.prev && NoDup(r.prev[v])
      && forall u :: u in r.prev[v] <==> TightPred(net, src, u, v)
  }

  // No least-cost walk is missing from the recorded lists.
  ghost predicate PathsAreAll(net: Net, src: Node, r: Dres) {
    forall v, p | v in net.nodes && ShortestFrom(net, src, v, p) ::
      v in r.path && exists l :: l in r.path[v] && Forward(src, l) == p
  }

  // ------------------------------------------------------------ from the final tables

  // The tables when no queued node can be settled any more.
  ghost predicate Final(nodes: seq<Node>, net: Net, src: Node, s: State) {
    && Tables(nodes, s) && net.Valid() && net.nodes == (set n | n in nodes)
    && Inv(net, src, s, src, []) && Exhausted(s)
  }

  lemma {:induction false} FinalReachesAll(nodes: seq<Node>, net: Net, src: Node, s: State, p: seq<Node>)
    requires Final(nodes, net, src, s) && NoOverflow(net, src) && IsWalk(net, p) && p[0] == src
    ensures Last(p) in s.done
    decreases |p|
  {
    WalkStaysInNodes(net, p, |p| - 1);
    if |p| > 1 {
      var p' := p[..|p| - 1];
      assert IsWalk(net, p');
      FinalReachesAll(nodes, net, src, s, p');
      var u, v := Last(p'), Last(p);
      assert p[|p| - 2] == u && (u, v) in net.cost;
      assert LinkDone(net, s, (u, v));
      var w: seq<Node> :| ShortestFrom(net, src, u, w) && Cost(net, w) == s.dist[u];
      assert (Last(w), v) in net.cost;
    }
  }

  lemma FinalDistances(nodes: seq<Node>, net: Net, src: Node, s: State)
    requires Final(nodes, net, src, s) && NoOverflow(net, src)
    ensures ExactDistances(net, src, ResultOf(s))
    ensures forall v | v in net.nodes :: v in s.done <==> Reachable(net, src, v)
  {
    forall v | v in net.nodes
      ensures v in s.done <==> Reachable(net, src, v)
      ensures v in s.done <==> s.dist[v] < INFINITE
    {
      if v in s.done {
        var p: seq<Node> :| ShortestFrom(net, src, v, p) && Cost(net, p) == s.dist[v];
        assert Joins(net, src, v, p);
      } else if p: seq<Node> :| Joins(net, src, v, p) {
        FinalReachesAll(nodes, net, src, s, p);
        assert false;
      }
    }
  }

  lemma ListedIsExact(nodes: seq<Node>, net: Net, src: Node, s: State, v: Node, w: Node)
    requires Final(nodes, net, src, s) && v in s.done && w in s.prev[v]
    ensures w in s.dist && v in s.dist && Exact(net, src, w, s.dist[w]) && Exact(net, src, v, s.dist[v])
    ensures (w, v) in net.cost && s.dist[w] + net.cost[(w, v)] == s.dist[v]
  {
    hide Layered, Exact, Relaxed, Once, Ordered;
    assert w in s.done;
  }

  // A listed predecessor's walk, one hop longer, is least-cost.
  lemma PrevExtends(nodes: seq<Node>, net: Net, src: Node, s: State, v: Node, w: Node, p: seq<Node>)
    requires Final(nodes, net, src, s) && v in s.done && w in s.prev[v]
    requires ShortestFrom(net, src, w, p)
    ensures ShortestFrom(net, src, v, p + [v])
  {
    hide Final, Shortest, Exact;
    ListedIsExact(nodes, net, src, s, v, w);
    ShortestJoins(net, src, w, p);
    var pw := ExactWalk(net, src, w, s.dist[w]);
    var pv := ExactWalk(net, src, v, s.dist[v]);
    SameEndsSameCost(net, p, pw);
    CostExtend(net, p, v);
    AsCheapIsShortest(net, pv, p + [v]);
  }

  // The last hop of a least-cost walk is a listed predecessor.
  lemma LastHopIsListed(nodes: seq<Node>, net: Net, src: Node, s: State, p: seq<Node>)
    requires Final(nodes, net, src, s) && NoOverflow(net, src) && net.Positive()
    requires Shortest(net, p) && p[0] == src && |p| > 1
    ensures Last(p) in s.done && p[|p| - 2] in s.prev[Last(p)]
    ensures ShortestFrom(net, src, p[|p| - 2], p[..|p| - 1])
  {
    var u, v, p' := p[|p| - 2], Last(p), p[..|p| - 1];
    ShortestPrefix(net, p, |p| - 2);
    assert p[..|p| - 2 + 1] == p';
    FinalReachesAll(nodes, net, src, s, p);
    FinalReachesAll(nodes, net, src, s, p');
    var pu: seq<Node> :| ShortestFrom(net, src, u, pu) && Cost(net, pu) == s.dist[u];
    var pv: seq<Node> :| ShortestFrom(net, src, v, pv) && Cost(net, pv) == s.dist[v];
    SameEndsSameCost(net, p', pu);
    SameEndsSameCost(net, p, pv);
    assert (u, v) in net.cost;
    assert LinkDone(net, s, (u, v));
  }

  lemma ListedIsSettled(nodes: seq<Node>, net: Net, src: Node, s: State, v: Node, u: Node)
    requires Final(nodes, net, src, s) && v in s.prev && u in s.prev[v]
    ensures v in s.done && u in s.done && u in s.dist && Exact(net, src, u, s.dist[u])
  {
  }

  lemma ListedIsTight(nodes: seq<Node>, net: Net, src: Node, s: State, v: Node, u: Node)
    requires Final(nodes, net, src, s) && v in s.prev && u in s.prev[v]
    ensures TightPred(net, src, u, v)
  {
    hide Final, Inv, Tables, IsWalk;
    ListedIsSettled(nodes, net, src, s, v, u);
    var p: seq<Node> :| ShortestFrom(net, src, u, p) && Cost(net, p) == s.dist[u];
    EndsAt(net, src, u, p);
    PrevExtends(nodes, net, src, s, v, u, p);
    var w := p + [v];
    assert ShortestFrom(net, src, v, w) && |w| > 1 && w[|w| - 2] == Last(p);
  }

  lemma EndsAt(net: Net, s: Node, t: Node, p: seq<Node>)
    requires ShortestFrom(net, s, t, p)
    ensures |p| > 0 && p[0] == s && Last(p) == t
  {
  }

  lemma TightIsListed(nodes: seq<Node>, net: Net, src: Node, s: State, v: Node, u: Node)
    requires Final(nodes, net, src, s) && NoOverflow(net, src) && net.Positive()
    requires v in s.prev && TightPred(net, src, u, v)
    ensures u in s.prev[v]
  {
    var p: seq<Node> :| ShortestFrom(net, src, v, p) && |p| > 1 && p[|p| - 2] == u;
    LastHopIsListed(nodes, net, src, s, p);
  }

  lemma FinalPrev(nodes: seq<Node>, net: Net, src: Node, s: State)
    requires Final(nodes, net, src, s) && NoOverflow(net, src) && net.Positive()
    ensures PrevIsTight(net, src, ResultOf(s))
  {
    assert forall v | v in net.nodes :: v in s.prev && NoDup(s.prev[v]);
    hide Final, NoOverflow, TightPred;
    forall v, u | v in net.nodes
      ensures u in s.prev[v] <==> TightPred(net, src, u, v)
    {
      if u in s.prev[v] {
        ListedIsTight(nodes, net, src, s, v, u);
      } else if TightPred(net, src, u, v) {
        TightIsListed(nodes, net, src, s, v, u);
      }
    }
  }

  // ------------------------------------------------------------ the recorded lists

  // A list collected through ws starts at u and goes on with a list of one of them.
  lemma {:induction false} ThroughMember(prev: map<Node, seq<Node>>, done: seq<Node>, u: Node, ws: seq<Node>, l: seq<Node>)
    requires Layered(prev, done) && u in done && forall w | w in ws :: w in prev[u]
    ensures (forall w | w in ws :: w in done)
    ensures l in Through(prev, done, u, ws) <==>
              l != [] && l[0] == u && exists w :: w in ws && w in done && l[1..] in AllPaths(prev, done, w)
    decreases |ws|
  {
    if ws != [] {
      var ws', w := ws[..|ws| - 1], Last(ws);
      assert ws == ws' + [w];
      EarlierIndex(prev, done, u, w);
      ThroughMember(prev, done, u, ws', l);
      var here := Prefixed([u], AllPaths(prev, done, w));
      if l in here {
        var i :| 0 <= i < |here| && here[i] == l;
        assert l[1..] == AllPaths(prev, done, w)[i];
        assert w in ws;
      }
      if l != [] && l[0] == u && l[1..] in AllPaths(prev, done, w) {
        var i :| 0 <= i < |AllPaths(prev, done, w)| && AllPaths(prev, done, w)[i] == l[1..];
        assert here[i] == [u] + l[1..] == l;
      }
    }
  }

  lemma ForwardExtends(src: Node, l: seq<Node>)
    requires l != []
    ensures Forward(src, l) == Forward(src, l[1..]) + [l[0]]
  {
  }

  lemma {:induction false} RecordedIsShortest(nodes: seq<Node>, net: Net, src: Node, s: State, v: Node, l: seq<Node>)
    requires Final(nodes, net, src, s) && v in s.done && l in AllPaths(s.prev, s.done, v)
    ensures ShortestFrom(net, src, v, Forward(src, l))
    decreases |l|
  {
    if s.prev[v] == [] {
      assert v == src && l == [];
      StandingStill(net, src);
      assert Forward(src, l) == [src];
    } else {
      ThroughMember(s.prev, s.done, v, s.prev[v], l);
      var w :| w in s.prev[v] && w in s.done && l[1..] in AllPaths(s.prev, s.done, w);
      RecordedIsShortest(nodes, net, src, s, w, l[1..]);
      ForwardExtends(src, l);
      PrevExtends(nodes, net, src, s, v, w, Forward(src, l[1..]));
    }
  }

  lemma RootList(nodes: seq<Node>, net: Net, src: Node, s: State)
    requires Final(nodes, net, src, s) && src in s.done
    ensures [] in AllPaths(s.prev, s.done, src)
  {
  }

  lemma {:induction false} ShortestIsRecorded(nodes: seq<Node>, net: Net, src: Node, s: State, p: seq<Node>) returns (l: seq<Node>)
    requires Final(nodes, net, src, s) && NoOverflow(net, src) && net.Positive()
    requires Shortest(net, p) && p[0] == src
    ensures Last(p) in s.done && l in AllPaths(s.prev, s.done, Last(p)) && Forward(src, l) == p
    decreases |p|
  {
    hide Inv, NoOverflow, Exhausted;
    FinalReachesAll(nodes, net, src, s, p);
    if |p| == 1 {
      l := [];
      assert p == [src];
      RootList(nodes, net, src, s);
    } else {
      var v, w := Last(p), p[|p| - 2];
      LastHopIsListed(nodes, net, src, s, p);
      var l' := ShortestIsRecorded(nodes, net, src, s, p[..|p| - 1]);
      l := [v] + l';
      assert l[1..] == l';
      ThroughMember(s.prev, s.done, v, s.prev[v], l);
      ForwardExtends(src, l);
    }
  }

  lemma {:induction false} AllPathsNonempty(prev: map<Node, seq<Node>>, done: seq<Node>, u: Node)
    requires Layered(prev, done) && u in done
    ensures |AllPaths(prev, done, u)| > 0
    decreases Index(done, u)
  {
    if prev[u] != [] {
      EarlierIndex(prev, done, u, Last(prev[u]));
      AllPathsNonempty(prev, done, Last(prev[u]));
    }
  }

  // Only one settled node has no predecessor, so a list names where it came from.
  ghost predicate OneRoot(prev: map<Node, seq<Node>>, done: seq<Node>, src: Node) {
    forall v | v in done :: v in prev && (prev[v] == [] ==> v == src)
  }

  lemma ListHead(prev: map<Node, seq<Node>>, done: seq<Node>, src: Node, u: Node, l: seq<Node>)
    requires Layered(prev, done) && OneRoot(prev, done, src) && u in done && l in AllPaths(prev, done, u)
    ensures u == if l == [] then src else l[0]
  {
    if prev[u] != [] {
      ThroughMember(prev, done, u, prev[u], l);
    }
  }

  lemma {:induction false} AllPathsNoDup(prev: map<Node, seq<Node>>, done: seq<Node>, src: Node, u: Node)
    requires Layered(prev, done) && OneRoot(prev, done, src) && u in done
    requires forall v | v in done :: NoDup(prev[v])
    ensures NoDup(AllPaths(prev, done, u))
    decreases Index(done, u), 1, 0
  {
    if prev[u] != [] {
      ThroughNoDup(prev, done, src, u, prev[u]);
    }
  }

  lemma {:induction false} ThroughNoDup(prev: map<Node, seq<Node>>, done: seq<Node>, src: Node, u: Node, ws: seq<Node>)
    requires Layered(prev, done) && OneRoot(prev, done, src) && u in done
    requires forall v | v in done :: NoDup(prev[v])
    requires NoDup(ws) && forall w | w in ws :: w in prev[u]
    ensures NoDup(Through(prev, done, u, ws))
    decreases Index(done, u), 0, |ws|
  {
    if ws != [] {
      var ws', w := ws[..|ws| - 1], Last(ws);
      EarlierIndex(prev, done, u, w);
      ThroughNoDup(prev, done, src, u, ws');
      AllPathsNoDup(prev, done, src, w);
      var left, right := Through(prev, done, u, ws'), Prefixed([u], AllPaths(prev, done, w));
      PrefixedNoDup([u], AllPaths(prev, done, w));
      forall l | l in left
        ensures l !in right
      {
        ThroughMember(prev, done, u, ws', l);
        var w' :| w' in ws' && w' in done && l[1..] in AllPaths(prev, done, w');
        ListHead(prev, done, src, w', l[1..]);
        if l in right {
          var i :| 0 <= i < |right| && right[i] == l;
          assert l[1..] == AllPaths(prev, done, w)[i];
          ListHead(prev, done, src, w, l[1..]);
        }
      }
      ConcatNoDup(left, right);
    }
  }

  lemma PrefixedNoDup(t: seq<Node>, ls: seq<seq<Node>>)
    requires NoDup(ls)
    ensures NoDup(Prefixed(t, ls))
  {
    var r := Prefixed(t, ls);
    forall i, j | 0 <= i < j < |r|
      ensures r[i] != r[j]
    {
      assert r[i][|t|..] == ls[i] && r[j][|t|..] == ls[j];
    }
  }

  lemma ConcatNoDup<T>(a: seq<T>, b: seq<T>)
    requires NoDup(a) && NoDup(b) && forall x | x in a :: x !in b
    ensures NoDup(a + b)
  {
    var c := a + b;
    forall i, j | 0 <= i < j < |c| ensures c[i] != c[j] {
      assert i < |a| <= j ==> c[i] in a && c[j] in b;
    }
  }

  lemma RootIsFirst(prev: map<Node, seq<Node>>, done: seq<Node>, src: Node)
    requires Layered(prev, done) && OneRoot(prev, done, src) && done != []
    ensures src in prev && prev[src] == []
  {
    var none := done[..0];
    assert forall w | w in prev[done[0]] :: w in none;
    SomeMember(prev[done[0]]);
    assert done[0] in done;
  }

  lemma SomeMember(ws: seq<Node>)
    ensures ws == [] || exists w :: w in ws
  {
    if ws != [] { assert ws[0] in ws; }
  }

  // A list runs through ever earlier settled nodes and never names the source.
  lemma {:induction false} ListIsSimple(prev: map<Node, seq<Node>>, done: seq<Node>, src: Node, u: Node, l: seq<Node>)
    requires Layered(prev, done) && OneRoot(prev, done, src) && u in done && l in AllPaths(prev, done, u)
    ensures NoDup(l) && src !in l && forall x | x in l :: x in done && Index(done, x) <= Index(done, u)
    decreases |l|
  {
    if prev[u] != [] {
      ThroughMember(prev, done, u, prev[u], l);
      var w :| w in prev[u] && w in done && l[1..] in AllPaths(prev, done, w);
      EarlierIndex(prev, done, u, w);
      ListIsSimple(prev, done, src, w, l[1..]);
      assert l == [u] + l[1..];
      RootIsFirst(prev, done, src);
    }
  }

  lemma {:induction false} ReversedSame(l: seq<Node>)
    ensures |Reversed(l)| == |l|
    ensures forall x :: x in Reversed(l) <==> x in l
  {
    if l != [] {
      ReversedSame(l[1..]);
      assert l == [l[0]] + l[1..];
    }
  }

  lemma {:induction false} ReversedNoDup(l: seq<Node>)
    requires NoDup(l)
    ensures NoDup(Reversed(l))
  {
    if l != [] {
      ReversedNoDup(l[1..]);
      ReversedSame(l[1..]);
      ConcatNoDup(Reversed(l[1..]), [l[0]]);
    }
  }

  lemma ForwardIsSimple(src: Node, l: seq<Node>)
    requires NoDup(l) && src !in l
    ensures NoDup(Forward(src, l))
  {
    ReversedNoDup(l);
    ReversedSame(l);
    ConcatNoDup([src], Reversed(l));
  }

  lemma FinalPaths(nodes: seq<Node>, net: Net, src: Node, s: State)
    requires Final(nodes, net, src, s) && NoOverflow(net, src) && Recorded(s)
    ensures PathsAreShortest(net, src, ResultOf(s))
    ensures net.Positive() ==> PathsAreAll(net, src, ResultOf(s))
  {
    FinalDistances(nodes, net, src, s);
    forall v | v in net.nodes
      ensures NoDup(s.path[v]) && (s.path[v] != [] <==> Reachable(net, src, v))
      ensures forall l | l in s.path[v] :: ShortestFrom(net, src, v, Forward(src, l)) && NoDup(Forward(src, l))
    {
      if v in s.done {
        AllPathsNonempty(s.prev, s.done, v);
        AllPathsNoDup(s.prev, s.done, src, v);
        forall l | l in s.path[v]
          ensures ShortestFrom(net, src, v, Forward(src, l)) && NoDup(Forward(src, l))
        {
          RecordedIsShortest(nodes, net, src, s, v, l);
          ListIsSimple(s.prev, s.done, src, v, l);
          ForwardIsSimple(src, l);
        }
      }
    }
    if net.Positive() {
      forall v, p | v in net.nodes && ShortestFrom(net, src, v, p)
        ensures exists l :: l in s.path[v] && Forward(src, l) == p
      {
        var l := ShortestIsRecorded(nodes, net, src, s, p);
      }
    }
  }

  // ------------------------------------------------------------ the theorems

  lemma RunIsFinal(view: View, ops: Ops, src: Node)
    requires Consistent(view) && src in view.nodes && !ops.DelayBelow?
    requires NoOverflow(NetOf(view, ops), src)
    ensures Ok(view, Init(view, src))
    ensures var s := Run(view, ops, Init(view, src));
      Final(view.nodes, NetOf(view, ops), src, s) && Recorded(s)
  {
    hide Inv, Consistent, NoOverflow, Exhausted, Recorded, Tables, Init;
    InitOk(view, src);
    InitInv(view, ops, src, src);
    InitRecords(view, src);
    NetOfIsValid(view, ops);
    RunInv(view, ops, NetOf(view, ops), src, Init(view, src), src);
    RunRecords(view, ops, Init(view, src));
  }

  // For costs that add up, positive or not: exact distances, and only least-cost paths.
  lemma DistancesAreExact(view: View, ops: Ops, src: Node)
    requires Consistent(view) && src in view.nodes && !ops.DelayBelow?
    requires NoOverflow(NetOf(view, ops), src)
    ensures ExactDistances(NetOf(view, ops), src, Result(view, ops, src))
    ensures PathsAreShortest(NetOf(view, ops), src, Result(view, ops, src))
  {
    RunIsFinal(view, ops, src);
    var s := Run(view, ops, Init(view, src));
    FinalDistances(view.nodes, NetOf(view, ops), src, s);
    FinalPaths(view.nodes, NetOf(view, ops), src, s);
  }

  // By metric, nothing tight and no least-cost path is missing either.
  lemma EqualCostPathsAreAllFound(view: View, src: Node)
    requires Consistent(view) && src in view.nodes
    requires NoOverflow(NetOf(view, ByMetric), src)
    ensures PrevIsTight(NetOf(view, ByMetric), src, Result(view, ByMetric, src))
    ensures PathsAreAll(NetOf(view, ByMetric), src, Result(view, ByMetric, src))
  {
    RunIsFinal(view, ByMetric, src);
    NetOfIsValid(view, ByMetric);
    var s := Run(view, ByMetric, Init(view, src));
    FinalPrev(view.nodes, NetOf(view, ByMetric), src, s);
    FinalPaths(view.nodes, NetOf(view, ByMetric), src, s);
  }
}
