/**
 * Segment lists: what they make a packet do, and how graph_minseg builds one for a path.
 */
module Segments {
  import opened ShortestPaths
  import opened Graphs
  import opened Dijkstra

  datatype Segment = NodeSegment(node: Node) | AdjSegment(edge: Edge)

  // ------------------------------------------------------------ forwarding

  // A router x may forward towards t over any neighbour that starts a least-cost walk.
  ghost predicate NextHop(net: Net, x: Node, t: Node, y: Node) {
    exists p: seq<Node> :: ShortestFrom(net, x, t, p) && |p| > 1 && p[1] == y
  }

  // A packet with active node segment t: each router picks a next hop of its own,
  // and the segment ends where the packet first meets t.
  ghost predicate Delivers(net: Net, x: Node, t: Node, trace: seq<Node>) {
    && |trace| > 0 && x in net.nodes && trace[0] == x && Last(trace) == t
    && forall i, j | 0 <= i < |trace| - 1 && j == i + 1 ::
         trace[i] != t && NextHop(net, trace[i], t, trace[j])
  }

  // One segment, executed by a packet at x.
  ghost predicate Executes(net: Net, x: Node, s: Segment, trace: seq<Node>) {
    match s
    case NodeSegment(t) => Delivers(net, x, t, trace)
    case AdjSegment(e) => x == e.local && (e.local, e.remote) in net.cost && trace == [e.local, e.remote]
  }

  // The traces a packet at x can leave while it executes the segments in order.
  ghost predicate Carries(net: Net, x: Node, segs: seq<Segment>, trace: seq<Node>)
    decreases |segs|
  {
    if segs == [] then trace == [x] && x in net.nodes
    else
      exists k | 0 <= k < |trace| ::
        && Carries(net, x, segs[..|segs| - 1], trace[..k + 1])
        && Executes(net, trace[k], Last(segs), trace[k..])
  }

  // Whatever the routers choose, the packet follows w and nothing else.
  ghost predicate Exactly(net: Net, x: Node, segs: seq<Segment>, w: seq<Node>) {
    forall trace :: Carries(net, x, segs, trace) <==> trace == w
  }

  // ------------------------------------------------------------ graph_minseg

  function PrevOf(view: View, r: Node, v: Node): seq<Node>
    requires Consistent(view) && v in view.nodes
  {
    InitOk(view, r);
    Result(view, ByMetric, r).prev[v]
  }

  // The list so far, the node the last segment leads to, and whether an edge was missing.
  datatype Progress = Progress(segs: seq<Segment>, from: Node, ok: bool)

  function OverNode(s: Progress, x: Node): Progress {
    s.(segs := s.segs + [NodeSegment(x)], from := x)
  }

  function OverLink(view: View, s: Progress, x: Node, y: Node): Progress {
    if (x, y) in view.minEdges
    then s.(segs := s.segs + [NodeSegment(x), AdjSegment(view.minEdges[(x, y)])], from := y)
    else s.(segs := s.segs + [NodeSegment(x)], ok := false)
  }

  // One hop from x to y of the path.
  function Hop(view: View, s: Progress, x: Node, y: Node): Progress
    requires Consistent(view) && y in view.nodes
  {
    if x !in PrevOf(view, s.from, y) then
      if |PrevOf(view, x, y)| == 1 then OverNode(s, x) else OverLink(view, s, x, y)
    else if |PrevOf(view, s.from, y)| <= 1 then s
    else if |PrevOf(view, x, y)| > 1 then OverLink(view, s, x, y)
    else OverNode(s, x)
  }

  ghost predicate InGraph(view: View, path: seq<Node>) {
    forall x | x in path :: x in view.nodes
  }

  // After the first n hops.
  function MinSegs(view: View, path: seq<Node>, n: nat): Progress
    requires Consistent(view) && InGraph(view, path) && n < |path|
  {
    if n == 0 then Progress([], path[0], true)
    else
      var s := MinSegs(view, path, n - 1);
      if s.ok then Hop(view, s, path[n - 1], path[n]) else s
  }

  // ------------------------------------------------------------ one leg of build_segpath

  // The waypoint rule: name the end of the leg unless a link into it was just named.
  function EndLeg(segs: seq<Segment>, t: Node): seq<Segment> {
    if |segs| > 0 && Last(segs).AdjSegment? && Last(segs).edge.remote == t then segs
    else segs + [NodeSegment(t)]
  }
}

module SegmentTheorems {
  import opened Basics
  import opened ShortestPaths
  import opened Graphs
  import opened Dijkstra
  import opened DijkstraProofs
  import opened DijkstraTheorems
  import opened Segments

  // ------------------------------------------------------------ forwarding follows least-cost walks

  lemma {:induction false} DeliveredIsShortest(net: Net, x: Node, t: Node, trace: seq<Node>)
    requires net.Valid() && Delivers(net, x, t, trace)
    ensures ShortestFrom(net, x, t, trace)
    decreases |trace|
  {
    if |trace| == 1 {
      StandingStill(net, x);
    } else {
      var y, rest := trace[1], trace[1..];
      assert NextHop(net, trace[0], t, trace[1]);
      var p: seq<Node> :| ShortestFrom(net, x, t, p) && |p| > 1 && p[1] == y;
      WalkStaysInNodes(net, p, 1);
      DeliveredIsShortest(net, y, t, rest);
      assert trace == Glue([x, y], rest);
      FirstHopSwap(net, p, rest);
    }
  }

  // Two least-cost walks with the same first hop may exchange their tails.
  lemma FirstHopSwap(net: Net, p: seq<Node>, rest: seq<Node>)
    requires net.Valid() && Shortest(net, p) && |p| > 1
    requires Shortest(net, rest) && rest[0] == p[1] && Last(rest) == Last(p)
    ensures ShortestFrom(net, p[0], Last(p), Glue([p[0], p[1]], rest))
  {
    ShortestSuffix(net, p, 1);
    SameEndsSameCost(net, p[1..], rest);
    CostSplit(net, p, 1);
    assert p[..1 + 1] == [p[0], p[1]];
    GlueCost(net, [p[0], p[1]], rest);
    AsCheapIsShortest(net, p, Glue([p[0], p[1]], rest));
  }

  lemma ShortestIsDelivered(net: Net, x: Node, t: Node, trace: seq<Node>)
    requires net.Valid() && net.Positive() && ShortestFrom(net, x, t, trace)
    ensures Delivers(net, x, t, trace)
  {
    forall i, j | 0 <= i < |trace| - 1 && j == i + 1
      ensures trace[i] != t && NextHop(net, trace[i], t, trace[j])
    {
      CycleIsNotShortest(net, trace, i, |trace| - 1);
      ShortestSuffix(net, trace, i);
      assert trace[i..][1] == trace[j];
    }
  }

  // Hop-by-hop forwarding with any choice among equal-cost next hops follows exactly
  // the least-cost walks.
  lemma ForwardingIsShortest(net: Net, x: Node, t: Node, trace: seq<Node>)
    requires net.Valid() && net.Positive()
    ensures Delivers(net, x, t, trace) <==> ShortestFrom(net, x, t, trace)
  {
    if Delivers(net, x, t, trace) {
      DeliveredIsShortest(net, x, t, trace);
    } else if ShortestFrom(net, x, t, trace) {
      ShortestIsDelivered(net, x, t, trace);
    }
  }

  // ------------------------------------------------------------ appending segments

  lemma CarriesSnoc(net: Net, x: Node, a: seq<Segment>, s: Segment, trace: seq<Node>)
    ensures Carries(net, x, a + [s], trace) <==>
              exists k | 0 <= k < |trace| ::
                Carries(net, x, a, trace[..k + 1]) && Executes(net, trace[k], s, trace[k..])
  {
    var b := a + [s];
    assert b[..|b| - 1] == a && Last(b) == s;
  }

  lemma GlueIsSplit(w: seq<Node>, u: seq<Node>, trace: seq<Node>, k: nat)
    requires |w| > 0 && |u| > 0 && u[0] == Last(w) && k < |trace|
    ensures trace[..k + 1] == w && trace[k..] == u <==> trace == Glue(w, u) && k == |w| - 1
  {
    if trace[..k + 1] == w && trace[k..] == u {
      assert trace == trace[..k + 1] + trace[k..][1..];
    }
  }

  // If the list leads along w only, and the next segment leads from its end along u only,
  // the longer list leads along both only.
  lemma ExactlyAppend(net: Net, x: Node, a: seq<Segment>, w: seq<Node>, s: Segment, u: seq<Node>)
    requires Exactly(net, x, a, w) && |w| > 0 && |u| > 0 && u[0] == Last(w)
    requires forall trace :: Executes(net, Last(w), s, trace) <==> trace == u
    ensures Exactly(net, x, a + [s], Glue(w, u))
  {
    hide Executes, Carries;
    forall trace
      ensures Carries(net, x, a + [s], trace) <==> trace == Glue(w, u)
    {
      CarriesSnoc(net, x, a, s, trace);
      if k :| 0 <= k < |trace| && Carries(net, x, a, trace[..k + 1]) && Executes(net, trace[k], s, trace[k..]) {
        assert trace[..k + 1] == w && trace[k] == Last(w);
        GlueIsSplit(w, u, trace, k);
      }
      if trace == Glue(w, u) {
        var k := |w| - 1;
        GlueIsSplit(w, u, trace, k);
        assert Carries(net, x, a, trace[..k + 1]) && Executes(net, trace[k], s, trace[k..]);
      }
    }
  }

  lemma NodeSegmentIsExact(net: Net, u: seq<Node>)
    requires net.Valid() && net.Positive() && Unique(net, u)
    ensures forall trace :: Executes(net, u[0], NodeSegment(Last(u)), trace) <==> trace == u
  {
    forall trace
      ensures Executes(net, u[0], NodeSegment(Last(u)), trace) <==> trace == u
    {
      ForwardingIsShortest(net, u[0], Last(u), trace);
    }
  }

  // ------------------------------------------------------------ prev lists and unique walks

  ghost predicate Sound(view: View) {
    && Consistent(view)
    && forall r | r in view.nodes :: NoOverflow(NetOf(view, ByMetric), r)
  }

  lemma PrevOfIsTight(view: View, r: Node, v: Node, u: Node)
    requires Sound(view) && r in view.nodes && v in view.nodes
    ensures u in PrevOf(view, r, v) <==> TightPred(NetOf(view, ByMetric), r, u, v)
    ensures NoDup(PrevOf(view, r, v))
  {
    EqualCostPathsAreAllFound(view, r);
  }

  lemma OnlyOne(s: seq<Node>, x: Node, y: Node)
    requires |s| <= 1 && x in s && y in s
    ensures x == y
  {
  }

  // A least-cost walk has no hops only if all between the same ends have none.
  lemma LastHopOf(net: Net, r: Node, v: Node, q: seq<Node>, p: seq<Node>)
    requires net.Valid() && net.Positive() && ShortestFrom(net, r, v, q)
    requires ShortestFrom(net, r, v, p) && |p| > 1
    ensures |q| > 1 && TightPred(net, r, q[|q| - 2], v)
    ensures ShortestFrom(net, r, q[|q| - 2], q[..|q| - 1])
  {
    SameEndsSameCost(net, p, q);
    MovingCosts(net, p);
    ShortestPrefix(net, q, |q| - 2);
    assert q[..|q| - 2 + 1] == q[..|q| - 1];
  }

  // If the end of a unique walk is the only tight predecessor of v, the walk extends
  // to a unique walk to v.
  lemma UniqueExtends(net: Net, p: seq<Node>, v: Node)
    requires net.Valid() && net.Positive() && Unique(net, p)
    requires TightPred(net, p[0], Last(p), v)
    requires forall u | TightPred(net, p[0], u, v) :: u == Last(p)
    ensures Unique(net, p + [v])
  {
    var r := p[0];
    TightPredExtends(net, r, Last(p), v, p);
    forall q | ShortestFrom(net, r, v, q)
      ensures q == p + [v]
    {
      LastHopOf(net, r, v, q, p + [v]);
      assert q == q[..|q| - 1] + [v];
    }
  }

  lemma OnlyTight(view: View, r: Node, u: Node, v: Node)
    requires Sound(view) && r in view.nodes && v in view.nodes
    requires u in PrevOf(view, r, v) && |PrevOf(view, r, v)| <= 1
    ensures TightPred(NetOf(view, ByMetric), r, u, v)
    ensures forall u' | TightPred(NetOf(view, ByMetric), r, u', v) :: u' == u
  {
    PrevOfIsTight(view, r, v, u);
    forall u' | TightPred(NetOf(view, ByMetric), r, u', v) ensures u' == u {
      PrevOfIsTight(view, r, v, u');
      OnlyOne(PrevOf(view, r, v), u, u');
    }
  }

  // ------------------------------------------------------------ what graph_minseg needs of a hop

  // The link is itself a least-cost way to y, or y has several tight predecessors from x.
  ghost predicate GoodHop(net: Net, x: Node, y: Node) {
    && (x, y) in net.cost
    && (TightPred(net, x, x, y)
        || exists a, b :: a != b && TightPred(net, x, a, y) && TightPred(net, x, b, y))
  }

  ghost predicate GoodPath(net: Net, p: seq<Node>) {
    forall i, j | 0 <= i < |p| - 1 && j == i + 1 :: GoodHop(net, p[i], p[j])
  }

  lemma LinkedNodes(view: View, x: Node, y: Node)
    requires Consistent(view) && (x, y) in view.minEdges
    ensures x in view.nodes && y in view.nodes && x != y
    ensures Joins(NetOf(view, ByMetric), x, y, [x, y])
  {
  }

  lemma GoodHopByList(net: Net, x: Node, y: Node, prev: seq<Node>)
    requires (x, y) in net.cost && NoDup(prev) && |prev| >= 1
    requires forall u :: u in prev <==> TightPred(net, x, u, y)
    ensures GoodHop(net, x, y) <==> x in prev || |prev| > 1
  {
    if |prev| > 1 {
      assert prev[0] in prev && prev[1] in prev;
    } else {
      assert prev == [prev[0]];
    }
  }

  // graph_minseg recognises a good hop by the list of predecessors of y from x.
  lemma GoodHopByPrev(view: View, x: Node, y: Node)
    requires Sound(view) && (x, y) in view.minEdges
    ensures x in view.nodes && y in view.nodes && |PrevOf(view, x, y)| >= 1
    ensures GoodHop(NetOf(view, ByMetric), x, y) <==> x in PrevOf(view, x, y) || |PrevOf(view, x, y)| > 1
  {
    hide Consistent, NoOverflow, PrevOf, TightPred, NetOf, GoodHop;
    var net := NetOf(view, ByMetric);
    LinkedNodes(view, x, y);
    SomePrev(view, x, y);
    assert (x, y) in net.cost;
    forall u ensures u in PrevOf(view, x, y) <==> TightPred(net, x, u, y) {
      PrevOfIsTight(view, x, y, u);
    }
    PrevOfIsTight(view, x, y, x);
    GoodHopByList(net, x, y, PrevOf(view, x, y));
  }

  lemma SomePrev(view: View, x: Node, y: Node)
    requires Sound(view) && (x, y) in view.minEdges
    ensures x in view.nodes && y in view.nodes && |PrevOf(view, x, y)| >= 1
  {
    var net := NetOf(view, ByMetric);
    NetOfIsValid(view, ByMetric);
    LinkedNodes(view, x, y);
    DistancesAreExact(view, ByMetric, x);
    assert y in net.nodes && Reachable(net, x, y);
    hide Consistent, NoOverflow, PrevOf, NetOf, IsWalk, Result;
    var r := Result(view, ByMetric, x);
    var p: seq<Node> :| ShortestFrom(net, x, y, p) && Cost(net, p) == r.dist[y];
    EndsAt(net, x, y, p);
    assert TightPred(net, x, p[|p| - 2], y);
    PrevOfIsTight(view, x, y, p[|p| - 2]);
  }

  // A predecessor on the way from anywhere is a direct predecessor too.
  lemma TightFromAnywhere(net: Net, r: Node, x: Node, y: Node)
    requires net.Valid() && TightPred(net, r, x, y)
    ensures TightPred(net, x, x, y)
  {
    var p: seq<Node> :| ShortestFrom(net, r, y, p) && |p| > 1 && p[|p| - 2] == x;
    ShortestSuffix(net, p, |p| - 2);
    var q := p[|p| - 2..];
    assert q == [x, y];
  }

  // ------------------------------------------------------------ following graph_minseg

  // After n hops of path the list leads the packet along w and then the path up to node j,
  // where the last segment points, and from there only one least-cost walk leads on.
  ghost predicate Tracks(net: Net, x0: Node, base: seq<Segment>, w: seq<Node>,
                         path: seq<Node>, n: nat, s: Progress, j: nat)
  {
    && s.ok && j <= n < |path| && s.from == path[j]
    && Unique(net, path[j..n + 1])
    && Exactly(net, x0, base + s.segs, Glue(w, path[..j + 1]))
  }

  lemma GlueOn(w: seq<Node>, path: seq<Node>, j: nat, n: nat)
    requires j <= n < |path| && |w| > 0 && Last(w) == path[0]
    ensures Last(Glue(w, path[..j + 1])) == path[j]
    ensures Glue(Glue(w, path[..j + 1]), path[j..n + 1]) == Glue(w, path[..n + 1])
  {
  }

  // Naming the node reached after n hops pins the walk down to there.
  lemma NameNode(net: Net, x0: Node, base: seq<Segment>, w: seq<Node>,
                 path: seq<Node>, n: nat, s: Progress, j: nat)
    requires net.Valid() && net.Positive() && |w| > 0 && |path| > 0 && Last(w) == path[0]
    requires Tracks(net, x0, base, w, path, n, s, j)
    ensures Exactly(net, x0, base + (s.segs + [NodeSegment(path[n])]), Glue(w, path[..n + 1]))
  {
    var u := path[j..n + 1];
    GlueOn(w, path, j, n);
    NodeSegmentIsExact(net, u);
    assert u[0] == path[j] && Last(u) == path[n];
    ExactlyAppend(net, x0, base + s.segs, Glue(w, path[..j + 1]), NodeSegment(path[n]), u);
    assert base + s.segs + [NodeSegment(path[n])] == base + (s.segs + [NodeSegment(path[n])]);
  }

  // Naming the link of the next hop takes the packet over it.
  lemma NameLink(net: Net, x0: Node, segs: seq<Segment>, w: seq<Node>, path: seq<Node>, n: nat, e: Edge)
    requires |w| > 0 && n + 1 < |path| && Last(w) == path[0]
    requires Exactly(net, x0, segs, Glue(w, path[..n + 1]))
    requires Connects(e, path[n], path[n + 1]) && (path[n], path[n + 1]) in net.cost
    ensures Exactly(net, x0, segs + [AdjSegment(e)], Glue(w, path[..n + 2]))
  {
    GlueOn(w, path, n, n + 1);
    assert path[n..n + 2] == [e.local, e.remote];
    assert path[..n + 2] == path[..n + 1 + 1];
    ExactlyAppend(net, x0, segs, Glue(w, path[..n + 1]), AdjSegment(e), path[n..n + 2]);
  }

  lemma SingleIsUnique(view: View, path: seq<Node>, n: nat)
    requires Consistent(view) && InGraph(view, path) && n < |path|
    ensures Unique(NetOf(view, ByMetric), path[n..n + 1])
  {
    NetOfIsValid(view, ByMetric);
    assert path[n..n + 1] == [path[n]];
    assert path[n] in path;
    StandingStillIsUnique(NetOf(view, ByMetric), path[n]);
  }

  lemma UniqueOn(view: View, p: seq<Node>, y: Node)
    requires Sound(view) && |p| > 0 && p[0] in view.nodes && y in view.nodes
    requires Unique(NetOf(view, ByMetric), p)
    requires Last(p) in PrevOf(view, p[0], y) && |PrevOf(view, p[0], y)| <= 1
    ensures Unique(NetOf(view, ByMetric), p + [y])
  {
    hide NoOverflow, PrevOf, TightPred, NetOf, Unique;
    NetOfIsValid(view, ByMetric);
    OnlyTight(view, p[0], Last(p), y);
    UniqueExtends(NetOf(view, ByMetric), p, y);
  }

  lemma OverNodeTracks(net: Net, x0: Node, base: seq<Segment>, w: seq<Node>,
                       path: seq<Node>, n: nat, s: Progress, j: nat)
    requires net.Valid() && net.Positive() && n + 1 < |path| && |w| > 0 && Last(w) == path[0]
    requires Tracks(net, x0, base, w, path, n, s, j) && Unique(net, path[n..n + 2])
    ensures Tracks(net, x0, base, w, path, n + 1, OverNode(s, path[n]), n)
  {
    NameNode(net, x0, base, w, path, n, s, j);
  }

  lemma OverLinkTracks(view: View, x0: Node, base: seq<Segment>, w: seq<Node>,
                       path: seq<Node>, n: nat, s: Progress, j: nat)
    requires Sound(view) && InGraph(view, path) && n + 1 < |path| && |w| > 0 && Last(w) == path[0]
    requires Tracks(NetOf(view, ByMetric), x0, base, w, path, n, s, j)
    requires (path[n], path[n + 1]) in view.minEdges
    ensures Tracks(NetOf(view, ByMetric), x0, base, w, path, n + 1, OverLink(view, s, path[n], path[n + 1]), n + 1)
  {
    var net, x, y := NetOf(view, ByMetric), path[n], path[n + 1];
    var e := view.minEdges[(x, y)];
    NetOfIsValid(view, ByMetric);
    NameNode(net, x0, base, w, path, n, s, j);
    NameLink(net, x0, base + (s.segs + [NodeSegment(x)]), w, path, n, e);
    SingleIsUnique(view, path, n + 1);
    assert base + (s.segs + [NodeSegment(x)]) + [AdjSegment(e)] == base + (s.segs + [NodeSegment(x), AdjSegment(e)]);
  }

  lemma StayTracks(view: View, x0: Node, base: seq<Segment>, w: seq<Node>,
                   path: seq<Node>, n: nat, s: Progress, j: nat)
    requires Sound(view) && InGraph(view, path) && n + 1 < |path|
    requires path[n + 1] in view.nodes && s.from in view.nodes
    requires Tracks(NetOf(view, ByMetric), x0, base, w, path, n, s, j)
    requires path[n] in PrevOf(view, s.from, path[n + 1]) && |PrevOf(view, s.from, path[n + 1])| <= 1
    ensures Tracks(NetOf(view, ByMetric), x0, base, w, path, n + 1, s, j)
  {
    hide NoOverflow, Consistent, PrevOf, NetOf, Unique, Exactly;
    UniqueOn(view, path[j..n + 1], path[n + 1]);
    assert path[j..n + 2] == path[j..n + 1] + [path[n + 1]];
  }

  lemma NodeStepTracks(view: View, x0: Node, base: seq<Segment>, w: seq<Node>,
                       path: seq<Node>, n: nat, s: Progress, j: nat)
    requires Sound(view) && InGraph(view, path) && n + 1 < |path| && |w| > 0 && Last(w) == path[0]
    requires path[n + 1] in view.nodes && path[n] in view.nodes
    requires Tracks(NetOf(view, ByMetric), x0, base, w, path, n, s, j)
    requires path[n] in PrevOf(view, path[n], path[n + 1]) && |PrevOf(view, path[n], path[n + 1])| <= 1
    ensures Tracks(NetOf(view, ByMetric), x0, base, w, path, n + 1, OverNode(s, path[n]), n)
  {
    hide NoOverflow, Consistent, PrevOf, NetOf, Unique, Exactly, Tracks;
    NetOfIsValid(view, ByMetric);
    SingleIsUnique(view, path, n);
    UniqueOn(view, path[n..n + 1], path[n + 1]);
    assert path[n..n + 2] == path[n..n + 1] + [path[n + 1]];
    OverNodeTracks(NetOf(view, ByMetric), x0, base, w, path, n, s, j);
  }

  lemma TracksNodes(view: View, net: Net, x0: Node, base: seq<Segment>, w: seq<Node>,
                    path: seq<Node>, n: nat, s: Progress, j: nat)
    requires InGraph(view, path) && n + 1 < |path| && Tracks(net, x0, base, w, path, n, s, j)
    ensures s.ok && s.from in view.nodes && path[n] in view.nodes && path[n + 1] in view.nodes
  {
    assert s.from in path && path[n] in path && path[n + 1] in path;
  }

  lemma HopTracks(view: View, x0: Node, base: seq<Segment>, w: seq<Node>,
                  path: seq<Node>, n: nat, s: Progress, j: nat) returns (j': nat)
    requires Sound(view) && InGraph(view, path) && n + 1 < |path| && |w| > 0 && Last(w) == path[0]
    requires path[n + 1] in view.nodes
    requires Tracks(NetOf(view, ByMetric), x0, base, w, path, n, s, j)
    requires GoodHop(NetOf(view, ByMetric), path[n], path[n + 1])
    ensures Tracks(NetOf(view, ByMetric), x0, base, w, path, n + 1, Hop(view, s, path[n], path[n + 1]), j')
  {
    var net, x, y := NetOf(view, ByMetric), path[n], path[n + 1];
    assert (x, y) in view.minEdges;
    hide NoOverflow, Consistent, PrevOf, NetOf, GoodHop, Tracks, InGraph, OverNode, OverLink;
    TracksNodes(view, net, x0, base, w, path, n, s, j);
    GoodHopByPrev(view, x, y);
    TightAtLink(view, s.from, x, y);
    if x in PrevOf(view, s.from, y) && |PrevOf(view, s.from, y)| <= 1 {
      StayTracks(view, x0, base, w, path, n, s, j);
      j' := j;
    } else if |PrevOf(view, x, y)| == 1 {
      NodeStepTracks(view, x0, base, w, path, n, s, j);
      j' := n;
    } else {
      OverLinkTracks(view, x0, base, w, path, n, s, j);
      j' := n + 1;
    }
  }

  lemma TightAtLink(view: View, r: Node, x: Node, y: Node)
    requires Sound(view) && r in view.nodes && x in view.nodes && y in view.nodes
    ensures x in PrevOf(view, r, y) ==> x in PrevOf(view, x, y)
  {
    hide NoOverflow, PrevOf, TightPred, NetOf;
    NetOfIsValid(view, ByMetric);
    PrevOfIsTight(view, r, y, x);
    PrevOfIsTight(view, x, y, x);
    if x in PrevOf(view, r, y) {
      TightFromAnywhere(NetOf(view, ByMetric), r, x, y);
    }
  }

  // ------------------------------------------------------------ sufficiency: good hops are followed

  lemma StartTracks(view: View, x0: Node, base: seq<Segment>, w: seq<Node>, path: seq<Node>)
    requires Sound(view) && InGraph(view, path) && |path| > 0 && |w| > 0 && Last(w) == path[0]
    requires Exactly(NetOf(view, ByMetric), x0, base, w)
    ensures Tracks(NetOf(view, ByMetric), x0, base, w, path, 0, MinSegs(view, path, 0), 0)
  {
    SingleIsUnique(view, path, 0);
    assert base + [] == base && Glue(w, path[..0 + 1]) == w;
  }

  lemma {:induction false} MinSegsTracks(view: View, x0: Node, base: seq<Segment>, w: seq<Node>,
                                         path: seq<Node>, n: nat) returns (j: nat)
    requires Sound(view) && InGraph(view, path) && n < |path| && |w| > 0 && Last(w) == path[0]
    requires Exactly(NetOf(view, ByMetric), x0, base, w)
    requires GoodPath(NetOf(view, ByMetric), path[..n + 1])
    ensures Tracks(NetOf(view, ByMetric), x0, base, w, path, n, MinSegs(view, path, n), j)
  {
    hide Tracks, Consistent, NoOverflow, Exactly, GoodHop, Hop, NetOf;
    if n == 0 {
      StartTracks(view, x0, base, w, path);
      j := 0;
    } else {
      var net, p := NetOf(view, ByMetric), path[..n + 1];
      assert GoodHop(net, p[n - 1], p[n]);
      assert forall i | 0 <= i < n :: path[..n][i] == p[i];
      j := MinSegsTracks(view, x0, base, w, path, n - 1);
      assert path[n] in path;
      TracksNodes(view, net, x0, base, w, path, n - 1, MinSegs(view, path, n - 1), j);
      j := HopTracks(view, x0, base, w, path, n - 1, MinSegs(view, path, n - 1), j);
    }
  }

  // An adjacency segment at the end of the list points at x.
  ghost predicate Points(segs: seq<Segment>, x: Node) {
    |segs| > 0 && Last(segs).AdjSegment? ==> Last(segs).edge.remote == x
  }

  lemma {:induction false} MinSegsPoints(view: View, base: seq<Segment>, path: seq<Node>, n: nat)
    requires Consistent(view) && InGraph(view, path) && n < |path| && Points(base, path[0])
    ensures MinSegs(view, path, n).ok ==> Points(base + MinSegs(view, path, n).segs, MinSegs(view, path, n).from)
  {
    hide PrevOf;
    if n == 0 {
      assert base + [] == base;
    } else {
      MinSegsPoints(view, base, path, n - 1);
      var s, t := MinSegs(view, path, n - 1), MinSegs(view, path, n);
      if s.ok && t.ok && t != s {
        assert Last(base + t.segs) == Last(t.segs);
      }
    }
  }

  // One leg: graph_minseg followed by the waypoint rule extends the packet's walk by
  // exactly this path.
  lemma LegIsExact(view: View, x0: Node, base: seq<Segment>, w: seq<Node>, path: seq<Node>)
    requires Sound(view) && InGraph(view, path) && |path| > 0 && |w| > 0 && Last(w) == path[0]
    requires Exactly(NetOf(view, ByMetric), x0, base, w) && Points(base, path[0])
    requires GoodPath(NetOf(view, ByMetric), path)
    ensures MinSegs(view, path, |path| - 1).ok
    ensures var segs := EndLeg(base + MinSegs(view, path, |path| - 1).segs, Last(path));
      Exactly(NetOf(view, ByMetric), x0, segs, Glue(w, path)) && Points(segs, Last(path))
  {
    var net, n := NetOf(view, ByMetric), |path| - 1;
    assert path[..n + 1] == path;
    var j := MinSegsTracks(view, x0, base, w, path, n);
    MinSegsPoints(view, base, path, n);
    EndLegIsExact(view, net, x0, base, w, path, MinSegs(view, path, n), j);
  }

  lemma EndLegIsExact(view: View, net: Net, x0: Node, base: seq<Segment>, w: seq<Node>,
                      path: seq<Node>, s: Progress, j: nat)
    requires Consistent(view) && net == NetOf(view, ByMetric) && InGraph(view, path)
    requires |path| > 0 && |w| > 0 && Last(w) == path[0]
    requires Tracks(net, x0, base, w, path, |path| - 1, s, j) && Points(base + s.segs, s.from)
    ensures Exactly(net, x0, EndLeg(base + s.segs, Last(path)), Glue(w, path))
    ensures Points(EndLeg(base + s.segs, Last(path)), Last(path))
  {
    var t, n := Last(path), |path| - 1;
    assert path[..n + 1] == path && t in path;
    NetOfIsValid(view, ByMetric);
    if EndLeg(base + s.segs, t) == base + s.segs {
      assert s.from == t;
      StandingStillIsUnique(net, t);
      assert ShortestFrom(net, t, t, [t]);
      var u := path[j..n + 1];
      assert u[0] == t && Last(u) == t;
      assert ShortestFrom(net, u[0], Last(u), [t]);
      assert u == [t];
    } else {
      NameNode(net, x0, base, w, path, n, s, j);
      assert base + (s.segs + [NodeSegment(t)]) == base + s.segs + [NodeSegment(t)];
    }
  }

  // ------------------------------------------------------------ necessity: a bad hop is not followed

  lemma {:induction false} CarriesPrefix(net: Net, x: Node, a: seq<Segment>, b: seq<Segment>, trace: seq<Node>) returns (k: nat)
    requires Carries(net, x, a + b, trace)
    ensures k < |trace| && Carries(net, x, a, trace[..k + 1])
    decreases |b|
  {
    hide Carries, Executes;
    if b == [] {
      assert a + b == a;
      CarriesMoves(net, x, a, trace);
      k := |trace| - 1;
      assert trace[..k + 1] == trace;
    } else {
      var b' := b[..|b| - 1];
      assert a + b == (a + b') + [Last(b)];
      CarriesSnoc(net, x, a + b', Last(b), trace);
      var m :| 0 <= m < |trace| && Carries(net, x, a + b', trace[..m + 1]) && Executes(net, trace[m], Last(b), trace[m..]);
      k := CarriesPrefix(net, x, a, b', trace[..m + 1]);
      assert trace[..m + 1][..k + 1] == trace[..k + 1];
    }
  }

  lemma CarriesMoves(net: Net, x: Node, segs: seq<Segment>, trace: seq<Node>)
    requires Carries(net, x, segs, trace)
    ensures |trace| > 0
  {
  }

  ghost predicate Linked(view: View, p: seq<Node>) {
    forall i, j | 0 <= i < |p| - 1 && j == i + 1 :: (p[i], p[j]) in view.minEdges
  }

  // After hop i the next segment named is a node further along the path.
  ghost predicate GoesOn(path: seq<Node>, i: nat, n: nat, a: seq<Segment>, b: seq<Segment>) {
    && a <= b
    && (|a| < |b| ==> exists m :: i < m <= n && m < |path| && b[|a|] == NodeSegment(path[m]))
  }

  lemma {:induction false} NextNamed(view: View, path: seq<Node>, i: nat, n: nat)
    requires Consistent(view) && InGraph(view, path) && i < n < |path|
    requires Linked(view, path)
    ensures MinSegs(view, path, n).ok
    ensures GoesOn(path, i, n, MinSegs(view, path, i + 1).segs, MinSegs(view, path, n).segs)
  {
    hide MinSegs, Linked, Consistent, GoesOn, InGraph;
    MinSegsOk(view, path, n);
    if n > i + 1 {
      NextNamed(view, path, i, n - 1);
      MinSegsOk(view, path, n - 1);
      HopNames(view, path, n);
      GoesOnStep(path, i, n, MinSegs(view, path, i + 1).segs, MinSegs(view, path, n - 1).segs, MinSegs(view, path, n).segs);
    } else {
      GoesOnSame(path, i, n, MinSegs(view, path, n).segs);
    }
  }

  lemma GoesOnSame(path: seq<Node>, i: nat, n: nat, a: seq<Segment>)
    ensures GoesOn(path, i, n, a, a)
  {
  }

  lemma GoesOnStep(path: seq<Node>, i: nat, n: nat, a: seq<Segment>, b: seq<Segment>, c: seq<Segment>)
    requires i + 1 < n < |path| && GoesOn(path, i, n - 1, a, b)
    requires b <= c && (|b| < |c| ==> c[|b|] == NodeSegment(path[n - 1]))
    ensures GoesOn(path, i, n, a, c)
  {
    if |a| < |b| {
      assert c[|a|] == b[|a|];
    }
  }

  lemma HopNames(view: View, path: seq<Node>, n: nat)
    requires Consistent(view) && InGraph(view, path) && 0 < n < |path|
    requires MinSegs(view, path, n - 1).ok && MinSegs(view, path, n).ok
    ensures var b, c := MinSegs(view, path, n - 1).segs, MinSegs(view, path, n).segs;
      b <= c && (|b| < |c| ==> c[|b|] == NodeSegment(path[n - 1]))
  {
    hide PrevOf, Consistent;
  }

  lemma {:induction false} MinSegsOk(view: View, path: seq<Node>, n: nat)
    requires Consistent(view) && InGraph(view, path) && n < |path|
    requires Linked(view, path)
    ensures MinSegs(view, path, n).ok
  {
    hide PrevOf;
    if n > 0 {
      MinSegsOk(view, path, n - 1);
      assert (path[n - 1], path[n]) in view.minEdges;
    }
  }

  // At a bad hop graph_minseg names the node before it and relies on the link being shortest.
  lemma BadHopNamesNode(view: View, s: Progress, x: Node, y: Node)
    requires Sound(view) && (x, y) in view.minEdges && s.from in view.nodes && y in view.nodes
    requires !GoodHop(NetOf(view, ByMetric), x, y)
    ensures Hop(view, s, x, y) == OverNode(s, x)
  {
    hide Consistent, NoOverflow, PrevOf, GoodHop, NetOf;
    GoodHopByPrev(view, x, y);
    TightAtLink(view, s.from, x, y);
  }

  // A packet that has come along w to position i and is then sent to another node can keep to w
  // only if the hop at i is a least-cost way.
  lemma KeepingToWalk(net: Net, x0: Node, w: seq<Node>, a: seq<Segment>, t: Node, rest: seq<Segment>, i: nat)
    requires net.Valid() && i + 1 < |w| && (w[i], w[i + 1]) in net.cost && t != w[i]
    requires Exactly(net, x0, a, w[..i + 1])
    requires Carries(net, x0, a + [NodeSegment(t)] + rest, w)
    ensures GoodHop(net, w[i], w[i + 1])
  {
    hide Carries, Delivers, GoodHop;
    var k' := CarriesPrefix(net, x0, a + [NodeSegment(t)], rest, w);
    var u := w[..k' + 1];
    CarriesSnoc(net, x0, a, NodeSegment(t), u);
    var k :| 0 <= k < |u| && Carries(net, x0, a, u[..k + 1]) && Executes(net, u[k], NodeSegment(t), u[k..]);
    assert u[..k + 1] == w[..i + 1];
    assert |u[..k + 1]| == |w[..i + 1]|;
    assert u[k..] == w[i..k' + 1] && u[k] == w[i];
    StretchIsGood(net, w, i, k', t);
  }

  lemma StretchIsGood(net: Net, w: seq<Node>, i: nat, k: nat, t: Node)
    requires net.Valid() && i + 1 < |w| && i <= k < |w| && (w[i], w[i + 1]) in net.cost && t != w[i]
    requires Delivers(net, w[i], t, w[i..k + 1])
    ensures GoodHop(net, w[i], w[i + 1])
  {
    var u := w[i..k + 1];
    DeliveredIsShortest(net, w[i], t, u);
    assert Last(u) == w[k];
    ShortestPrefix(net, u, 1);
    var q := u[..1 + 1];
    assert q == [w[i], w[i + 1]];
    assert ShortestFrom(net, w[i], w[i + 1], q) && q[|q| - 2] == w[i];
  }

  function LegSegments(view: View, p: seq<Node>): seq<Segment>
    requires Consistent(view) && InGraph(view, p) && |p| > 0
  {
    EndLeg(MinSegs(view, p, |p| - 1).segs, Last(p))
  }

  // What follows the segment named at the first bad hop.
  lemma AfterBadHop(view: View, p: seq<Node>, i: nat, a: seq<Segment>) returns (m: nat, rest: seq<Segment>)
    requires Consistent(view) && InGraph(view, p) && Linked(view, p) && i + 1 < |p|
    requires a == MinSegs(view, p, i + 1).segs && |a| > 0 && Last(a).NodeSegment?
    ensures i < m < |p| && LegSegments(view, p) == a + [NodeSegment(p[m])] + rest
    ensures a <= MinSegs(view, p, |p| - 1).segs
  {
    hide MinSegs, Consistent, InGraph;
    NextNamed(view, p, i, |p| - 1);
    var b, l := MinSegs(view, p, |p| - 1).segs, LegSegments(view, p);
    if |a| < |b| {
      m :| i < m <= |p| - 1 && m < |p| && b[|a|] == NodeSegment(p[m]);
    } else {
      m := |p| - 1;
    }
    rest := l[|a| + 1..];
    assert l[..|a|] == a && l[|a|] == NodeSegment(p[m]);
    assert l == l[..|a|] + [l[|a|]] + l[|a| + 1..];
  }

  lemma FirstBadHop(net: Net, p: seq<Node>) returns (i: nat)
    requires !GoodPath(net, p)
    ensures i + 1 < |p| && !GoodHop(net, p[i], p[i + 1]) && GoodPath(net, p[..i + 1])
  {
    i := 0;
    while i + 1 < |p| && GoodHop(net, p[i], p[i + 1])
      invariant i < |p|
      invariant forall k, k' | 0 <= k < i && k' == k + 1 :: GoodHop(net, p[k], p[k'])
    {
      i := i + 1;
    }
  }

  // Up to the first bad hop the packet is pinned to the path.
  lemma BadHopPins(view: View, x0: Node, base: seq<Segment>, w: seq<Node>, p: seq<Node>, i: nat)
    requires Sound(view) && InGraph(view, p) && i + 1 < |p| && |w| > 0 && Last(w) == p[0]
    requires Exactly(NetOf(view, ByMetric), x0, base, w)
    requires (p[i], p[i + 1]) in view.minEdges && !GoodHop(NetOf(view, ByMetric), p[i], p[i + 1])
    requires GoodPath(NetOf(view, ByMetric), p[..i + 1])
    ensures var a := MinSegs(view, p, i + 1).segs;
      |a| > 0 && Last(a).NodeSegment? && Exactly(NetOf(view, ByMetric), x0, base + a, Glue(w, p[..i + 1]))
  {
    hide Consistent, NoOverflow, Carries, Exactly, GoodHop, GoodPath, NetOf, Hop;
    var net, s := NetOf(view, ByMetric), MinSegs(view, p, i);
    NetOfIsValid(view, ByMetric);
    var j := MinSegsTracks(view, x0, base, w, p, i);
    TracksNodes(view, net, x0, base, w, p, i, s, j);
    BadHopNamesNode(view, s, p[i], p[i + 1]);
    NameNode(net, x0, base, w, p, i, s, j);
  }

  lemma EndLegOnBase(base: seq<Segment>, segs: seq<Segment>, t: Node)
    requires |segs| > 0
    ensures EndLeg(base + segs, t) == base + EndLeg(segs, t)
  {
    assert Last(base + segs) == Last(segs);
    assert base + segs + [NodeSegment(t)] == base + (segs + [NodeSegment(t)]);
  }

  lemma LinkedAt(view: View, p: seq<Node>, i: nat)
    requires Linked(view, p) && i + 1 < |p|
    ensures (p[i], p[i + 1]) in view.minEdges && (p[i], p[i + 1]) in NetOf(view, ByMetric).cost
  {
  }

  // The segments of a leg with a bad hop, whatever follows them, do not keep the packet on the leg.
  lemma BadLegIsLost(view: View, x0: Node, base: seq<Segment>, w: seq<Node>, p: seq<Node>, rest: seq<Segment>, trace: seq<Node>)
    requires Sound(view) && InGraph(view, p) && Linked(view, p) && |p| > 0 && NoDup(p) && |w| > 0 && Last(w) == p[0]
    requires Exactly(NetOf(view, ByMetric), x0, base, w)
    requires !GoodPath(NetOf(view, ByMetric), p) && Glue(w, p) <= trace
    ensures !Carries(NetOf(view, ByMetric), x0, EndLeg(base + MinSegs(view, p, |p| - 1).segs, Last(p)) + rest, trace)
  {
    hide Consistent, NoOverflow, Carries, Exactly, GoodHop, GoodPath, NetOf, MinSegs, EndLeg, Linked, InGraph, Glue;
    var net := NetOf(view, ByMetric);
    NetOfIsValid(view, ByMetric);
    var i := FirstBadHop(net, p);
    LinkedAt(view, p, i);
    BadHopPins(view, x0, base, w, p, i);
    var a := MinSegs(view, p, i + 1).segs;
    var m, more := BadLegSegments(view, base, p, i, a, rest);
    GlueAt(w, p, i, trace);
    if Carries(net, x0, base + a + [NodeSegment(p[m])] + more, trace) {
      KeepingToWalk(net, x0, trace, base + a, p[m], more, |w| - 1 + i);
    }
  }

  lemma BadLegSegments(view: View, base: seq<Segment>, p: seq<Node>, i: nat, a: seq<Segment>, rest: seq<Segment>)
    returns (m: nat, more: seq<Segment>)
    requires Consistent(view) && InGraph(view, p) && Linked(view, p) && i + 1 < |p|
    requires a == MinSegs(view, p, i + 1).segs && |a| > 0 && Last(a).NodeSegment?
    ensures i < m < |p|
    ensures EndLeg(base + MinSegs(view, p, |p| - 1).segs, Last(p)) + rest == base + a + [NodeSegment(p[m])] + more
  {
    hide Consistent, MinSegs, EndLeg, Linked, InGraph;
    m, more := AfterBadHop(view, p, i, a);
    EndLegOnBase(base, MinSegs(view, p, |p| - 1).segs, Last(p));
    assert base + (a + [NodeSegment(p[m])] + more) + rest == base + a + [NodeSegment(p[m])] + (more + rest);
    more := more + rest;
  }

  lemma GlueAt(w: seq<Node>, p: seq<Node>, i: nat, trace: seq<Node>)
    requires |w| > 0 && i + 1 < |p| && Last(w) == p[0] && Glue(w, p) <= trace
    ensures var k := |w| - 1 + i;
      k + 1 < |trace| && trace[k] == p[i] && trace[k + 1] == p[i + 1] && trace[..k + 1] == Glue(w, p[..i + 1])
  {
    var g := Glue(w, p);
    assert forall n | 0 <= n < |g| :: trace[n] == g[n];
  }

  lemma BadPathIsLost(view: View, p: seq<Node>)
    requires Sound(view) && InGraph(view, p) && Linked(view, p) && |p| > 0 && NoDup(p)
    requires !GoodPath(NetOf(view, ByMetric), p)
    ensures !Carries(NetOf(view, ByMetric), p[0], LegSegments(view, p), p)
  {
    hide Consistent, NoOverflow, Carries, Exactly, GoodPath, NetOf, MinSegs, Linked;
    StayingPut(view, p);
    assert Glue([p[0]], p) == p;
    BadLegIsLost(view, p[0], [], [p[0]], p, [], p);
    var segs := MinSegs(view, p, |p| - 1).segs;
    assert [] + segs == segs && LegSegments(view, p) + [] == LegSegments(view, p);
  }

  lemma StayingPut(view: View, p: seq<Node>)
    requires InGraph(view, p) && |p| > 0
    ensures Exactly(NetOf(view, ByMetric), p[0], [], [p[0]])
  {
    assert p[0] in p;
  }

  // The segments for a simple path carry every packet along exactly that path if and only if
  // every hop of the path is good.
  lemma SegmentsPreservePath(view: View, p: seq<Node>)
    requires Sound(view) && InGraph(view, p) && Linked(view, p) && |p| > 0 && NoDup(p)
    ensures Exactly(NetOf(view, ByMetric), p[0], LegSegments(view, p), p) <==> GoodPath(NetOf(view, ByMetric), p)
  {
    hide NoOverflow, Carries, GoodHop, GoodPath, NetOf, MinSegs, Linked, Consistent;
    if GoodPath(NetOf(view, ByMetric), p) {
      StayingPut(view, p);
      LegIsExact(view, p[0], [], [p[0]], p);
      assert [] + MinSegs(view, p, |p| - 1).segs == MinSegs(view, p, |p| - 1).segs;
      assert Glue([p[0]], p) == p;
    } else {
      BadPathIsLost(view, p);
    }
  }

  // A least-cost path has only good hops.
  lemma ShortestIsGood(view: View, p: seq<Node>)
    requires Consistent(view) && Shortest(NetOf(view, ByMetric), p)
    ensures GoodPath(NetOf(view, ByMetric), p)
  {
    hide Consistent, NetOf, GoodHop;
    var net := NetOf(view, ByMetric);
    NetOfIsValid(view, ByMetric);
    forall i, j | 0 <= i < |p| - 1 && j == i + 1
      ensures GoodHop(net, p[i], p[j])
    {
      ShortestHopIsGood(net, p, i);
    }
  }

  lemma ShortestHopIsGood(net: Net, p: seq<Node>, i: nat)
    requires net.Valid() && Shortest(net, p) && i + 1 < |p|
    ensures GoodHop(net, p[i], p[i + 1])
  {
    ShortestPrefix(net, p, i + 1);
    ShortestSuffix(net, p[..i + 2], i);
    var q := p[..i + 2][i..];
    assert q == [p[i], p[i + 1]];
    assert ShortestFrom(net, p[i], p[i + 1], q) && q[|q| - 2] == p[i];
  }
}
