/**
 * How many segments graph_minseg uses: it names nothing while the way stays the only least-cost one,
 * and all it names is needed except a node named where the packet already is.
 */
module SegmentMinimum {
  import opened Basics
  import opened ShortestPaths
  import opened Graphs
  import opened Dijkstra
  import opened DijkstraProofs
  import opened DijkstraTheorems
  import opened Segments
  import opened SegmentTheorems

  // ------------------------------------------------------------ lists that pin a packet to a walk

  // The segment leads a packet from the start of u along u and nowhere else.
  ghost predicate LeadsAlong(net: Net, s: Segment, u: seq<Node>) {
    match s
    case NodeSegment(t) => Unique(net, u) && Last(u) == t
    case AdjSegment(e) => (e.local, e.remote) in net.cost && u == [e.local, e.remote]
  }

  // The walk falls into one stretch for each segment.
  ghost predicate Pinned(net: Net, x: Node, segs: seq<Segment>, w: seq<Node>)
    decreases |segs|
  {
    if segs == [] then w == [x] && x in net.nodes
    else exists k | 0 <= k < |w| :: Pinned(net, x, segs[..|segs| - 1], w[..k + 1]) && LeadsAlong(net, Last(segs), w[k..])
  }

  lemma LeadsAlongIsExact(net: Net, s: Segment, u: seq<Node>)
    requires net.Valid() && net.Positive() && |u| > 0
    ensures LeadsAlong(net, s, u) <==> forall trace :: Executes(net, u[0], s, trace) <==> trace == u
  {
    match s
    case AdjSegment(e) =>
      if forall trace :: Executes(net, u[0], s, trace) <==> trace == u {
        assert Executes(net, u[0], s, u);
      }
    case NodeSegment(t) =>
      forall trace
        ensures Executes(net, u[0], s, trace) <==> ShortestFrom(net, u[0], t, trace)
      {
        ForwardingIsShortest(net, u[0], t, trace);
      }
      if forall trace :: Executes(net, u[0], s, trace) <==> trace == u {
        assert ShortestFrom(net, u[0], t, u);
      }
  }

  // All traces of a list end at the same node.
  ghost predicate EndsAtOne(net: Net, x: Node, segs: seq<Segment>, z: Node) {
    forall trace: seq<Node> | Carries(net, x, segs, trace) :: |trace| > 0 && Last(trace) == z
  }

  lemma SameEnd(net: Net, x: Node, segs: seq<Segment>, w: seq<Node>)
    requires Carries(net, x, segs, w)
    ensures |w| > 0 && EndsAtOne(net, x, segs, Last(w))
  {
    forall trace: seq<Node> | Carries(net, x, segs, trace)
      ensures |trace| > 0 && Last(trace) == Last(w)
    {
      if segs != [] {
        EndOf(net, x, segs, trace);
        EndOf(net, x, segs, w);
      }
    }
  }

  function EndNode(s: Segment): Node {
    if s.NodeSegment? then s.node else s.edge.remote
  }

  lemma EndOf(net: Net, x: Node, segs: seq<Segment>, trace: seq<Node>)
    requires segs != [] && Carries(net, x, segs, trace)
    ensures |trace| > 0 && Last(trace) == EndNode(Last(segs))
  {
    var k :| 0 <= k < |trace| && Carries(net, x, segs[..|segs| - 1], trace[..k + 1]) && Executes(net, trace[k], Last(segs), trace[k..]);
    assert Last(trace[k..]) == Last(trace);
  }

  // A list that leads along w only does so segment by segment.
  lemma ExactlySplits(net: Net, x: Node, a: seq<Segment>, s: Segment, w: seq<Node>) returns (k: nat)
    requires Exactly(net, x, a + [s], w)
    ensures k < |w| && Exactly(net, x, a, w[..k + 1])
    ensures forall trace :: Executes(net, w[k], s, trace) <==> trace == w[k..]
  {
    hide Executes, Carries, EndsAtOne;
    assert Carries(net, x, a + [s], w);
    CarriesSnoc(net, x, a, s, w);
    k :| k < |w| && Carries(net, x, a, w[..k + 1]) && Executes(net, w[k], s, w[k..]);
    SameEnd(net, x, a, w[..k + 1]);
    forall t1 | Carries(net, x, a, t1)
      ensures t1 == w[..k + 1]
    {
      AtTheEnd(net, x, a, t1, w[k]);
      JoinedTrace(net, x, a, s, t1, w[k..]);
      assert t1 + w[k..][1..] == w;
    }
    forall t2 | Executes(net, w[k], s, t2)
      ensures t2 == w[k..]
    {
      Starts(net, w[k], s, t2);
      JoinedTrace(net, x, a, s, w[..k + 1], t2);
      assert w[..k + 1] + t2[1..] == w;
      assert t2 == [w[k]] + t2[1..];
    }
  }

  lemma AtTheEnd(net: Net, x: Node, a: seq<Segment>, t: seq<Node>, z: Node)
    requires EndsAtOne(net, x, a, z) && Carries(net, x, a, t)
    ensures |t| > 0 && Last(t) == z
  {
  }

  lemma Starts(net: Net, x: Node, s: Segment, t: seq<Node>)
    requires Executes(net, x, s, t)
    ensures |t| > 0 && t[0] == x
  {
  }

  lemma JoinedTrace(net: Net, x: Node, a: seq<Segment>, s: Segment, t1: seq<Node>, t2: seq<Node>)
    requires Carries(net, x, a, t1) && |t1| > 0 && |t2| > 0 && Last(t1) == t2[0] && Executes(net, Last(t1), s, t2)
    ensures Carries(net, x, a + [s], t1 + t2[1..])
  {
    hide Executes, Carries;
    var trace, k := t1 + t2[1..], |t1| - 1;
    assert trace[..k + 1] == t1 && trace[k..] == t2;
    CarriesSnoc(net, x, a, s, trace);
  }

  // A list leads along w and nowhere else if and only if w falls into one stretch for each segment:
  // the only least-cost walk to a node named, or a link named.
  lemma {:induction false} PinnedIsExact(net: Net, x: Node, segs: seq<Segment>, w: seq<Node>)
    requires net.Valid() && net.Positive()
    ensures Pinned(net, x, segs, w) <==> Exactly(net, x, segs, w) && |w| > 0
    decreases |segs|
  {
    hide Executes, LeadsAlong;
    if segs == [] {
      NoSegments(net, x, w);
    } else {
      var a, s := segs[..|segs| - 1], Last(segs);
      assert a + [s] == segs;
      if Exactly(net, x, segs, w) && |w| > 0 {
        var k := ExactlySplits(net, x, a, s, w);
        PinnedIsExact(net, x, a, w[..k + 1]);
        LeadsAlongIsExact(net, s, w[k..]);
      }
      if Pinned(net, x, segs, w) {
        var k :| 0 <= k < |w| && Pinned(net, x, a, w[..k + 1]) && LeadsAlong(net, s, w[k..]);
        PinnedIsExact(net, x, a, w[..k + 1]);
        LeadsAlongIsExact(net, s, w[k..]);
        ExactlyAppend(net, x, a, w[..k + 1], s, w[k..]);
        assert Glue(w[..k + 1], w[k..]) == w;
      }
    }
  }

  lemma NoSegments(net: Net, x: Node, w: seq<Node>)
    ensures Pinned(net, x, [], w) <==> Exactly(net, x, [], w) && |w| > 0
  {
    if Exactly(net, x, [], w) {
      assert Carries(net, x, [], w);
    }
  }

  // ------------------------------------------------------------ hops that need no segment

  lemma SubUnique(net: Net, p: seq<Node>, i: nat, j: nat)
    requires net.Valid() && Unique(net, p) && i <= j < |p|
    ensures Unique(net, p[i..j + 1])
  {
    ShortestPrefix(net, p, j);
    var a := p[..j + 1];
    ShortestSuffix(net, a, i);
    var u := a[i..];
    assert u == p[i..j + 1];
    forall q | ShortestFrom(net, u[0], Last(u), q)
      ensures q == u
    {
      Swapped(net, p, i, j, q);
      var p' := p[..i] + q + p[j + 1..];
      assert p' == p;
      assert q == p'[i..i + |q|] && |p'| == |p|;
    }
  }

  lemma SwapPrefix(net: Net, p: seq<Node>, j: nat, q: seq<Node>)
    requires net.Valid() && Shortest(net, p) && j < |p| && ShortestFrom(net, p[0], p[j], q)
    ensures ShortestFrom(net, p[0], Last(p), q + p[j + 1..])
  {
    CostSplit(net, p, j);
    ShortestPrefix(net, p, j);
    SameEndsSameCost(net, p[..j + 1], q);
    GlueCost(net, q, p[j..]);
    assert Glue(q, p[j..]) == q + p[j + 1..];
    AsCheapIsShortest(net, p, q + p[j + 1..]);
  }

  lemma SwapSuffix(net: Net, p: seq<Node>, i: nat, q: seq<Node>)
    requires net.Valid() && Shortest(net, p) && i < |p| && ShortestFrom(net, p[i], Last(p), q)
    ensures ShortestFrom(net, p[0], Last(p), p[..i] + q)
  {
    CostSplit(net, p, i);
    ShortestSuffix(net, p, i);
    SameEndsSameCost(net, p[i..], q);
    GlueCost(net, p[..i + 1], q);
    assert Glue(p[..i + 1], q) == p[..i] + q;
    AsCheapIsShortest(net, p, p[..i] + q);
  }

  // A stretch of a least-cost walk may be exchanged for another least-cost walk.
  lemma Swapped(net: Net, p: seq<Node>, i: nat, j: nat, q: seq<Node>)
    requires net.Valid() && Shortest(net, p) && i <= j < |p| && ShortestFrom(net, p[i], p[j], q)
    ensures ShortestFrom(net, p[0], Last(p), p[..i] + q + p[j + 1..])
  {
    hide Shortest, Last;
    ShortestPrefix(net, p, j);
    var a := p[..j + 1];
    assert Last(a) == p[j] by { LastOfPrefix(p, j); }
    assert a[..i] == p[..i];
    SwapSuffix(net, a, i, q);
    SwapPrefix(net, p, j, p[..i] + q);
  }

  lemma LastOfPrefix(p: seq<Node>, j: nat)
    requires j < |p|
    ensures Last(p[..j + 1]) == p[j]
  {
  }

  // From the start of a unique walk every node on it has one predecessor, the node before.
  lemma UniqueHasOnePrev(view: View, p: seq<Node>, y: Node)
    requires Sound(view) && |p| > 0 && p[0] in view.nodes && y in view.nodes
    requires Unique(NetOf(view, ByMetric), p + [y])
    ensures Last(p) in PrevOf(view, p[0], y) && |PrevOf(view, p[0], y)| == 1
  {
    hide NoOverflow, PrevOf, NetOf;
    var net, q := NetOf(view, ByMetric), p + [y];
    var prev := PrevOf(view, p[0], y);
    assert q[|q| - 2] == Last(p) && ShortestFrom(net, p[0], y, q);
    PrevOfIsTight(view, p[0], y, Last(p));
    forall u | u in prev
      ensures u == Last(p)
    {
      PrevOfIsTight(view, p[0], y, u);
      OneTight(net, q, u);
    }
    SomeOther(prev, Last(p));
  }

  lemma OneTight(net: Net, q: seq<Node>, u: Node)
    requires Unique(net, q) && |q| > 1 && TightPred(net, q[0], u, Last(q))
    ensures u == q[|q| - 2]
  {
    var r :| ShortestFrom(net, q[0], Last(q), r) && |r| > 1 && r[|r| - 2] == u;
  }

  lemma SomeOther(s: seq<Node>, x: Node)
    requires NoDup(s)
    ensures |s| > 1 ==> exists u :: u in s && u != x
  {
    if |s| > 1 {
      var k := if s[0] == x then 1 else 0;
      assert s[k] in s && s[k] != x;
    }
  }

  lemma PrefixUnique(net: Net, p: seq<Node>, y: Node)
    requires net.Valid() && |p| > 0 && Unique(net, p + [y])
    ensures Unique(net, p)
  {
    SubUnique(net, p + [y], 0, |p| - 1);
    assert (p + [y])[0..|p| - 1 + 1] == p;
  }

  // Seen from the start, each node's only predecessor is the node before.
  ghost predicate SolePredecessors(view: View, p: seq<Node>)
    requires Consistent(view) && InGraph(view, p)
  {
    |p| <= 1 || (SolePredecessors(view, p[..|p| - 1]) && PrevOf(view, p[0], Last(p)) == [p[|p| - 2]])
  }

  // The predecessor lists tell whether a walk is the only least-cost one.
  lemma {:induction false} UniqueByPrev(view: View, p: seq<Node>)
    requires Sound(view) && |p| > 0 && InGraph(view, p)
    ensures Unique(NetOf(view, ByMetric), p) <==> SolePredecessors(view, p)
    decreases |p|
  {
    hide NoOverflow, Consistent, PrevOf, NetOf, Unique;
    NetOfIsValid(view, ByMetric);
    if |p| == 1 {
      SingleIsUnique(view, p, 0);
      assert p[0..0 + 1] == p;
    } else {
      var q, y := p[..|p| - 1], Last(p);
      assert p == q + [y] && p[0] in p && y in p;
      UniqueByPrev(view, q);
      if Unique(NetOf(view, ByMetric), p) {
        PrefixUnique(NetOf(view, ByMetric), q, y);
        UniqueHasOnePrev(view, q, y);
      } else if SolePredecessors(view, p) {
        UniqueOn(view, q, y);
      }
    }
  }

  // What a controller could check of a list with its own tables: the walk falls into stretches along
  // sole predecessors, and links.
  ghost predicate Checks(view: View, x: Node, segs: seq<Segment>, w: seq<Node>)
    requires Consistent(view) && InGraph(view, w)
    decreases |segs|
  {
    if segs == [] then w == [x]
    else exists k | 0 <= k < |w| ::
      && Checks(view, x, segs[..|segs| - 1], w[..k + 1])
      && match Last(segs)
         case NodeSegment(t) => SolePredecessors(view, w[k..]) && Last(w) == t
         case AdjSegment(e) => (e.local, e.remote) in view.minEdges && w[k..] == [e.local, e.remote]
  }

  lemma StretchChecks(view: View, s: Segment, u: seq<Node>)
    requires Sound(view) && InGraph(view, u) && |u| > 0
    ensures LeadsAlong(NetOf(view, ByMetric), s, u) <==>
            match s
            case NodeSegment(t) => SolePredecessors(view, u) && Last(u) == t
            case AdjSegment(e) => (e.local, e.remote) in view.minEdges && u == [e.local, e.remote]
  {
    hide NoOverflow, Consistent, Unique, SolePredecessors;
    UniqueByPrev(view, u);
  }

  lemma {:induction false} ChecksPinned(view: View, x: Node, segs: seq<Segment>, w: seq<Node>)
    requires Sound(view) && InGraph(view, w)
    ensures Checks(view, x, segs, w) <==> Pinned(NetOf(view, ByMetric), x, segs, w)
    decreases |segs|
  {
    hide NoOverflow, Consistent, NetOf, LeadsAlong, SolePredecessors;
    if segs == [] {
      assert w == [x] ==> x in w;
      assert forall n :: n in NetOf(view, ByMetric).nodes <==> n in view.nodes by { NodesOfNet(view); }
    } else {
      forall k | 0 <= k < |w|
        ensures Checks(view, x, segs[..|segs| - 1], w[..k + 1]) <==> Pinned(NetOf(view, ByMetric), x, segs[..|segs| - 1], w[..k + 1])
        ensures InGraph(view, w[k..]) && (LeadsAlong(NetOf(view, ByMetric), Last(segs), w[k..]) <==>
                match Last(segs)
                case NodeSegment(t) => SolePredecessors(view, w[k..]) && Last(w[k..]) == t
                case AdjSegment(e) => (e.local, e.remote) in view.minEdges && w[k..] == [e.local, e.remote])
      {
        ChecksPinned(view, x, segs[..|segs| - 1], w[..k + 1]);
        StretchChecks(view, Last(segs), w[k..]);
      }
      assert forall k | 0 <= k < |w| :: Last(w[k..]) == Last(w);
    }
  }

  lemma NodesOfNet(view: View)
    ensures forall n :: n in NetOf(view, ByMetric).nodes <==> n in view.nodes
  {
  }

  // The check is exact: it holds if and only if every packet is carried along w and nowhere else.
  lemma ChecksAreExact(view: View, x: Node, segs: seq<Segment>, w: seq<Node>)
    requires Sound(view) && InGraph(view, w) && |w| > 0
    ensures Checks(view, x, segs, w) <==> Exactly(NetOf(view, ByMetric), x, segs, w)
  {
    hide NoOverflow, Consistent, NetOf, Checks, Exactly, Pinned;
    NetOfIsValid(view, ByMetric);
    ChecksPinned(view, x, segs, w);
    PinnedIsExact(NetOf(view, ByMetric), x, segs, w);
  }

  // From where the last segment leads, path[j], the way to path[n] is the only least-cost one; then
  // the next hop adds no segment if and only if it stays the only one.
  lemma NamesNothingIffUnique(view: View, path: seq<Node>, s: Progress, j: nat, n: nat)
    requires Sound(view) && InGraph(view, path) && j <= n && n + 1 < |path| && s.from == path[j]
    requires Unique(NetOf(view, ByMetric), path[j..n + 1])
    ensures path[n + 1] in view.nodes
    ensures Hop(view, s, path[n], path[n + 1]) == s <==> Unique(NetOf(view, ByMetric), path[j..n + 2])
    ensures Hop(view, s, path[n], path[n + 1]).segs == s.segs <==> Unique(NetOf(view, ByMetric), path[j..n + 2])
  {
    hide NoOverflow, Consistent, PrevOf, NetOf, Unique;
    var u, y := path[j..n + 1], path[n + 1];
    assert path[j] in path && y in path && u + [y] == path[j..n + 2];
    if Unique(NetOf(view, ByMetric), u + [y]) {
      UniqueHasOnePrev(view, u, y);
    } else if path[n] in PrevOf(view, s.from, y) && |PrevOf(view, s.from, y)| <= 1 {
      UniqueOn(view, u, y);
    }
  }

  lemma {:induction false} UniqueNamesNothing(view: View, p: seq<Node>, n: nat)
    requires Sound(view) && InGraph(view, p) && n < |p| && Unique(NetOf(view, ByMetric), p[..n + 1])
    ensures MinSegs(view, p, n) == Progress([], p[0], true)
    decreases n
  {
    hide NoOverflow, Consistent, NetOf, Unique, Hop;
    NetOfIsValid(view, ByMetric);
    if n > 0 {
      assert p[..n + 1] == p[..n] + [p[n]];
      PrefixUnique(NetOf(view, ByMetric), p[..n], p[n]);
      assert p[..n] == p[..n - 1 + 1] == p[0..n - 1 + 1] && p[..n + 1] == p[0..n - 1 + 2];
      UniqueNamesNothing(view, p, n - 1);
      NamesNothingIffUnique(view, p, MinSegs(view, p, n - 1), 0, n - 1);
    }
  }

  // The only least-cost walk takes one segment.
  lemma UniqueTakesOneSegment(view: View, p: seq<Node>)
    requires Sound(view) && InGraph(view, p) && |p| > 0 && Unique(NetOf(view, ByMetric), p)
    ensures LegSegments(view, p) == [NodeSegment(Last(p))]
  {
    hide Consistent, NoOverflow, NetOf, Unique, MinSegs, InGraph;
    assert p[..|p| - 1 + 1] == p;
    UniqueNamesNothing(view, p, |p| - 1);
  }

  // ------------------------------------------------------------ fewer segments do not do

  // With c segments a packet can be pinned to the walk up to position j at most, with fewer not so far.
  ghost predicate Bound(net: Net, p: seq<Node>, c: nat, j: nat) {
    forall segs, e: nat | PinnedTo(net, p, segs, e) :: (|segs| <= c ==> e <= j) && (|segs| < c ==> e < j)
  }

  ghost predicate PinnedTo(net: Net, p: seq<Node>, segs: seq<Segment>, e: nat) {
    e < |p| && Pinned(net, p[0], segs, p[..e + 1])
  }

  // One segment takes the packet from position i to position e.
  ghost predicate Spans(net: Net, p: seq<Node>, i: nat, e: nat) {
    i <= e < |p| && (Unique(net, p[i..e + 1]) || e == i + 1)
  }

  lemma BoundAtStart(net: Net, p: seq<Node>)
    requires |p| > 0
    ensures Bound(net, p, 0, 0)
  {
    forall segs, e: nat | PinnedTo(net, p, segs, e) && |segs| <= 0
      ensures e == 0
    {
      assert |p[..e + 1]| == 1;
    }
  }

  lemma LastStretch(net: Net, p: seq<Node>, segs: seq<Segment>, e: nat) returns (k: nat)
    requires segs != [] && PinnedTo(net, p, segs, e)
    ensures k <= e && PinnedTo(net, p, segs[..|segs| - 1], k) && Spans(net, p, k, e)
  {
    var w := p[..e + 1];
    k :| 0 <= k < |w| && Pinned(net, p[0], segs[..|segs| - 1], w[..k + 1]) && LeadsAlong(net, Last(segs), w[k..]);
    assert w[..k + 1] == p[..k + 1] && w[k..] == p[k..e + 1];
  }

  // One more segment gets no further than j' if none gets from j or before beyond it.
  lemma BoundGrows(net: Net, p: seq<Node>, c: nat, j: nat, j': nat)
    requires Bound(net, p, c, j) && j < j' && forall k, e | 0 <= k <= j && j' < e < |p| :: !Spans(net, p, k, e)
    ensures Bound(net, p, c + 1, j')
  {
    hide PinnedTo, Spans;
    forall segs, e: nat | PinnedTo(net, p, segs, e)
      ensures (|segs| <= c + 1 ==> e <= j') && (|segs| < c + 1 ==> e < j')
    {
      if |segs| == c + 1 {
        var k := LastStretch(net, p, segs, e);
      }
    }
  }

  // No segment gets beyond the first hop that ends uniqueness.
  lemma StuckAt(net: Net, p: seq<Node>, j: nat, n: nat, k: nat, e: nat)
    requires net.Valid() && j <= n && n + 1 < |p| && !Unique(net, p[j..n + 2])
    requires k <= j && n < e < |p| && Spans(net, p, k, e)
    ensures j == n && e == n + 1
  {
    if Unique(net, p[k..e + 1]) {
      SubUnique(net, p[k..e + 1], j - k, n + 1 - k);
      assert n + 1 - k + 1 == n + 2 - k;
      SliceOfSlice(p, k, e + 1, j, n + 2);
    }
  }

  lemma SliceOfSlice(p: seq<Node>, a: nat, b: nat, c: nat, d: nat)
    requires a <= c <= d <= b <= |p|
    ensures p[a..b][c - a..d - a] == p[c..d]
  {
    var u, v := p[a..b][c - a..d - a], p[c..d];
    assert forall i | 0 <= i < |v| :: u[i] == v[i];
  }

  // ------------------------------------------------------------ the leanest list

  // Did the hop name the link, and from where the list already led?
  predicate Doubles(s: Progress, t: Progress, x: Node, y: Node) {
    s.from == x && t.ok && t.from == y && |t.segs| == |s.segs| + 2
  }

  // graph_minseg without the nodes named where the packet already is.
  function Lean(view: View, path: seq<Node>, n: nat): Progress
    requires Consistent(view) && InGraph(view, path) && n < |path|
  {
    if n == 0 then Progress([], path[0], true)
    else
      var s := Lean(view, path, n - 1);
      if !s.ok then s
      else
        var t := Hop(view, s, path[n - 1], path[n]);
        if Doubles(s, t, path[n - 1], path[n]) then t.(segs := s.segs + [Last(t.segs)]) else t
  }

  function LeanSegments(view: View, p: seq<Node>): seq<Segment>
    requires Consistent(view) && InGraph(view, p) && |p| > 0
  {
    if |p| == 1 then [] else EndLeg(Lean(view, p, |p| - 1).segs, Last(p))
  }

  // How many nodes are named in vain.
  function Doubled(view: View, path: seq<Node>, n: nat): nat
    requires Consistent(view) && InGraph(view, path) && n < |path|
  {
    if n == 0 then 0
    else
      var s := MinSegs(view, path, n - 1);
      Doubled(view, path, n - 1)
      + if s.ok && Doubles(s, Hop(view, s, path[n - 1], path[n]), path[n - 1], path[n]) then 1 else 0
  }

  // What a hop adds does not depend on the list so far.
  lemma HopAdds(view: View, s: Progress, s': Progress, x: Node, y: Node) returns (more: seq<Segment>, from: Node, ok: bool)
    requires Consistent(view) && y in view.nodes && s.from == s'.from && s.ok == s'.ok
    ensures Hop(view, s, x, y) == Progress(s.segs + more, from, ok)
    ensures Hop(view, s', x, y) == Progress(s'.segs + more, from, ok)
  {
    hide PrevOf, Consistent;
    var t := Hop(view, s, x, y);
    from, ok := t.from, t.ok;
    more := if t == s then [] else if |t.segs| == |s.segs| + 1 then [NodeSegment(x)] else [NodeSegment(x), Last(t.segs)];
    assert s.segs + [] == s.segs && s'.segs + [] == s'.segs;
  }

  // Both lists lead to the same nodes; one is longer by what was named in vain.
  lemma {:induction false} LeanFollows(view: View, path: seq<Node>, n: nat)
    requires Consistent(view) && InGraph(view, path) && n < |path|
    ensures var s, l := MinSegs(view, path, n), Lean(view, path, n);
      && l.from == s.from && l.ok == s.ok && |s.segs| == |l.segs| + Doubled(view, path, n)
      && (s.segs == [] <==> l.segs == []) && (s.segs != [] ==> Last(s.segs) == Last(l.segs))
  {
    hide Hop;
    if n > 0 {
      LeanFollows(view, path, n - 1);
      var s, l := MinSegs(view, path, n - 1), Lean(view, path, n - 1);
      if s.ok {
        assert path[n] in path;
        var more, from, ok := HopAdds(view, s, l, path[n - 1], path[n]);
        assert |more| > 0 ==> Last(s.segs + more) == Last(more) == Last(l.segs + more);
        assert more == [] ==> s.segs + more == s.segs && l.segs + more == l.segs;
      }
    }
  }

  // ------------------------------------------------------------ the theorem

  // The lean list after n hops: it leads to path[j], from where the way on is the only least-cost one,
  // and no list of that many segments leads further along the path.
  ghost predicate Leanest(net: Net, path: seq<Node>, n: nat, s: Progress, j: nat) {
    && path != [] && Tracks(net, path[0], [], [path[0]], path, n, s, j) && Bound(net, path, |s.segs|, j)
    && (j == n && n > 0 ==> s.segs != [] && Last(s.segs).AdjSegment? && Last(s.segs).edge.remote == path[n])
  }

  lemma LeanestStart(view: View, path: seq<Node>)
    requires Sound(view) && InGraph(view, path) && |path| > 0
    ensures Leanest(NetOf(view, ByMetric), path, 0, Lean(view, path, 0), 0)
  {
    var net, x := NetOf(view, ByMetric), path[0];
    assert x in path;
    assert Exactly(net, x, [], [x]);
    StartTracks(view, x, [], [x], path);
    BoundAtStart(net, path);
  }

  // The position the last segment leads to is the only one with that node.
  lemma HereIsHere(view: View, path: seq<Node>, j: nat, n: nat)
    requires Consistent(view) && InGraph(view, path) && j <= n < |path| && Unique(NetOf(view, ByMetric), path[j..n + 1]) && path[j] == path[n]
    ensures j == n
  {
    var net, u := NetOf(view, ByMetric), path[j..n + 1];
    NetOfIsValid(view, ByMetric);
    assert path[j] in path;
    StandingStillIsUnique(net, path[j]);
    assert u[0] == path[j] && Last(u) == path[j];
    assert ShortestFrom(net, path[j], path[j], [path[j]]);
    assert u == [path[j]];
  }

  // A node or a link is named because no segment leads on from j beyond n.
  lemma NamedAt(net: Net, path: seq<Node>, c: nat, j: nat, n: nat)
    requires net.Valid() && Bound(net, path, c, j) && j < n && n + 1 < |path| && !Unique(net, path[j..n + 2])
    ensures Bound(net, path, c + 1, n)
  {
    hide Bound, Spans;
    forall k, e | 0 <= k <= j && n < e < |path|
      ensures !Spans(net, path, k, e)
    {
      if Spans(net, path, k, e) {
        StuckAt(net, path, j, n, k, e);
      }
    }
    BoundGrows(net, path, c, j, n);
  }

  // The link is named because the hop itself is not the only least-cost way.
  lemma LinkedOver(net: Net, path: seq<Node>, c: nat, n: nat)
    requires net.Valid() && Bound(net, path, c, n) && n + 1 < |path| && !Unique(net, path[n..n + 2])
    ensures Bound(net, path, c + 1, n + 1)
  {
    hide Bound, Spans;
    forall k, e | 0 <= k <= n && n + 1 < e < |path|
      ensures !Spans(net, path, k, e)
    {
      if Spans(net, path, k, e) {
        StuckAt(net, path, n, n, k, e);
      }
    }
    BoundGrows(net, path, c, n, n + 1);
  }

  // The three ways a good hop is taken.
  lemma HopCases(view: View, path: seq<Node>, n: nat, s: Progress, j: nat)
    requires Sound(view) && InGraph(view, path) && n + 1 < |path| && j <= n && s.from == path[j]
    requires Unique(NetOf(view, ByMetric), path[j..n + 1]) && GoodHop(NetOf(view, ByMetric), path[n], path[n + 1])
    ensures path[n] in view.nodes && path[n + 1] in view.nodes && s.from in view.nodes && (path[n], path[n + 1]) in view.minEdges
    ensures var x, y, t := path[n], path[n + 1], Hop(view, s, path[n], path[n + 1]);
      if Unique(NetOf(view, ByMetric), path[j..n + 2]) then t == s && x in PrevOf(view, s.from, y) && |PrevOf(view, s.from, y)| <= 1
      else if Unique(NetOf(view, ByMetric), path[n..n + 2]) then t == OverNode(s, x) && x in PrevOf(view, x, y) && |PrevOf(view, x, y)| <= 1
      else t == OverLink(view, s, x, y)
  {
    hide Consistent, NoOverflow, PrevOf, Unique;
    var x, y := path[n], path[n + 1];
    assert (x, y) in view.minEdges;
    hide NetOf, GoodHop, OverNode, OverLink;
    assert x in path && y in path && path[j] in path;
    GoodHopByPrev(view, x, y);
    TightAtLink(view, s.from, x, y);
    NamesNothingIffUnique(view, path, s, j, n);
    SingleIsUnique(view, path, n);
    NamesNothingIffUnique(view, path, s.(from := x), n, n);
  }

  // A hop on which nothing is named.
  lemma LeanestStays(view: View, path: seq<Node>, n: nat, s: Progress, j: nat)
    requires Sound(view) && InGraph(view, path) && n + 1 < |path| && Leanest(NetOf(view, ByMetric), path, n, s, j)
    requires path[n + 1] in view.nodes && s.from in view.nodes
    requires path[n] in PrevOf(view, s.from, path[n + 1]) && |PrevOf(view, s.from, path[n + 1])| <= 1
    ensures Leanest(NetOf(view, ByMetric), path, n + 1, s, j)
  {
    hide Consistent, NoOverflow, NetOf, PrevOf, Bound;
    StayTracks(view, path[0], [], [path[0]], path, n, s, j);
  }

  // A hop before which the node is named.
  lemma LeanestNode(view: View, path: seq<Node>, n: nat, s: Progress, j: nat)
    requires Sound(view) && InGraph(view, path) && n + 1 < |path| && Leanest(NetOf(view, ByMetric), path, n, s, j)
    requires path[n] in view.nodes && path[n + 1] in view.nodes && !Unique(NetOf(view, ByMetric), path[j..n + 2])
    requires path[n] in PrevOf(view, path[n], path[n + 1]) && |PrevOf(view, path[n], path[n + 1])| <= 1
    ensures Leanest(NetOf(view, ByMetric), path, n + 1, OverNode(s, path[n]), n)
  {
    hide Consistent, NoOverflow, NetOf, PrevOf, Bound, Unique, Exactly;
    var net := NetOf(view, ByMetric);
    NetOfIsValid(view, ByMetric);
    NodeStepTracks(view, path[0], [], [path[0]], path, n, s, j);
    NamedAt(net, path, |s.segs|, j, n);
  }

  // A hop whose link is named.
  lemma LeanestLink(view: View, path: seq<Node>, n: nat, s: Progress, j: nat)
    requires Sound(view) && InGraph(view, path) && n + 1 < |path| && Leanest(NetOf(view, ByMetric), path, n, s, j)
    requires (path[n], path[n + 1]) in view.minEdges
    requires !Unique(NetOf(view, ByMetric), path[j..n + 2]) && !Unique(NetOf(view, ByMetric), path[n..n + 2])
    ensures var t := OverLink(view, s, path[n], path[n + 1]);
      Leanest(NetOf(view, ByMetric), path, n + 1, if s.from == path[n] then t.(segs := s.segs + [Last(t.segs)]) else t, n + 1)
  {
    hide Consistent, NoOverflow, NetOf, PrevOf, Bound, Unique, Exactly;
    var net, t := NetOf(view, ByMetric), OverLink(view, s, path[n], path[n + 1]);
    NetOfIsValid(view, ByMetric);
    LinkIsEdge(view, path[n], path[n + 1]);
    if s.from == path[n] {
      HereIsHere(view, path, j, n);
      LinkedOver(net, path, |s.segs|, n);
      SingleIsUnique(view, path, n + 1);
      NameLink(net, path[0], [] + s.segs, [path[0]], path, n, view.minEdges[(path[n], path[n + 1])]);
      assert [] + s.segs + [Last(t.segs)] == [] + (s.segs + [Last(t.segs)]);
    } else {
      OverLinkTracks(view, path[0], [], [path[0]], path, n, s, j);
      NamedAt(net, path, |s.segs|, j, n);
      LinkedOver(net, path, |s.segs| + 1, n);
    }
  }

  lemma LinkIsEdge(view: View, x: Node, y: Node)
    requires Consistent(view) && (x, y) in view.minEdges
    ensures Connects(view.minEdges[(x, y)], x, y) && (x, y) in NetOf(view, ByMetric).cost && x != y
  {
  }

  lemma LeanestStep(view: View, path: seq<Node>, n: nat, j: nat) returns (j': nat)
    requires Sound(view) && InGraph(view, path) && n + 1 < |path| && GoodHop(NetOf(view, ByMetric), path[n], path[n + 1])
    requires Leanest(NetOf(view, ByMetric), path, n, Lean(view, path, n), j)
    ensures Leanest(NetOf(view, ByMetric), path, n + 1, Lean(view, path, n + 1), j')
  {
    hide Consistent, NoOverflow, NetOf, PrevOf, Bound, Unique, Exactly, GoodHop, Hop;
    var net, s := NetOf(view, ByMetric), Lean(view, path, n);
    HopCases(view, path, n, s, j);
    if Unique(net, path[j..n + 2]) {
      LeanestStays(view, path, n, s, j);
      j' := j;
    } else if Unique(net, path[n..n + 2]) {
      LeanestNode(view, path, n, s, j);
      j' := n;
    } else {
      LeanestLink(view, path, n, s, j);
      LinkIsEdge(view, path[n], path[n + 1]);
      j' := n + 1;
    }
  }

  lemma {:induction false} LeanestAll(view: View, path: seq<Node>, n: nat) returns (j: nat)
    requires Sound(view) && InGraph(view, path) && n < |path| && GoodPath(NetOf(view, ByMetric), path)
    ensures Leanest(NetOf(view, ByMetric), path, n, Lean(view, path, n), j)
  {
    hide Consistent, NoOverflow, NetOf, Leanest, GoodHop, Lean;
    if n == 0 {
      LeanestStart(view, path);
      j := 0;
    } else {
      j := LeanestAll(view, path, n - 1);
      assert GoodHop(NetOf(view, ByMetric), path[n - 1], path[n]);
      j := LeanestStep(view, path, n - 1, j);
    }
  }

  lemma LeanPoints(view: View, path: seq<Node>, n: nat)
    requires Consistent(view) && InGraph(view, path) && n < |path| && Lean(view, path, n).ok
    ensures Points([] + Lean(view, path, n).segs, Lean(view, path, n).from)
  {
    LeanFollows(view, path, n);
    MinSegsPoints(view, [], path, n);
    assert [] + Lean(view, path, n).segs == Lean(view, path, n).segs && [] + MinSegs(view, path, n).segs == MinSegs(view, path, n).segs;
  }

  // No list that pins packets to the path is shorter than the lean one.
  lemma LeanIsLeast(net: Net, path: seq<Node>, s: Progress, j: nat, segs: seq<Segment>)
    requires net.Valid() && net.Positive() && |path| > 1 && Leanest(net, path, |path| - 1, s, j) && Points([] + s.segs, s.from)
    requires Exactly(net, path[0], segs, path)
    ensures |EndLeg(s.segs, Last(path))| <= |segs|
  {
    var n := |path| - 1;
    assert path[..n + 1] == path;
    PinnedIsExact(net, path[0], segs, path);
    assert PinnedTo(net, path, segs, n);
  }

  lemma LeanIsExact(view: View, path: seq<Node>, j: nat)
    requires Sound(view) && InGraph(view, path) && |path| > 1 && Leanest(NetOf(view, ByMetric), path, |path| - 1, Lean(view, path, |path| - 1), j)
    ensures Exactly(NetOf(view, ByMetric), path[0], LeanSegments(view, path), path)
    ensures Points([] + Lean(view, path, |path| - 1).segs, Lean(view, path, |path| - 1).from)
  {
    hide Consistent, NoOverflow, NetOf, Lean, Exactly, Bound, Unique;
    var s := Lean(view, path, |path| - 1);
    LeanPoints(view, path, |path| - 1);
    EndLegIsExact(view, NetOf(view, ByMetric), path[0], [], [path[0]], path, s, j);
    assert [] + s.segs == s.segs && Glue([path[0]], path) == path;
  }

  // How many more segments graph_minseg and the waypoint rule use than they must: one for each link
  // named right where the list already led, and one for a path of no hops.
  function Extra(view: View, p: seq<Node>): nat
    requires Consistent(view) && InGraph(view, p) && |p| > 0
  {
    if |p| == 1 then 1 else Doubled(view, p, |p| - 1)
  }

  lemma LengthsDiffer(view: View, p: seq<Node>)
    requires Consistent(view) && InGraph(view, p) && |p| > 0
    ensures |LegSegments(view, p)| == |LeanSegments(view, p)| + Extra(view, p)
  {
    LeanFollows(view, p, |p| - 1);
  }

  // For a path of good hops the lean list pins packets to it, no list that does is shorter, and the
  // list of graph_minseg is longer by exactly the extra segments.
  lemma FewestSegments(view: View, p: seq<Node>)
    requires Sound(view) && InGraph(view, p) && |p| > 0 && GoodPath(NetOf(view, ByMetric), p)
    ensures Exactly(NetOf(view, ByMetric), p[0], LeanSegments(view, p), p)
    ensures forall segs | Exactly(NetOf(view, ByMetric), p[0], segs, p) :: |LeanSegments(view, p)| <= |segs|
    ensures |LegSegments(view, p)| == |LeanSegments(view, p)| + Extra(view, p)
  {
    hide Consistent, NoOverflow, NetOf, Leanest, GoodPath, Lean, Exactly, MinSegs;
    var net := NetOf(view, ByMetric);
    NetOfIsValid(view, ByMetric);
    LengthsDiffer(view, p);
    if |p| == 1 {
      StandsStill(view, p);
    } else {
      var j := LeanestAll(view, p, |p| - 1);
      LeanIsExact(view, p, j);
      forall segs | Exactly(net, p[0], segs, p)
        ensures |LeanSegments(view, p)| <= |segs|
      {
        LeanIsLeast(net, p, Lean(view, p, |p| - 1), j, segs);
      }
    }
  }

  lemma StandsStill(view: View, p: seq<Node>)
    requires Consistent(view) && InGraph(view, p) && |p| == 1
    ensures Exactly(NetOf(view, ByMetric), p[0], [], p)
  {
    assert p == [p[0]] && p[0] in p;
  }

  // The list is a shortest one if and only if nothing was named in vain.
  lemma ShortestListIffNoExtra(view: View, p: seq<Node>)
    requires Sound(view) && InGraph(view, p) && |p| > 0 && GoodPath(NetOf(view, ByMetric), p)
    ensures (forall segs | Exactly(NetOf(view, ByMetric), p[0], segs, p) :: |LegSegments(view, p)| <= |segs|) <==> Extra(view, p) == 0
  {
    hide Consistent, NoOverflow, NetOf, GoodPath, Exactly, LegSegments, LeanSegments, Extra;
    FewestSegments(view, p);
  }

  lemma FirstHopNamed(view: View, p: seq<Node>)
    requires Sound(view) && InGraph(view, p) && |p| == 2 && GoodHop(NetOf(view, ByMetric), p[0], p[1]) && !Unique(NetOf(view, ByMetric), p)
    ensures (p[0], p[1]) in view.minEdges && p[0] != p[1] && p[1] in view.nodes
    ensures var s := Progress([], p[0], true); Hop(view, s, p[0], p[1]) == OverLink(view, s, p[0], p[1])
  {
    hide Consistent, NoOverflow, NetOf, Unique, GoodHop, Hop, OverLink, PrevOf, OverNode, InGraph;
    assert p[0..0 + 2] == p;
    SingleIsUnique(view, p, 0);
    HopCases(view, p, 0, Progress([], p[0], true), 0);
    LinkIsEdge(view, p[0], p[1]);
  }

  // A path whose first hop is one of several least-cost ways gets its own start named.
  lemma StartNamedInVain(view: View, p: seq<Node>)
    requires Sound(view) && InGraph(view, p) && |p| == 2 && GoodHop(NetOf(view, ByMetric), p[0], p[1]) && !Unique(NetOf(view, ByMetric), p)
    ensures (p[0], p[1]) in view.minEdges && LegSegments(view, p) == [NodeSegment(p[0]), AdjSegment(view.minEdges[(p[0], p[1])])] && Extra(view, p) == 1
  {
    hide Consistent, NoOverflow, NetOf, Unique, GoodHop, Hop, MinSegs, Doubled, InGraph;
    FirstHopNamed(view, p);
    OneHop(view, p);
    assert Connects(view.minEdges[(p[0], p[1])], p[0], p[1]) by { LinkIsEdge(view, p[0], p[1]); }
  }

  lemma OneHop(view: View, p: seq<Node>)
    requires Consistent(view) && InGraph(view, p) && |p| == 2 && p[1] in view.nodes
    ensures var s := Progress([], p[0], true);
      MinSegs(view, p, 1) == Hop(view, s, p[0], p[1]) && Doubled(view, p, 1) == if Doubles(s, Hop(view, s, p[0], p[1]), p[0], p[1]) then 1 else 0
  {
    hide Hop;
    assert MinSegs(view, p, 0) == Progress([], p[0], true) && Doubled(view, p, 0) == 0;
  }
}
