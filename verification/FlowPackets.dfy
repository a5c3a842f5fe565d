/**
 * Where a flow's packets go after the graph has changed: flow_affected looks at the flow's own edges
 * only, so a new way elsewhere can draw the packets off while the flow counts as unaffected.
 */
module FlowPackets {
  import opened Basics
  import opened ShortestPaths
  import opened Graphs
  import opened Dijkstra
  import opened DijkstraProofs
  import opened Segments
  import opened SegmentTheorems
  import opened SegmentMinimum
  import opened SegPaths
  import opened SegPathTheorems
  import opened Bandwidth
  import opened PathEngine
  import opened Flows
  import FlowTable

  // In every state of every run: a flow's packets keep to a walk of the published graph, and nowhere
  // else, if and only if the walk passes the check against the published graph's predecessor lists.
  lemma PacketsStayIffChecked(run: seq<FlowTable.State>, steps: seq<FlowTable.Step>, i: nat, b: FlowTable.Bsid, w: seq<Node>)
    requires FlowTable.IsRun(run, steps) && i < |run| && b in run[i].flows && |w| > 0 && InGraph(ViewOf(run[i].published.nodes, run[i].published.edges), w)
    ensures Sound(ViewOf(run[i].published.nodes, run[i].published.edges))
    ensures var fl, g := run[i].flows[b], run[i].published;
      Exactly(Full(g), fl.src, fl.segs, w) <==> Checks(ViewOf(g.nodes, g.edges), fl.src, fl.segs, w)
  {
    hide NoOverflow, Consistent, NetOf, Checks, Exactly, ViewOf, Tame;
    TameIsSound(run[i].published);
    ChecksAreExact(ViewOf(run[i].published.nodes, run[i].published.edges), run[i].flows[b].src, run[i].flows[b].segs, w);
  }

  // ------------------------------------------------------------ a link, and then a cheaper way round

  // A link from 1 to 2, and links 1-3 and 3-2 that together are cheaper.
  ghost predicate Shortcut(e: Edge, d1: Edge, d2: Edge) {
    && Connects(e, 1, 2) && Connects(d1, 1, 3) && Connects(d2, 3, 2)
    && e.id != d1.id && e.id != d2.id && d1.id != d2.id
    && 0 < d1.metric && 0 < d2.metric && d1.metric + d2.metric < e.metric < INFINITE
    && e.delay < INFINITE && d1.delay + d2.delay < INFINITE
  }

  function Before(e: Edge): Topo {
    Topo([1, 2, 3], [e])
  }

  function Later(e: Edge, d1: Edge, d2: Edge): Topo {
    Topo([1, 2, 3], [e, d1, d2])
  }

  lemma BothAreTopologies(e: Edge, d1: Edge, d2: Edge)
    requires Shortcut(e, d1, d2)
    ensures Topology([1, 2, 3], [e]) && OneLink([e]) && UniqueIds([e])
    ensures Topology([1, 2, 3], [e, d1, d2]) && OneLink([e, d1, d2]) && UniqueIds([e, d1, d2])
  {
  }

  lemma LinkEdge(edges: seq<Edge>, l: (Node, Node))
    requires l in MinEdgesOf([1, 2, 3], edges)
    ensures MinEdgesOf([1, 2, 3], edges)[l] in edges && Connects(MinEdgesOf([1, 2, 3], edges)[l], l.0, l.1)
  {
    MinEdgeIsLeast(edges, l.0, l.1);
  }

  lemma ShortcutCost(e: Edge, d1: Edge, d2: Edge, kept: seq<Edge>, ops: Ops, l: (Node, Node))
    requires Shortcut(e, d1, d2) && (forall x | x in kept :: x == e || x == d1 || x == d2)
    requires l in NetOf(ViewOf([1, 2, 3], kept), ops).cost
    ensures l in {(1, 2), (1, 3), (3, 2)} && NetOf(ViewOf([1, 2, 3], kept), ops).cost[l] < INFINITE
    ensures l == (1, 3) ==> NetOf(ViewOf([1, 2, 3], kept), ops).cost[l] == if ops == ByDelay then d1.delay else d1.metric
    ensures l == (3, 2) ==> NetOf(ViewOf([1, 2, 3], kept), ops).cost[l] == if ops == ByDelay then d2.delay else d2.metric
  {
    hide MinEdgesOf;
    LinkEdge(kept, l);
  }

  lemma ShortcutAdds(e: Edge, d1: Edge, d2: Edge, kept: seq<Edge>, ops: Ops)
    requires Shortcut(e, d1, d2) && (forall x | x in kept :: x == e || x == d1 || x == d2)
    requires NetOf(ViewOf([1, 2, 3], kept), ops).Valid()
    ensures Triangle(NetOf(ViewOf([1, 2, 3], kept), ops)) && forall r :: NoOverflow(NetOf(ViewOf([1, 2, 3], kept), ops), r)
  {
    hide ViewOf, NoOverflow;
    var net := NetOf(ViewOf([1, 2, 3], kept), ops);
    forall l | l in net.cost
      ensures l in {(1, 2), (1, 3), (3, 2)} && net.cost[l] < INFINITE
      ensures l == (1, 3) ==> net.cost[l] == if ops == ByDelay then d1.delay else d1.metric
      ensures l == (3, 2) ==> net.cost[l] == if ops == ByDelay then d2.delay else d2.metric
    {
      ShortcutCost(e, d1, d2, kept, ops, l);
    }
    assert ViewOf([1, 2, 3], kept).nodes == [1, 2, 3] by { NodesOfView(kept); }
    hide NetOf;
    assert Triangle(net);
    forall r
      ensures NoOverflow(net, r)
    {
      TriangleAdds(net, r);
    }
  }

  lemma NodesOfView(edges: seq<Edge>)
    ensures ViewOf([1, 2, 3], edges).nodes == [1, 2, 3]
  {
  }

  // Whatever is pruned, the network is within the triangle and its sums are small.
  lemma WithinShortcut(e: Edge, d1: Edge, d2: Edge, edges: seq<Edge>, bw: u32, ops: Ops)
    requires Shortcut(e, d1, d2) && (forall x | x in edges :: x == e || x == d1 || x == d2)
    requires Topology([1, 2, 3], edges) && !ops.DelayBelow?
    ensures Additive(ViewOf([1, 2, 3], Pruned(edges, bw)), ops)
    ensures Triangle(NetOf(ViewOf([1, 2, 3], Pruned(edges, bw)), ops)) && NetOf(ViewOf([1, 2, 3], Pruned(edges, bw)), ops).Valid()
  {
    hide Pruned, NetOf, NoOverflow, Topology, Consistent, ViewOf, Triangle;
    var kept := Pruned(edges, bw);
    PrunedTopology([1, 2, 3], edges, bw);
    FinalizedIsConsistent([1, 2, 3], kept);
    NetOfIsValid(ViewOf([1, 2, 3], kept), ops);
    PrunedKeeps(edges, bw);
    ShortcutAdds(e, d1, d2, kept, ops);
  }

  lemma BothAreTame(e: Edge, d1: Edge, d2: Edge)
    requires Shortcut(e, d1, d2)
    ensures Tame(Before(e)) && Tame(Later(e, d1, d2))
  {
    hide Additive, Topology, UniqueIds, OneLink, NetOf;
    BothAreTopologies(e, d1, d2);
    forall bw, ops: Ops | !ops.DelayBelow?
      ensures Additive(Kept(Before(e), bw), ops) && Additive(Kept(Later(e, d1, d2), bw), ops)
    {
      WithinShortcut(e, d1, d2, [e], bw, ops);
      WithinShortcut(e, d1, d2, [e, d1, d2], bw, ops);
    }
  }

  // ------------------------------------------------------------ the flow before

  lemma DirectNet(e: Edge, d1: Edge, d2: Edge, bw: u32, ops: Ops)
    requires Shortcut(e, d1, d2) && bw <= e.avaBw && !ops.DelayBelow?
    ensures var net := NetOf(Kept(Before(e), bw), ops);
      net.Valid() && Triangle(net) && (1, 2) in net.cost && (1, 3) !in net.cost && Kept(Before(e), bw).minEdges[(1, 2)] == e
  {
    hide Additive, Triangle, OneLink, Topology, UniqueIds, Pruned, MinEdgesOf;
    BothAreTopologies(e, d1, d2);
    WithinShortcut(e, d1, d2, [e], bw, ops);
    OneSurvives(e, bw);
    OnlyLink(e, d1, d2);
  }

  lemma OnlyLink(e: Edge, d1: Edge, d2: Edge)
    requires Shortcut(e, d1, d2)
    ensures var m := MinEdgesOf([1, 2, 3], [e]); (1, 2) in m && m[(1, 2)] == e && (1, 3) !in m
  {
    hide Topology, UniqueIds;
    BothAreTopologies(e, d1, d2);
    OnlyEdgeIsMinEdge([e], e);
    MinEdgeIsLeast([e], 1, 3);
  }

  lemma OneSurvives(e: Edge, bw: u32)
    requires bw <= e.avaBw
    ensures Pruned([e], bw) == [e]
  {
    assert [e][..0] == [] && Last([e]) == e && Pruned([], bw) == [];
  }

  lemma DirectIsUnique(net: Net)
    requires net.Valid() && Triangle(net) && (1, 2) in net.cost && (1, 3) !in net.cost
    ensures Unique(net, [1, 2])
  {
    assert Joins(net, 1, 2, [1, 2]);
    forall p: seq<Node>
      ensures Joins(net, 1, 2, p) ==> p == [1, 2]
      ensures ShortestFrom(net, 1, 2, p) ==> p == [1, 2]
    {
      OnlyDirectWalk(net, p);
      ShortestJoins(net, 1, 2, p);
    }
  }

  // What the controller stores for a flow from 1 to 2.
  function Stored(bw: u32, byDelay: bool, e: Edge): Flow {
    Flow(1, 2, bw, byDelay, [NodeSegment(2)], [e], false)
  }

  lemma DirectPath(e: Edge, d1: Edge, d2: Edge, bw: u32, byDelay: bool)
    requires Shortcut(e, d1, d2) && bw <= e.avaBw
    ensures var c, ops := Kept(Before(e), bw), if byDelay then ByDelay else ByMetric;
      Consistent(c) && 2 in c.nodes && FirstPath(c, ops, 1, 2) == Some([1, 2])
  {
    hide NetOf, NoOverflow, Consistent, Triangle, FirstPath, Shortest, IsWalk, Topology, OneLink, UniqueIds;
    var c, ops := Kept(Before(e), bw), if byDelay then ByDelay else ByMetric;
    BothAreTopologies(e, d1, d2);
    WithinShortcut(e, d1, d2, [e], bw, ops);
    DirectNet(e, d1, d2, bw, ops);
    FirstPathIsShortest(c, ops, 1, 2);
    var p := if FirstPath(c, ops, 1, 2).Some? then FirstPath(c, ops, 1, 2).value else [];
    OnlyDirectWalk(NetOf(c, ops), p);
    ShortestJoins(NetOf(c, ops), 1, 2, p);
  }

  // In the graph without the way round the direct link takes one segment.
  lemma DirectSegments(e: Edge, d1: Edge, d2: Edge)
    requires Shortcut(e, d1, d2)
    ensures var g := ViewOf([1, 2, 3], [e]);
      Consistent(g) && InGraph(g, [1, 2]) && MinSegs(g, [1, 2], 1) == Progress([], 1, true) && (1, 2) in g.minEdges && g.minEdges[(1, 2)] == e
  {
    hide NoOverflow, Consistent, Triangle, Topology, OneLink, UniqueIds, MinSegs, Unique, Tame, NetOf;
    var g := ViewOf([1, 2, 3], [e]);
    BothAreTame(e, d1, d2);
    TameIsSound(Before(e));
    DirectNet(e, d1, d2, 0, ByMetric);
    NothingPruned([e]);
    DirectIsUnique(NetOf(g, ByMetric));
    assert [1, 2][..1 + 1] == [1, 2];
    UniqueNamesNothing(g, [1, 2], 1);
    LinkIsCost(g, 1, 2);
  }

  lemma TripBefore(e: Edge, d1: Edge, d2: Edge, bw: u32, byDelay: bool)
    requires Shortcut(e, d1, d2) && bw <= e.avaBw && Tame(Before(e))
    ensures TripOf(Before(e), Stored(bw, byDelay, e)) == Some(Trip([NodeSegment(2)], [[1, 2]], 2))
  {
    hide Tame, NetOf, NoOverflow, Consistent, FirstPath, MinSegs, Legs, ViewOf, Kept;
    var fl := Stored(bw, byDelay, e);
    TripReady(Before(e), fl);
    DirectPath(e, d1, d2, bw, byDelay);
    DirectSegments(e, d1, d2);
    OneLeg(ViewOf([1, 2, 3], [e]), Kept(Before(e), bw), Hook(fl), Trip([], [], 1), 2, [1, 2]);
    assert [] + [[1, 2]] == [[1, 2]];
    assert EndLeg([] + [], 2) == [NodeSegment(2)];
  }

  lemma EdgesBefore(e: Edge, d1: Edge, d2: Edge, t: Trip)
    requires Shortcut(e, d1, d2) && t.legs == [[1, 2]]
    ensures EdgesOf(Before(e), t) == Some([e])
  {
    hide ViewOf, Consistent, MinSegs;
    DirectSegments(e, d1, d2);
    FlatOne(t.legs);
    var m := ViewOf([1, 2, 3], [e]).minEdges;
    assert [1, 2][..1] == [1] && NodesToEdges(m, [1]) == Some([]);
    assert [] + [e] == [e];
  }

  lemma AdmittedBefore(e: Edge, d1: Edge, d2: Edge, bw: u32, byDelay: bool)
    requires Shortcut(e, d1, d2) && bw <= e.avaBw && Tame(Before(e))
    ensures FlowTable.RoutedIn(Before(e), Stored(bw, byDelay, e))
  {
    hide Tame, TripOf, EdgesOf;
    TripBefore(e, d1, d2, bw, byDelay);
    EdgesBefore(e, d1, d2, Trip([NodeSegment(2)], [[1, 2]], 2));
  }

  // ------------------------------------------------------------ its packets later

  lemma PacketsStray(e: Edge, d1: Edge, d2: Edge)
    requires Shortcut(e, d1, d2)
    ensures Exactly(Full(Later(e, d1, d2)), 1, [NodeSegment(2)], [1, 3, 2])
  {
    hide Exactly, ViewOf, Consistent, NetOf, Topology, OneLink, UniqueIds;
    var net := Full(Later(e, d1, d2));
    BothAreTopologies(e, d1, d2);
    FinalizedIsConsistent([1, 2, 3], [e, d1, d2]);
    NetOfIsValid(ViewOf([1, 2, 3], [e, d1, d2]), ByMetric);
    DetourNet(e, d1, d2);
    assert net.cost.Keys == {(1, 2), (1, 3), (3, 2)};
    DetourIsUnique(net);
    OneNodeSegment(net, [1, 3, 2]);
  }

  lemma OneNodeSegment(net: Net, w: seq<Node>)
    requires net.Valid() && net.Positive() && Unique(net, w) && w[0] in net.nodes
    ensures Exactly(net, w[0], [NodeSegment(Last(w))], w)
  {
    NodeSegmentIsExact(net, w);
    assert Exactly(net, w[0], [], [w[0]]);
    ExactlyAppend(net, w[0], [], [w[0]], NodeSegment(Last(w)), w);
    assert [] + [NodeSegment(Last(w))] == [NodeSegment(Last(w))] && Glue([w[0]], w) == w;
  }

  lemma StillIntact(e: Edge, d1: Edge, d2: Edge, fl: Flow)
    requires Shortcut(e, d1, d2) && fl.epath == [e]
    ensures Intact([e, d1, d2], fl) && Intact([e], fl)
  {
    UniqueById([e, d1, d2], e);
    UniqueById([e], e);
  }

  // ------------------------------------------------------------ the run

  ghost predicate Ends(run: seq<FlowTable.State>, steps: seq<FlowTable.Step>, s: FlowTable.State) {
    FlowTable.IsRun(run, steps) && run[|steps|] == s
  }

  ghost predicate Reached(s: FlowTable.State) {
    exists run, steps :: Ends(run, steps, s)
  }

  lemma GoOn(s: FlowTable.State, a: FlowTable.Step, s': FlowTable.State)
    requires Reached(s) && FlowTable.Enabled(s, a) && s' == FlowTable.Apply(s, a)
    ensures Reached(s')
  {
    hide FlowTable.Enabled, FlowTable.Apply, Tame;
    var run, steps :| Ends(run, steps, s);
    var run', steps' := run + [s'], steps + [a];
    forall i | 0 <= i < |steps'|
      ensures FlowTable.Enabled(run'[i], steps'[i]) && run'[i + 1] == FlowTable.Apply(run'[i], steps'[i])
    {
      assert i < |steps| ==> run'[i] == run[i] && run'[i + 1] == run[i + 1] && steps'[i] == steps[i];
    }
    assert Ends(run', steps', s');
  }

  // A graph is edited in, published, and no flow is affected.
  lemma Publish(s: FlowTable.State, g: FlowTable.Network)
    requires Reached(s) && s.phase.Idle? && forall b | b in s.flows :: Intact(g.edges, s.flows[b])
    ensures Reached(s.(staging := g, published := g, dirty := false))
  {
    hide Reached, Tame, Intact;
    var s1 := s.(staging := g, dirty := true);
    GoOn(s, FlowTable.Edit(g), s1);
    var s2 := s1.(published := g, dirty := false, phase := FlowTable.Synced);
    GoOn(s1, FlowTable.Sync, s2);
    var s3 := s2.(phase := FlowTable.Fixing({}));
    assert FlowTable.Affected(s2) == {};
    GoOn(s2, FlowTable.Scan, s3);
    GoOn(s3, FlowTable.Finish, s3.(phase := FlowTable.Idle));
  }

  lemma StartReached() returns (s: FlowTable.State)
    ensures Reached(s) && s.phase.Idle? && s.flows == map[]
  {
    hide Tame;
    assert Tame(Topo([], [])) by { EmptyIsTame(); }
    s := FlowTable.State(Topo([], []), Topo([], []), false, FlowTable.Idle, map[]);
    assert Ends([s], [], s);
  }

  lemma EmptyIsTame()
    ensures Tame(Topo([], []))
  {
    var g: FlowTable.Network := Topo([], []);
  }

  // A flow is admitted over the link; then the cheaper way round appears. The flow counts as unaffected,
  // the controller is at rest with the graph up to date, and yet every packet takes the way round.
  lemma UnaffectedFlowStrays(e: Edge, d1: Edge, d2: Edge, bw: u32, byDelay: bool, b: FlowTable.Bsid) returns (s: FlowTable.State)
    requires Shortcut(e, d1, d2) && bw <= e.avaBw
    ensures Reached(s) && s.phase.Idle? && !s.dirty && b in s.flows && s.flows[b] == Stored(bw, byDelay, e) && Intact(s.published.edges, s.flows[b])
    ensures Exactly(Full(s.published), 1, s.flows[b].segs, [1, 3, 2])
  {
    hide Reached, Tame, Exactly, Intact, FlowTable.RoutedIn;
    BothAreTame(e, d1, d2);
    var s0 := StartReached();
    var g0: FlowTable.Network, g1: FlowTable.Network := Before(e), Later(e, d1, d2);
    Publish(s0, g0);
    var s1 := s0.(staging := g0, published := g0, dirty := false);
    var fl := Stored(bw, byDelay, e);
    AdmittedBefore(e, d1, d2, bw, byDelay);
    var s2 := s1.(flows := map[b := fl]);
    assert s1.flows[b := fl] == map[b := fl];
    GoOn(s1, FlowTable.Admit(b, fl), s2);
    StillIntact(e, d1, d2, fl);
    Publish(s2, g1);
    s := s2.(staging := g1, published := g1, dirty := false);
    PacketsStray(e, d1, d2);
  }
}
