/**
 * build_segpath: one shortest-path leg per waypoint, compiled into one segment list.
 */
module SegPaths {
  import opened Basics
  import opened ShortestPaths
  import opened Graphs
  import opened Dijkstra
  import opened DijkstraTheorems
  import opened Segments

  // The segment list and the legs so far, and the node the last leg ended at.
  datatype Trip = Trip(segs: seq<Segment>, legs: seq<seq<Node>>, cur: Node)

  // The path build_segpath takes to t: the first one listed.
  function FirstPath(view: View, ops: Ops, cur: Node, t: Node): (r: Option<seq<Node>>)
    requires Consistent(view) && t in view.nodes
  {
    InitOk(view, cur);
    var paths := Result(view, ops, cur).path[t];
    if paths == [] then None else Some(Forward(cur, paths[0]))
  }

  // Paths are found in c, the pruned graph, and compiled against g, the full one.
  function Leg(g: View, c: View, ops: Ops, s: Trip, t: Node): (r: Option<Trip>)
    requires Consistent(g) && Consistent(c) && t in c.nodes && g.nodes == c.nodes && s.cur in c.nodes
  {
    match FirstPath(c, ops, s.cur, t)
    case None => None
    case Some(p) =>
      FirstPathInGraph(c, ops, s.cur, t);
      var m := MinSegs(g, p, |p| - 1);
      if m.ok then Some(Trip(EndLeg(s.segs + m.segs, t), s.legs + [p], t)) else None
  }

  function Legs(g: View, c: View, ops: Ops, s: Trip, targets: seq<Node>): (r: Option<Trip>)
    requires Consistent(g) && Consistent(c) && g.nodes == c.nodes && s.cur in c.nodes
    requires InGraph(c, targets)
    ensures r.Some? ==> r.value.cur in c.nodes
    decreases |targets|
  {
    if targets == [] then Some(s)
    else
      match Legs(g, c, ops, s, targets[..|targets| - 1])
      case None => None
      case Some(s') => Leg(g, c, ops, s', Last(targets))
  }

  // Recorded lists only name nodes of the graph.
  lemma FirstPathInGraph(c: View, ops: Ops, cur: Node, t: Node)
    requires Consistent(c) && t in c.nodes && cur in c.nodes
    ensures FirstPath(c, ops, cur, t).Some? ==> InGraph(c, FirstPath(c, ops, cur, t).value)
  {
    hide Consistent, InGraph, Run;
    InitOk(c, cur);
    PathsNameNodes(c, ops, Init(c, cur));
    var paths := Result(c, ops, cur).path[t];
    if paths != [] {
      assert paths[0] in paths;
      ForwardInGraph(c, cur, paths[0]);
    }
  }

  lemma ForwardInGraph(c: View, cur: Node, l: seq<Node>)
    requires cur in c.nodes && InGraph(c, l)
    ensures InGraph(c, Forward(cur, l))
  {
    ReversedSame(l);
  }

  ghost predicate ListsInGraph(view: View, s: State) {
    forall v, l | v in s.path && l in s.path[v] :: InGraph(view, l)
  }

  lemma StepNamesNodes(view: View, ops: Ops, s: State, i: nat)
    requires Ok(view, s) && ListsInGraph(view, s) && i < |s.q|
    ensures ListsInGraph(view, Step(view, ops, s, i))
  {
    var u, d := s.q[i], s.done + [s.q[i]];
    SettleLayers(view, s, i);
    assert forall x | x in d :: x in view.nodes;
    hide Ok, Layered;
    forall l | l in AllPaths(s.prev, d, u) ensures InGraph(view, l) {
      AllPathsIn(s.prev, d, u, l);
    }
    assert Step(view, ops, s, i).path == s.path[u := AllPaths(s.prev, d, u)];
  }

  lemma {:induction false} PathsNameNodes(view: View, ops: Ops, s: State)
    requires Ok(view, s) && ListsInGraph(view, s)
    ensures ListsInGraph(view, Run(view, ops, s))
    decreases |s.q|
  {
    var i := Pick(s.dist, s.q);
    if i.Some? {
      StepNamesNodes(view, ops, s, i.value);
      hide ListsInGraph, Step;
      PathsNameNodes(view, ops, Step(view, ops, s, i.value));
    }
  }

  lemma {:induction false} AllPathsIn(prev: map<Node, seq<Node>>, done: seq<Node>, u: Node, l: seq<Node>)
    requires Layered(prev, done) && u in done && l in AllPaths(prev, done, u)
    ensures forall x | x in l :: x in done
    decreases |l|
  {
    if prev[u] != [] {
      ThroughMember(prev, done, u, prev[u], l);
      var w :| w in prev[u] && w in done && l[1..] in AllPaths(prev, done, w);
      AllPathsIn(prev, done, w, l[1..]);
      assert l == [u] + l[1..];
    }
  }
}

module SegPathTheorems {
  import opened Basics
  import opened ShortestPaths
  import opened Graphs
  import opened Dijkstra
  import opened DijkstraProofs
  import opened DijkstraTheorems
  import opened Segments
  import opened SegmentTheorems
  import opened SegPaths
  import opened PathShapes

  // c has the nodes of g and none but its links.
  ghost predicate Within(c: View, g: View) {
    && Consistent(c) && c.nodes == g.nodes
    && forall l | l in c.minEdges :: l in g.minEdges
  }

  // No sum along any leg reaches infinity.
  ghost predicate Additive(c: View, ops: Ops) {
    && Consistent(c) && !ops.DelayBelow?
    && forall x | x in c.nodes :: NoOverflow(NetOf(c, ops), x)
  }

  // The walk that visits the legs one after the other.
  ghost function Walk(src: Node, legs: seq<seq<Node>>): seq<Node> {
    if legs == [] || Last(legs) == [] then [src]
    else Glue(Walk(src, legs[..|legs| - 1]), Last(legs))
  }

  lemma FirstPathIsShortest(c: View, ops: Ops, cur: Node, t: Node)
    requires Additive(c, ops) && cur in c.nodes && t in c.nodes
    ensures FirstPath(c, ops, cur, t).Some? <==> Reachable(NetOf(c, ops), cur, t)
    ensures FirstPath(c, ops, cur, t).Some? ==>
              ShortestFrom(NetOf(c, ops), cur, t, FirstPath(c, ops, cur, t).value) && NoDup(FirstPath(c, ops, cur, t).value)
  {
    hide Run, NoDup, Shortest, IsWalk, Reachable;
    DistancesAreExact(c, ops, cur);
    assert t in NetOf(c, ops).nodes;
    var paths := Result(c, ops, cur).path[t];
    if paths != [] {
      assert paths[0] in paths;
    }
  }

  lemma WalkIsLinked(c: View, g: View, ops: Ops, p: seq<Node>)
    requires Within(c, g) && IsWalk(NetOf(c, ops), p)
    ensures Linked(g, p)
  {
  }

  lemma InBoth(c: View, g: View, p: seq<Node>)
    requires c.nodes == g.nodes && InGraph(c, p)
    ensures InGraph(g, p)
  {
  }

  lemma NonEmptyWalk(net: Net, p: seq<Node>)
    requires Shortest(net, p)
    ensures |p| > 0 && IsWalk(net, p)
  {
  }

  // A leg fails exactly when its target cannot be reached in the pruned graph.
  lemma LegFails(g: View, c: View, ops: Ops, s: Trip, t: Node)
    requires Consistent(g) && Within(c, g) && Additive(c, ops) && t in c.nodes && s.cur in c.nodes
    ensures Leg(g, c, ops, s, t).None? <==> !Reachable(NetOf(c, ops), s.cur, t)
  {
    hide Consistent, NoOverflow, FirstPath, MinSegs, InGraph, NetOf, Shortest;
    FirstPathIsShortest(c, ops, s.cur, t);
    FirstPathInGraph(c, ops, s.cur, t);
    if FirstPath(c, ops, s.cur, t).Some? {
      var p := FirstPath(c, ops, s.cur, t).value;
      NonEmptyWalk(NetOf(c, ops), p);
      WalkIsLinked(c, g, ops, p);
      InBoth(c, g, p);
      MinSegsOk(g, p, |p| - 1);
    }
  }

  // Where leg i starts.
  function Station(src: Node, targets: seq<Node>, i: nat): Node
    requires i <= |targets|
  {
    if i == 0 then src else targets[i - 1]
  }

  // Leg i is a least-cost walk from station i to station i + 1.
  ghost predicate ShortestLegs(net: Net, src: Node, targets: seq<Node>, legs: seq<seq<Node>>) {
    && |legs| == |targets|
    && forall i | 0 <= i < |targets| :: ShortestFrom(net, Station(src, targets, i), targets[i], legs[i])
  }

  ghost predicate GoodLegs(net: Net, legs: seq<seq<Node>>) {
    forall p | p in legs :: GoodPath(net, p)
  }

  lemma ShortestLegsExtend(net: Net, src: Node, targets: seq<Node>, legs: seq<seq<Node>>, t: Node, p: seq<Node>)
    requires ShortestLegs(net, src, targets, legs)
    requires ShortestFrom(net, Station(src, targets, |targets|), t, p)
    ensures ShortestLegs(net, src, targets + [t], legs + [p])
  {
    var ts, ls := targets + [t], legs + [p];
    forall i | 0 <= i < |ts|
      ensures ShortestFrom(net, Station(src, ts, i), ts[i], ls[i])
    {
      assert Station(src, ts, i) == Station(src, targets, i);
    }
  }

  // Leg i is a simple chain of links from station i to station i + 1.
  ghost predicate ChainedLegs(g: View, src: Node, targets: seq<Node>, legs: seq<seq<Node>>) {
    && |legs| == |targets|
    && forall i | 0 <= i < |targets| :: IsChainOf(g, Station(src, targets, i), targets[i], legs[i])
  }

  lemma ChainedLegsExtend(g: View, src: Node, targets: seq<Node>, legs: seq<seq<Node>>, t: Node, p: seq<Node>)
    requires ChainedLegs(g, src, targets, legs)
    requires IsChainOf(g, Station(src, targets, |targets|), t, p)
    ensures ChainedLegs(g, src, targets + [t], legs + [p])
  {
    hide IsChainOf;
    var ts, ls := targets + [t], legs + [p];
    forall i | 0 <= i < |ts|
      ensures IsChainOf(g, Station(src, ts, i), ts[i], ls[i])
    {
      assert Station(src, ts, i) == Station(src, targets, i);
    }
  }

  // What holds of a trip through the targets taken so far.
  ghost predicate OnCourse(g: View, src: Node, targets: seq<Node>, s: Trip) {
    && s.cur == Station(src, targets, |targets|)
    && ChainedLegs(g, src, targets, s.legs)
    && |Walk(src, s.legs)| > 0 && Last(Walk(src, s.legs)) == s.cur
    && (GoodLegs(NetOf(g, ByMetric), s.legs) ==>
          Exactly(NetOf(g, ByMetric), src, s.segs, Walk(src, s.legs)) && Points(s.segs, s.cur))
  }

  lemma StartOnCourse(g: View, src: Node)
    requires src in g.nodes
    ensures OnCourse(g, src, [], Trip([], [], src))
  {
  }

  lemma LegOnCourse(g: View, c: View, ops: Ops, src: Node, targets: seq<Node>, s: Trip, t: Node)
    requires Sound(g) && Within(c, g) && t in c.nodes && s.cur in c.nodes
    requires OnCourse(g, src, targets, s)
    requires Leg(g, c, ops, s, t).Some?
    ensures OnCourse(g, src, targets + [t], Leg(g, c, ops, s, t).value)
  {
    hide Consistent, NoOverflow, Leg, MinSegs, InGraph, OnCourse, EndLeg, IsChainOf;
    var p := LegTaken(g, c, ops, s, t);
    CourseStation(g, src, targets, s);
    ExtendCourse(g, src, targets, s, t, p);
  }

  lemma ExtendCourse(g: View, src: Node, targets: seq<Node>, s: Trip, t: Node, p: seq<Node>)
    requires Sound(g) && OnCourse(g, src, targets, s) && IsChainOf(g, s.cur, t, p) && InGraph(g, p)
    ensures OnCourse(g, src, targets + [t], Trip(EndLeg(s.segs + MinSegs(g, p, |p| - 1).segs, t), s.legs + [p], t))
  {
    hide Consistent, NoOverflow, MinSegs, InGraph, NetOf, GoodLegs, GoodPath, Exactly, EndLeg, ChainedLegs, Linked, NoDup, Walk, Glue, Points;
    ChainedLegsExtend(g, src, targets, s.legs, t, p);
    WalkOn(src, s.legs, p);
    GoodLegsSplit(NetOf(g, ByMetric), s.legs, p);
    if GoodLegs(NetOf(g, ByMetric), s.legs + [p]) {
      LegIsExact(g, src, s.segs, Walk(src, s.legs), p);
    }
  }

  // One leg more.
  lemma WalkOn(src: Node, legs: seq<seq<Node>>, p: seq<Node>)
    requires |Walk(src, legs)| > 0 && |p| > 0 && p[0] == Last(Walk(src, legs))
    ensures var w := Walk(src, legs + [p]);
      w == Glue(Walk(src, legs), p) && |w| > 0 && Last(w) == Last(p)
  {
    assert (legs + [p])[..|legs|] == legs && Last(legs + [p]) == p;
  }

  lemma GoodLegsSplit(net: Net, legs: seq<seq<Node>>, p: seq<Node>)
    ensures GoodLegs(net, legs + [p]) <==> GoodLegs(net, legs) && GoodPath(net, p)
  {
    hide GoodPath;
    assert p in legs + [p] && forall q | q in legs :: q in legs + [p];
  }

  lemma FrontInGraph(c: View, targets: seq<Node>)
    requires InGraph(c, targets) && targets != []
    ensures InGraph(c, targets[..|targets| - 1]) && Last(targets) in c.nodes
    ensures targets == targets[..|targets| - 1] + [Last(targets)]
  {
    assert Last(targets) in targets;
  }

  lemma {:induction false} LegsOnCourse(g: View, c: View, ops: Ops, src: Node, targets: seq<Node>)
    requires Sound(g) && Within(c, g) && src in c.nodes && InGraph(c, targets)
    requires Legs(g, c, ops, Trip([], [], src), targets).Some?
    ensures OnCourse(g, src, targets, Legs(g, c, ops, Trip([], [], src), targets).value)
    decreases |targets|
  {
    hide Consistent, NoOverflow, OnCourse, Leg, InGraph, NetOf;
    if targets == [] {
      StartOnCourse(g, src);
    } else {
      var front := targets[..|targets| - 1];
      FrontInGraph(c, targets);
      LegsOnCourse(g, c, ops, src, front);
      LegOnCourse(g, c, ops, src, front, Legs(g, c, ops, Trip([], [], src), front).value, Last(targets));
    }
  }

  // Some target cannot be reached from the one before it.
  ghost predicate Broken(net: Net, src: Node, targets: seq<Node>) {
    exists i | 0 <= i < |targets| :: !Reachable(net, Station(src, targets, i), targets[i])
  }

  lemma BrokenExtends(net: Net, src: Node, targets: seq<Node>, t: Node)
    ensures Broken(net, src, targets + [t]) <==>
            Broken(net, src, targets) || !Reachable(net, Station(src, targets, |targets|), t)
  {
    var ts := targets + [t];
    assert forall i | 0 <= i <= |targets| :: Station(src, ts, i) == Station(src, targets, i);
    if i :| 0 <= i < |targets| && !Reachable(net, Station(src, targets, i), targets[i]) {
      assert ts[i] == targets[i];
    }
    assert ts[|targets|] == t;
  }

  // build_segpath gives up exactly when some target cannot be reached, within the pruned
  // graph, from the one before it.
  lemma {:induction false} TripFails(g: View, c: View, ops: Ops, src: Node, targets: seq<Node>)
    requires Sound(g) && Within(c, g) && Additive(c, ops) && src in c.nodes && InGraph(c, targets)
    ensures Legs(g, c, ops, Trip([], [], src), targets).None? <==> Broken(NetOf(c, ops), src, targets)
    decreases |targets|
  {
    if targets != [] {
      hide Consistent, NoOverflow, Leg, Reachable, NetOf, Broken, InGraph;
      var front, t := targets[..|targets| - 1], Last(targets);
      FrontInGraph(c, targets);
      TripFails(g, c, ops, src, front);
      BrokenExtends(NetOf(c, ops), src, front, t);
      var r := Legs(g, c, ops, Trip([], [], src), front);
      if r.Some? {
        LegsOnCourse(g, c, ops, src, front);
        LegFails(g, c, ops, r.value, t);
      }
    }
  }

  // ------------------------------------------------------------ trips with a bad hop

  // What a leg adds to the segments.
  lemma EndLegExtends(base: seq<Segment>, segs: seq<Segment>, t: Node) returns (more: seq<Segment>)
    ensures EndLeg(base + segs, t) == base + more
  {
    more := EndLeg(base + segs, t)[|base|..];
  }

  // Once a leg has a bad hop, no segments that follow keep the packet on the legs.
  lemma {:induction false} TripIsLost(g: View, c: View, ops: Ops, src: Node, targets: seq<Node>, rest: seq<Segment>, trace: seq<Node>)
    requires Sound(g) && Within(c, g) && src in c.nodes && InGraph(c, targets)
    requires Legs(g, c, ops, Trip([], [], src), targets).Some?
    requires var trip := Legs(g, c, ops, Trip([], [], src), targets).value;
      !GoodLegs(NetOf(g, ByMetric), trip.legs) && Walk(src, trip.legs) <= trace
    ensures !Carries(NetOf(g, ByMetric), src, Legs(g, c, ops, Trip([], [], src), targets).value.segs + rest, trace)
    decreases |targets|
  {
    hide Consistent, NoOverflow, InGraph, NetOf, Legs, Leg, Carries, GoodLegs, Glue, Exactly, Within, NoDup, Linked, ChainedLegs, EndLeg, Walk, GoodPath;
    if targets == [] {
      NoLegs(g, c, ops, src, targets);
    } else {
      var front, t := targets[..|targets| - 1], Last(targets);
      var s, p := LastLeg(g, c, ops, src, targets);
      LegsOnCourse(g, c, ops, src, front);
      WalkOn(src, s.legs, p);
      GoodLegsSplit(NetOf(g, ByMetric), s.legs, p);
      GlueKeeps(Walk(src, s.legs), p);
      if GoodLegs(NetOf(g, ByMetric), s.legs) {
        BadLegIsLost(g, src, s.segs, Walk(src, s.legs), p, rest, trace);
      } else {
        var more := EndLegExtends(s.segs, MinSegs(g, p, |p| - 1).segs, t);
        TripIsLost(g, c, ops, src, front, more + rest, trace);
        assert s.segs + more + rest == s.segs + (more + rest);
      }
    }
  }

  lemma NoLegs(g: View, c: View, ops: Ops, src: Node, targets: seq<Node>)
    requires Sound(g) && Within(c, g) && src in c.nodes && InGraph(c, targets) && targets == []
    ensures Legs(g, c, ops, Trip([], [], src), targets) == Some(Trip([], [], src))
    ensures GoodLegs(NetOf(g, ByMetric), [])
  {
  }

  // The trip but for its last leg, and that leg.
  lemma LastLeg(g: View, c: View, ops: Ops, src: Node, targets: seq<Node>) returns (s: Trip, p: seq<Node>)
    requires Sound(g) && Within(c, g) && src in c.nodes && InGraph(c, targets) && targets != []
    requires Legs(g, c, ops, Trip([], [], src), targets).Some?
    ensures var front, t := targets[..|targets| - 1], Last(targets);
      && InGraph(c, front) && Legs(g, c, ops, Trip([], [], src), front) == Some(s)
      && IsChainOf(g, s.cur, t, p) && InGraph(g, p)
    ensures var trip := Legs(g, c, ops, Trip([], [], src), targets).value;
      && trip.legs == s.legs + [p] && trip.segs == EndLeg(s.segs + MinSegs(g, p, |p| - 1).segs, Last(targets))
  {
    hide Consistent, NoOverflow, Leg, MinSegs, InGraph, NetOf, EndLeg, IsChainOf;
    FrontInGraph(c, targets);
    s := Legs(g, c, ops, Trip([], [], src), targets[..|targets| - 1]).value;
    p := LegTaken(g, c, ops, s, Last(targets));
  }

  lemma GlueKeeps(w: seq<Node>, p: seq<Node>)
    requires |w| > 0 && |p| > 0 && p[0] == Last(w)
    ensures w <= Glue(w, p)
  {
  }

  lemma ChainInBoth(c: View, g: View, s: Node, t: Node, p: seq<Node>)
    requires Within(c, g) && IsChainOf(c, s, t, p)
    ensures IsChainOf(g, s, t, p)
  {
  }

  // The path a leg takes, and the segments after it.
  lemma LegTaken(g: View, c: View, ops: Ops, s: Trip, t: Node) returns (p: seq<Node>)
    requires Consistent(g) && Within(c, g) && t in c.nodes && s.cur in c.nodes
    requires Leg(g, c, ops, s, t).Some?
    ensures FirstPath(c, ops, s.cur, t) == Some(p) && IsChainOf(g, s.cur, t, p) && InGraph(g, p)
    ensures var s' := Leg(g, c, ops, s, t).value;
      s' == Trip(EndLeg(s.segs + MinSegs(g, p, |p| - 1).segs, t), s.legs + [p], t)
  {
    hide Consistent, FirstPath, MinSegs, InGraph, EndLeg, IsChainOf;
    FirstPathInGraph(c, ops, s.cur, t);
    FirstPathIsChain(c, ops, s.cur, t);
    p := FirstPath(c, ops, s.cur, t).value;
    ChainInBoth(c, g, s.cur, t, p);
    InBoth(c, g, p);
  }

  lemma CourseIsExact(g: View, src: Node, targets: seq<Node>, s: Trip)
    requires OnCourse(g, src, targets, s)
    ensures ChainedLegs(g, src, targets, s.legs)
    ensures GoodLegs(NetOf(g, ByMetric), s.legs) ==> Exactly(NetOf(g, ByMetric), src, s.segs, Walk(src, s.legs))
  {
  }

  // Where no sum reaches infinity and the cost is not bounded by delay, every leg is least-cost in the
  // pruned graph.
  lemma {:induction false} LegsAreShortest(g: View, c: View, ops: Ops, src: Node, targets: seq<Node>)
    requires Sound(g) && Within(c, g) && Additive(c, ops) && src in c.nodes && InGraph(c, targets)
    requires Legs(g, c, ops, Trip([], [], src), targets).Some?
    ensures ShortestLegs(NetOf(c, ops), src, targets, Legs(g, c, ops, Trip([], [], src), targets).value.legs)
    decreases |targets|
  {
    hide Consistent, NoOverflow, NetOf, Leg, ShortestLegs, InGraph, OnCourse, FirstPath, MinSegs, EndLeg;
    if targets == [] {
      NoShortestLegs(NetOf(c, ops), src);
    } else {
      var front, t := targets[..|targets| - 1], Last(targets);
      FrontInGraph(c, targets);
      LegsAreShortest(g, c, ops, src, front);
      LegsOnCourse(g, c, ops, src, front);
      var s := Legs(g, c, ops, Trip([], [], src), front).value;
      CourseStation(g, src, front, s);
      var p := LegTaken(g, c, ops, s, t);
      FirstPathIsShortest(c, ops, s.cur, t);
      ShortestLegsExtend(NetOf(c, ops), src, front, s.legs, t, p);
    }
  }

  lemma CourseStation(g: View, src: Node, targets: seq<Node>, s: Trip)
    requires OnCourse(g, src, targets, s)
    ensures s.cur == Station(src, targets, |targets|)
  {
  }

  lemma NoShortestLegs(net: Net, src: Node)
    ensures ShortestLegs(net, src, [], [])
  {
  }

  // Leg after leg, whatever the cost hook and the sums it forms: every leg is a simple chain of links
  // from one station to the next, and the list carries every packet along the concatenated legs and
  // nowhere else if and only if every hop is good in the full graph.
  lemma TripIsExact(g: View, c: View, ops: Ops, src: Node, targets: seq<Node>)
    requires Sound(g) && Within(c, g) && src in c.nodes && InGraph(c, targets)
    requires Legs(g, c, ops, Trip([], [], src), targets).Some?
    ensures var trip := Legs(g, c, ops, Trip([], [], src), targets).value;
      && ChainedLegs(g, src, targets, trip.legs)
      && (Additive(c, ops) ==> ShortestLegs(NetOf(c, ops), src, targets, trip.legs))
      && (Exactly(NetOf(g, ByMetric), src, trip.segs, Walk(src, trip.legs)) <==> GoodLegs(NetOf(g, ByMetric), trip.legs))
  {
    hide Consistent, NoOverflow, NetOf, Legs, GoodLegs, ShortestLegs, ChainedLegs, Carries, InGraph, OnCourse, Additive;
    var trip := Legs(g, c, ops, Trip([], [], src), targets).value;
    LegsOnCourse(g, c, ops, src, targets);
    CourseIsExact(g, src, targets, trip);
    if Additive(c, ops) {
      LegsAreShortest(g, c, ops, src, targets);
    }
    if !GoodLegs(NetOf(g, ByMetric), trip.legs) {
      TripIsLost(g, c, ops, src, targets, [], Walk(src, trip.legs));
      assert trip.segs + [] == trip.segs;
    }
  }

  lemma ShortestLegsAreGood(g: View, src: Node, targets: seq<Node>, legs: seq<seq<Node>>)
    requires Consistent(g) && ShortestLegs(NetOf(g, ByMetric), src, targets, legs)
    ensures GoodLegs(NetOf(g, ByMetric), legs)
  {
    forall p | p in legs ensures GoodPath(NetOf(g, ByMetric), p) {
      var i :| 0 <= i < |legs| && legs[i] == p;
      ShortestIsGood(g, p);
    }
  }

  // Without pruning and by metric no condition is left.
  lemma PlainTripIsExact(g: View, src: Node, targets: seq<Node>)
    requires Sound(g) && src in g.nodes && InGraph(g, targets)
    requires Legs(g, g, ByMetric, Trip([], [], src), targets).Some?
    ensures var trip := Legs(g, g, ByMetric, Trip([], [], src), targets).value;
      Exactly(NetOf(g, ByMetric), src, trip.segs, Walk(src, trip.legs))
  {
    hide Consistent, NoOverflow, NetOf, Exactly, Legs, GoodLegs, ShortestLegs;
    TripIsExact(g, g, ByMetric, src, targets);
    ShortestLegsAreGood(g, src, targets, Legs(g, g, ByMetric, Trip([], [], src), targets).value.legs);
  }
}
