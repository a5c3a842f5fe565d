/**
 * Why the delay bound is promised of the first path only: the test looks at the delay of a
 * router's first path, so an equal-cost alternative can exceed the bound.
 */
module DelayAlternatives {
  import opened Basics
  import opened ShortestPaths
  import opened Graphs
  import opened Dijkstra
  import opened DijkstraProofs
  import opened DijkstraTheorems
  import opened SegmentTheorems
  import opened SegPaths
  import opened Bandwidth
  import opened DelayBound

  function Metric(view: View, u: Node, v: Node): u32 {
    if (u, v) in view.minEdges then view.minEdges[(u, v)].metric else INFINITE
  }

  function DelayOf(view: View, u: Node, v: Node): u32 {
    if (u, v) in view.minEdges then view.minEdges[(u, v)].delay else 0
  }

  // Router 3 is reached from 1 directly and, at the same cost, over router 2; both ways meet the
  // bound, but going on to router 4 only the first does.
  ghost predicate Fork(view: View, bound: u32) {
    && Consistent(view) && view.nodes == [1, 2, 3, 4]
    && view.neighs[1] == [2, 3] && view.neighs[2] == [3] && view.neighs[3] == [4] && view.neighs[4] == []
    && Metric(view, 1, 2) + Metric(view, 2, 3) == Metric(view, 1, 3)
    && Metric(view, 1, 3) + Metric(view, 3, 4) < INFINITE
    && DelayOf(view, 1, 2) + DelayOf(view, 2, 3) <= bound
    && DelayOf(view, 1, 3) + DelayOf(view, 3, 4) <= bound
    && bound < DelayOf(view, 1, 2) + DelayOf(view, 2, 3) + DelayOf(view, 3, 4)
  }

  ghost predicate HasLink(view: View, u: Node, v: Node) {
    (u, v) in view.minEdges && Connects(view.minEdges[(u, v)], u, v) && 0 < Metric(view, u, v) < INFINITE
  }

  lemma ForkLinks(view: View, bound: u32)
    requires Fork(view, bound)
    ensures HasLink(view, 1, 2) && HasLink(view, 1, 3) && HasLink(view, 2, 3) && HasLink(view, 3, 4)
    ensures Metric(view, 1, 2) + Metric(view, 2, 3) == Metric(view, 1, 3)
    ensures Metric(view, 1, 3) + Metric(view, 3, 4) < INFINITE
    ensures DelayOf(view, 1, 2) + DelayOf(view, 2, 3) <= bound
    ensures DelayOf(view, 1, 3) + DelayOf(view, 3, 4) <= bound
    ensures 1 in view.neighs && 2 in view.neighs && 3 in view.neighs && 4 in view.neighs
    ensures view.neighs[1] == [2, 3] && view.neighs[2] == [3] && view.neighs[3] == [4] && view.neighs[4] == []
  {
    assert 2 in view.neighs[1] && 3 in view.neighs[1] && 3 in view.neighs[2] && 4 in view.neighs[3];
  }

  // ------------------------------------------------------------ the run

  // The tables but for the recorded paths: what is known of nodes 2, 3 and 4.
  ghost predicate At(s: State, q: seq<Node>, done: seq<Node>, d2: int, d3: int, d4: int) {
    && s.q == q && s.done == done
    && 1 in s.dist && 2 in s.dist && 3 in s.dist && 4 in s.dist
    && s.dist[1] == 0 && s.dist[2] == d2 && s.dist[3] == d3 && s.dist[4] == d4
    && 1 in s.prev && 2 in s.prev && 3 in s.prev && 4 in s.prev && s.prev[1] == []
    && Lookup(s.delays, 1) == 0
  }

  ghost predicate Stage0(view: View, s: State) {
    At(s, [1, 2, 3, 4], [], INFINITE, INFINITE, INFINITE)
  }

  ghost predicate Stage1(view: View, s: State) {
    && At(s, [2, 3, 4], [1], Metric(view, 1, 2), Metric(view, 1, 3), INFINITE)
    && s.prev[2] == [1] && s.prev[3] == [1]
    && Lookup(s.delays, 2) == DelayOf(view, 1, 2) && Lookup(s.delays, 3) == DelayOf(view, 1, 3)
  }

  ghost predicate Stage2(view: View, s: State) {
    && At(s, [3, 4], [1, 2], Metric(view, 1, 2), Metric(view, 1, 3), INFINITE)
    && s.prev[2] == [1] && s.prev[3] == [1, 2]
    && Lookup(s.delays, 3) == DelayOf(view, 1, 3)
  }

  ghost predicate Stage3(view: View, s: State) {
    && At(s, [4], [1, 2, 3], Metric(view, 1, 2), Metric(view, 1, 3), Metric(view, 1, 3) + Metric(view, 3, 4))
    && s.prev[2] == [1] && s.prev[3] == [1, 2] && s.prev[4] == [3]
  }

  ghost predicate Stage4(s: State) {
    && s.q == [] && s.done == [1, 2, 3, 4]
    && 1 in s.prev && 2 in s.prev && 3 in s.prev && 4 in s.prev
    && s.prev[1] == [] && s.prev[2] == [1] && s.prev[3] == [1, 2] && s.prev[4] == [3]
  }

  lemma InitStage(view: View, bound: u32)
    requires Fork(view, bound)
    ensures Ok(view, Init(view, 1)) && Stage0(view, Init(view, 1))
  {
    InitOk(view, 1);
  }

  // The first queued node is the nearest.
  lemma FirstIsNext(view: View, ops: Ops, s: State)
    requires Ok(view, s) && s.q != [] && s.q[0] in s.dist && s.dist[s.q[0]] < INFINITE
    requires forall v | v in s.q && v != s.q[0] && v in s.dist :: s.dist[s.q[0]] < s.dist[v]
    ensures Run(view, ops, s) == Run(view, ops, Step(view, ops, s, 0))
  {
    hide Consistent, Tables, Step;
    PickInTable(view, s);
    assert s.q[0] in s.q;
    assert Pick(s.dist, s.q) == Some(0);
  }

  lemma SettleFirst(view: View, s: State)
    requires Ok(view, s) && s.q != []
    ensures var m := Settle(view, s, 0);
      && Ok(view, m) && m.q == s.q[1..] && m.done == s.done + [s.q[0]]
      && m.dist == s.dist && m.prev == s.prev && m.delays == s.delays
  {
    hide Consistent, Tables, AllPaths;
    SettleOk(view, s, 0);
    assert s.q[..0] + s.q[1..] == s.q[1..];
  }

  lemma RelaxNone(view: View, ops: Ops, s: State, u: Node)
    requires Ok(view, s) && u in s.done && u in view.neighs && view.neighs[u] == []
    ensures RelaxAll(view, ops, u, s, view.neighs[u]) == s
  {
  }

  lemma InTables(view: View, s: State, u: Node, v: Node)
    requires Ok(view, s) && u in s.done && v in s.q
    ensures u in s.dist && v in s.dist && v in s.prev
  {
    assert u in view.nodes && v in view.nodes;
  }

  lemma RelaxLast(view: View, ops: Ops, s: State, u: Node, vs: seq<Node>, v: Node)
    requires Ok(view, s) && u in s.done && u in view.neighs && v in s.q && (u, v) in view.minEdges
    requires (forall x | x in vs :: x in view.neighs[u]) && v in view.neighs[u]
    ensures forall x | x in vs + [v] :: x in view.neighs[u]
    ensures var a := RelaxAll(view, ops, u, s, vs);
      && u in a.dist && v in a.dist && v in a.prev
      && RelaxAll(view, ops, u, s, vs + [v]) == TryEdge(ops, u, a, v, view.minEdges[(u, v)])
  {
    hide Ok, TryEdge;
    var a := RelaxAll(view, ops, u, s, vs);
    InTables(view, a, u, v);
    assert (vs + [v])[..|vs|] == vs && Last(vs + [v]) == v;
  }

  lemma RelaxOne(view: View, ops: Ops, s: State, u: Node, v: Node)
    requires Ok(view, s) && u in s.done && u in view.neighs && view.neighs[u] == [v] && v in s.q && (u, v) in view.minEdges
    ensures u in s.dist && v in s.dist && v in s.prev
    ensures RelaxAll(view, ops, u, s, view.neighs[u]) == TryEdge(ops, u, s, v, view.minEdges[(u, v)])
  {
    hide Ok, TryEdge;
    InTables(view, s, u, v);
    RelaxLast(view, ops, s, u, [], v);
    assert [] + [v] == [v] && RelaxAll(view, ops, u, s, []) == s;
  }

  lemma RelaxTwo(view: View, ops: Ops, s: State, u: Node, v: Node, w: Node) returns (a: State)
    requires Ok(view, s) && u in s.done && u in view.neighs && view.neighs[u] == [v, w]
    requires v in s.q && w in s.q && (u, v) in view.minEdges && (u, w) in view.minEdges
    ensures u in s.dist && v in s.dist && v in s.prev && a == TryEdge(ops, u, s, v, view.minEdges[(u, v)])
    ensures u in a.dist && w in a.dist && w in a.prev
    ensures RelaxAll(view, ops, u, s, view.neighs[u]) == TryEdge(ops, u, a, w, view.minEdges[(u, w)])
  {
    hide Ok, TryEdge;
    InTables(view, s, u, v);
    RelaxLast(view, ops, s, u, [], v);
    assert [] + [v] == [v] && RelaxAll(view, ops, u, s, []) == s;
    a := RelaxAll(view, ops, u, s, [v]);
    assert [v] + [w] == [v, w];
    RelaxLast(view, ops, s, u, [v], w);
  }

  // An edge that passes the delay test offers the sum of the metrics.
  lemma AltIsMetric(view: View, bound: u32, s: State, u: Node, v: Node)
    requires HasLink(view, u, v) && u in s.dist
    requires Lookup(s.delays, u) + DelayOf(view, u, v) <= bound && s.dist[u] + Metric(view, u, v) < INFINITE
    ensures Alt(DelayBelow(bound), s.dist[u], view.minEdges[(u, v)], s.delays) == s.dist[u] + Metric(view, u, v)
  {
  }

  lemma Improves(view: View, bound: u32, s: State, u: Node, v: Node)
    requires HasLink(view, u, v) && u in s.dist && v in s.dist && v in s.prev
    requires Lookup(s.delays, u) + DelayOf(view, u, v) <= bound && s.dist[u] + Metric(view, u, v) < s.dist[v]
    ensures TryEdge(DelayBelow(bound), u, s, v, view.minEdges[(u, v)]) ==
            s.(prev := s.prev[v := [u]], dist := s.dist[v := s.dist[u] + Metric(view, u, v)],
               delays := s.delays[v := Lookup(s.delays, u) + DelayOf(view, u, v)])
  {
    hide Alt;
    AltIsMetric(view, bound, s, u, v);
  }

  lemma Ties(view: View, bound: u32, s: State, u: Node, v: Node)
    requires HasLink(view, u, v) && u in s.dist && v in s.dist && v in s.prev
    requires Lookup(s.delays, u) + DelayOf(view, u, v) <= bound && s.dist[u] + Metric(view, u, v) == s.dist[v] < INFINITE
    ensures TryEdge(DelayBelow(bound), u, s, v, view.minEdges[(u, v)]) == s.(prev := s.prev[v := s.prev[v] + [u]])
  {
    hide Alt;
    AltIsMetric(view, bound, s, u, v);
  }

  lemma Step1(view: View, bound: u32, s: State)
    requires Fork(view, bound) && Ok(view, s) && Stage0(view, s)
    ensures Stage1(view, Step(view, DelayBelow(bound), s, 0))
  {
    hide Fork, Ok, TryEdge, Settle, RelaxAll, Metric, DelayOf;
    ForkLinks(view, bound);
    SettleFirst(view, s);
    var m, ops := Settle(view, s, 0), DelayBelow(bound);
    assert s.q[1..] == [2, 3, 4] && s.done + [1] == [1];
    var a := RelaxTwo(view, ops, m, 1, 2, 3);
    Improves(view, bound, m, 1, 2);
    Improves(view, bound, a, 1, 3);
  }

  lemma Step2(view: View, bound: u32, s: State)
    requires Fork(view, bound) && Ok(view, s) && Stage1(view, s)
    ensures Stage2(view, Step(view, DelayBelow(bound), s, 0))
  {
    hide Fork, Ok, TryEdge, Settle, RelaxAll, Metric, DelayOf;
    ForkLinks(view, bound);
    SettleFirst(view, s);
    var m := Settle(view, s, 0);
    assert s.q[1..] == [3, 4] && s.done + [2] == [1, 2];
    RelaxOne(view, DelayBelow(bound), m, 2, 3);
    Ties(view, bound, m, 2, 3);
    assert [1] + [2] == [1, 2];
  }

  lemma Step3(view: View, bound: u32, s: State)
    requires Fork(view, bound) && Ok(view, s) && Stage2(view, s)
    ensures Stage3(view, Step(view, DelayBelow(bound), s, 0))
  {
    hide Fork, Ok, TryEdge, Settle, RelaxAll, Metric, DelayOf;
    ForkLinks(view, bound);
    SettleFirst(view, s);
    var m := Settle(view, s, 0);
    assert s.q[1..] == [4] && s.done + [3] == [1, 2, 3];
    RelaxOne(view, DelayBelow(bound), m, 3, 4);
    Improves(view, bound, m, 3, 4);
  }

  lemma Step4(view: View, bound: u32, s: State)
    requires Fork(view, bound) && Ok(view, s) && Stage3(view, s)
    ensures Stage4(Step(view, DelayBelow(bound), s, 0))
  {
    hide Fork, Ok, Settle, RelaxAll, Metric, DelayOf, HasLink, Lookup, Last;
    ForkLinks(view, bound);
    SettleFirst(view, s);
    assert s.q[1..] == [] && s.done + [4] == [1, 2, 3, 4];
    RelaxNone(view, DelayBelow(bound), Settle(view, s, 0), 4);
  }

  // At each stage the first queued node is nearer than the others.
  lemma StageNext(view: View, bound: u32, s: State)
    requires Fork(view, bound) && Ok(view, s)
    requires Stage0(view, s) || Stage1(view, s) || Stage2(view, s) || Stage3(view, s)
    ensures s.q != [] && Run(view, DelayBelow(bound), s) == Run(view, DelayBelow(bound), Step(view, DelayBelow(bound), s, 0))
  {
    hide Fork, Ok, Run, Step, Metric, DelayOf, HasLink;
    ForkLinks(view, bound);
    FirstIsNext(view, DelayBelow(bound), s);
  }

  lemma ForkRun(view: View, bound: u32)
    requires Fork(view, bound)
    ensures Ok(view, Init(view, 1)) && Stage4(Run(view, DelayBelow(bound), Init(view, 1)))
  {
    hide *;
    var ops, s0 := DelayBelow(bound), Init(view, 1);
    InitStage(view, bound);
    StageNext(view, bound, s0);
    Step1(view, bound, s0);
    var s1 := Step(view, ops, s0, 0);
    StageNext(view, bound, s1);
    Step2(view, bound, s1);
    var s2 := Step(view, ops, s1, 0);
    StageNext(view, bound, s2);
    Step3(view, bound, s2);
    var s3 := Step(view, ops, s2, 0);
    StageNext(view, bound, s3);
    Step4(view, bound, s3);
    RunEnds(view, ops, Step(view, ops, s3, 0));
  }

  lemma RunEnds(view: View, ops: Ops, s: State)
    requires Ok(view, s) && Stage4(s)
    ensures Run(view, ops, s) == s
  {
  }

  // ------------------------------------------------------------ the list over router 2

  lemma ListOver2(prev: map<Node, seq<Node>>, done: seq<Node>)
    requires Layered(prev, done) && done == [1, 2, 3, 4]
    requires 1 in prev && 2 in prev && 3 in prev && 4 in prev
    requires prev[1] == [] && prev[2] == [1] && prev[3] == [1, 2] && prev[4] == [3]
    ensures 4 in done && [4, 3, 2] in AllPaths(prev, done, 4)
  {
    hide AllPaths, Layered;
    assert 1 in done && 2 in done && 3 in done && 4 in done;
    RootPaths(prev, done, 1);
    assert [2][1..] == [] && [3, 2][1..] == [2] && [4, 3, 2][1..] == [3, 2];
    Over(prev, done, 2, 1, [2]);
    Over(prev, done, 3, 2, [3, 2]);
    Over(prev, done, 4, 3, [4, 3, 2]);
  }

  lemma RootPaths(prev: map<Node, seq<Node>>, done: seq<Node>, u: Node)
    requires Layered(prev, done) && u in done && prev[u] == []
    ensures [] in AllPaths(prev, done, u)
  {
  }

  lemma Over(prev: map<Node, seq<Node>>, done: seq<Node>, u: Node, w: Node, l: seq<Node>)
    requires Layered(prev, done) && u in done && w in prev[u] && w in done && l != [] && l[0] == u && l[1..] in AllPaths(prev, done, w)
    ensures l in AllPaths(prev, done, u)
  {
    ThroughMember(prev, done, u, prev[u], l);
  }

  // The path over router 2 is among those listed for router 4, and its delay exceeds the bound.
  lemma AlternativeExceedsBound(view: View, bound: u32)
    requires Fork(view, bound)
    ensures var r := Result(view, DelayBelow(bound), 1);
      && 4 in r.path && [4, 3, 2] in r.path[4] && Forward(1, [4, 3, 2]) == [1, 2, 3, 4]
      && Linked(view, [1, 2, 3, 4]) && Delay(view, [1, 2, 3, 4]) > bound
  {
    hide Consistent, Init, Run, Delay, Linked, Forward;
    ForkRun(view, bound);
    ForkDelay(view, bound);
    ForwardFork();
    InitRecords(view, 1);
    RunRecords(view, DelayBelow(bound), Init(view, 1));
    var s := Run(view, DelayBelow(bound), Init(view, 1));
    ListOver2(s.prev, s.done);
  }

  lemma ForwardFork()
    ensures Forward(1, [4, 3, 2]) == [1, 2, 3, 4]
  {
    ForwardExtends(1, [4, 3, 2]);
    ForwardExtends(1, [3, 2]);
    ForwardExtends(1, [2]);
    assert [4, 3, 2][1..] == [3, 2] && [3, 2][1..] == [2] && [2][1..] == [] && Forward(1, []) == [1];
  }

  lemma ForkDelay(view: View, bound: u32)
    requires Fork(view, bound)
    ensures Linked(view, [1, 2, 3, 4]) && Delay(view, [1, 2, 3, 4]) > bound
  {
    hide Consistent, Linked, Delay;
    ForkLinks(view, bound);
    assert Linked(view, [1]) && Delay(view, [1]) == 0 by { StartDelay(view, 1); }
    LinkedExtends(view, [1], 2);
    LinkedExtends(view, [1, 2], 3);
    LinkedExtends(view, [1, 2, 3], 4);
    assert [1] + [2] == [1, 2] && [1, 2] + [3] == [1, 2, 3] && [1, 2, 3] + [4] == [1, 2, 3, 4];
  }

  lemma StartDelay(view: View, x: Node)
    ensures Linked(view, [x]) && Delay(view, [x]) == 0
  {
  }

  // ------------------------------------------------------------ a path that is missed

  // Router 3 is reached from 1 at less cost directly than over router 2, but so late that going on to
  // router 4 exceeds the bound; over router 2 it does not.
  ghost predicate Slow(view: View, bound: u32) {
    && Consistent(view) && view.nodes == [1, 2, 3, 4]
    && view.neighs[1] == [2, 3] && view.neighs[2] == [3] && view.neighs[3] == [4] && view.neighs[4] == []
    && Metric(view, 1, 2) < Metric(view, 1, 3) < Metric(view, 1, 2) + Metric(view, 2, 3) < INFINITE
    && DelayOf(view, 1, 2) + DelayOf(view, 2, 3) + DelayOf(view, 3, 4) <= bound
    && DelayOf(view, 1, 3) <= bound < DelayOf(view, 1, 3) + DelayOf(view, 3, 4) <= INFINITE
  }

  lemma SlowLinks(view: View, bound: u32)
    requires Slow(view, bound)
    ensures HasLink(view, 1, 2) && HasLink(view, 1, 3) && HasLink(view, 2, 3) && HasLink(view, 3, 4)
    ensures Metric(view, 1, 2) < Metric(view, 1, 3) < Metric(view, 1, 2) + Metric(view, 2, 3) < INFINITE
    ensures DelayOf(view, 1, 2) + DelayOf(view, 2, 3) + DelayOf(view, 3, 4) <= bound
    ensures DelayOf(view, 1, 3) <= bound < DelayOf(view, 1, 3) + DelayOf(view, 3, 4) <= INFINITE
    ensures 1 in view.neighs && 2 in view.neighs && 3 in view.neighs && 4 in view.neighs
    ensures view.neighs[1] == [2, 3] && view.neighs[2] == [3] && view.neighs[3] == [4] && view.neighs[4] == []
  {
    assert 2 in view.neighs[1] && 3 in view.neighs[1] && 3 in view.neighs[2] && 4 in view.neighs[3];
  }

  ghost predicate Slow2(view: View, s: State) {
    && At(s, [3, 4], [1, 2], Metric(view, 1, 2), Metric(view, 1, 3), INFINITE)
    && Lookup(s.delays, 3) == DelayOf(view, 1, 3)
  }

  ghost predicate Slow3(s: State) {
    s.q == [4] && 4 in s.dist && s.dist[4] == INFINITE && 4 !in s.done
  }

  lemma SlowStep1(view: View, bound: u32, s: State)
    requires Slow(view, bound) && Ok(view, s) && Stage0(view, s)
    ensures Stage1(view, Step(view, DelayBelow(bound), s, 0))
  {
    hide Slow, Ok, TryEdge, Settle, RelaxAll, Metric, DelayOf;
    SlowLinks(view, bound);
    SettleFirst(view, s);
    var m, ops := Settle(view, s, 0), DelayBelow(bound);
    assert s.q[1..] == [2, 3, 4] && s.done + [1] == [1];
    var a := RelaxTwo(view, ops, m, 1, 2, 3);
    Improves(view, bound, m, 1, 2);
    Improves(view, bound, a, 1, 3);
  }

  lemma Dearer(view: View, bound: u32, s: State, u: Node, v: Node)
    requires HasLink(view, u, v) && u in s.dist && v in s.dist && v in s.prev
    requires Lookup(s.delays, u) + DelayOf(view, u, v) <= bound && s.dist[v] < s.dist[u] + Metric(view, u, v) < INFINITE
    ensures TryEdge(DelayBelow(bound), u, s, v, view.minEdges[(u, v)]) == s
  {
    hide Alt;
    AltIsMetric(view, bound, s, u, v);
  }

  lemma TooLate(view: View, bound: u32, s: State, u: Node, v: Node)
    requires HasLink(view, u, v) && u in s.dist && v in s.dist && v in s.prev && s.dist[v] == INFINITE
    requires bound < Lookup(s.delays, u) + DelayOf(view, u, v) <= INFINITE
    ensures var t := TryEdge(DelayBelow(bound), u, s, v, view.minEdges[(u, v)]); t.dist == s.dist && t.q == s.q && t.done == s.done
  {
  }

  lemma SlowStep2(view: View, bound: u32, s: State)
    requires Slow(view, bound) && Ok(view, s) && Stage1(view, s)
    ensures Slow2(view, Step(view, DelayBelow(bound), s, 0))
  {
    hide Slow, Ok, TryEdge, Settle, RelaxAll, Metric, DelayOf;
    SlowLinks(view, bound);
    SettleFirst(view, s);
    var m := Settle(view, s, 0);
    assert s.q[1..] == [3, 4] && s.done + [2] == [1, 2];
    RelaxOne(view, DelayBelow(bound), m, 2, 3);
    Dearer(view, bound, m, 2, 3);
  }

  lemma SlowStep3(view: View, bound: u32, s: State)
    requires Slow(view, bound) && Ok(view, s) && Slow2(view, s)
    ensures Slow3(Step(view, DelayBelow(bound), s, 0))
  {
    hide Slow, Ok, TryEdge, Settle, RelaxAll, Metric, DelayOf;
    SlowLinks(view, bound);
    SettleFirst(view, s);
    var m := Settle(view, s, 0);
    assert s.q[1..] == [4] && s.done + [3] == [1, 2, 3];
    RelaxOne(view, DelayBelow(bound), m, 3, 4);
    TooLate(view, bound, m, 3, 4);
  }

  lemma SlowNext(view: View, bound: u32, s: State)
    requires Slow(view, bound) && Ok(view, s) && (Stage0(view, s) || Stage1(view, s) || Slow2(view, s))
    ensures s.q != [] && Run(view, DelayBelow(bound), s) == Run(view, DelayBelow(bound), Step(view, DelayBelow(bound), s, 0))
  {
    hide Slow, Ok, Run, Step, Metric, DelayOf, HasLink;
    SlowLinks(view, bound);
    FirstIsNext(view, DelayBelow(bound), s);
  }

  lemma SlowStart(view: View, bound: u32)
    requires Slow(view, bound)
    ensures Ok(view, Init(view, 1)) && Stage0(view, Init(view, 1))
  {
    InitOk(view, 1);
  }

  lemma NoneLeft(view: View, ops: Ops, s: State)
    requires Ok(view, s) && Slow3(s)
    ensures Run(view, ops, s) == s
  {
    hide Consistent, Layered, PrevSettled, Partition;
    PickInTable(view, s);
    var r := Pick(s.dist, s.q);
    assert forall i | 0 <= i < |s.q| :: s.q[i] == 4;
  }

  lemma SlowRun(view: View, bound: u32)
    requires Slow(view, bound)
    ensures Ok(view, Init(view, 1)) && Slow3(Run(view, DelayBelow(bound), Init(view, 1)))
  {
    hide *;
    var ops, s0 := DelayBelow(bound), Init(view, 1);
    SlowStart(view, bound);
    SlowNext(view, bound, s0);
    SlowStep1(view, bound, s0);
    var s1 := Step(view, ops, s0, 0);
    SlowNext(view, bound, s1);
    SlowStep2(view, bound, s1);
    var s2 := Step(view, ops, s1, 0);
    SlowNext(view, bound, s2);
    SlowStep3(view, bound, s2);
    NoneLeft(view, ops, Step(view, ops, s2, 0));
  }

  lemma SlowDelay(view: View, bound: u32)
    requires Slow(view, bound)
    ensures Linked(view, [1, 2, 3, 4]) && Delay(view, [1, 2, 3, 4]) <= bound
  {
    hide Consistent, Linked, Delay;
    SlowLinks(view, bound);
    StartDelay(view, 1);
    LinkedExtends(view, [1], 2);
    LinkedExtends(view, [1, 2], 3);
    LinkedExtends(view, [1, 2, 3], 4);
    assert [1] + [2] == [1, 2] && [1, 2] + [3] == [1, 2, 3] && [1, 2, 3] + [4] == [1, 2, 3, 4];
  }

  // No path is found to router 4, though one is within the bound.
  lemma BoundMissesPath(view: View, bound: u32)
    requires Slow(view, bound)
    ensures 4 in view.nodes && FirstPath(view, DelayBelow(bound), 1, 4).None?
    ensures Linked(view, [1, 2, 3, 4]) && Delay(view, [1, 2, 3, 4]) <= bound
  {
    hide Consistent, Init, Run, Delay, Linked, Slow3;
    SlowRun(view, bound);
    SlowDelay(view, bound);
    InitRecords(view, 1);
    RunRecords(view, DelayBelow(bound), Init(view, 1));
    NotRecorded(view, Run(view, DelayBelow(bound), Init(view, 1)));
  }

  lemma NotRecorded(view: View, s: State)
    requires Ok(view, s) && Recorded(s) && Slow3(s)
    ensures 4 in s.path && s.path[4] == []
  {
    assert 4 in view.nodes;
  }

  // ------------------------------------------------------------ a graph like that

  lemma NeighboursNext(edges: seq<Edge>, e: Edge, u: Node)
    ensures var r := Neighbours(edges, u);
      Neighbours(edges + [e], u) == if e.local == u && e.metric != INFINITE && e.remote !in r then r + [e.remote] else r
  {
    assert (edges + [e])[..|edges|] == edges && Last(edges + [e]) == e;
  }

  lemma FourNeighbours(a: Edge, b: Edge, c: Edge, d: Edge)
    requires Connects(a, 1, 2) && Connects(b, 1, 3) && Connects(c, 2, 3) && Connects(d, 3, 4)
    requires a.metric != INFINITE && b.metric != INFINITE && c.metric != INFINITE && d.metric != INFINITE
    ensures var es := [a, b, c, d];
      Neighbours(es, 1) == [2, 3] && Neighbours(es, 2) == [3] && Neighbours(es, 3) == [4] && Neighbours(es, 4) == []
  {
    assert [] + [a] == [a] && [a] + [b] == [a, b] && [a, b] + [c] == [a, b, c] && [a, b, c] + [d] == [a, b, c, d];
    forall u
      ensures Neighbours([a, b, c, d], u) == if u == 1 then [2, 3] else if u == 2 then [3] else if u == 3 then [4] else []
    {
      assert Neighbours([], u) == [];
      hide Neighbours;
      NeighboursNext([], a, u);
      NeighboursNext([a], b, u);
      NeighboursNext([a, b], c, u);
      NeighboursNext([a, b, c], d, u);
    }
  }

  // Four links with such metrics and delays make such a graph.
  lemma ForkGraph(a: Edge, b: Edge, c: Edge, d: Edge, bound: u32)
    requires Connects(a, 1, 2) && Connects(b, 1, 3) && Connects(c, 2, 3) && Connects(d, 3, 4)
    requires a.metric > 0 && c.metric > 0 && d.metric > 0 && a.metric + c.metric == b.metric && b.metric + d.metric < INFINITE
    requires a.delay + c.delay <= bound && b.delay + d.delay <= bound < a.delay + c.delay + d.delay
    ensures Fork(ViewOf([1, 2, 3, 4], [a, b, c, d]), bound)
  {
    hide Consistent, Topology, OneLink, ViewOf, Neighbours, Metric, DelayOf;
    var nodes, edges := [1, 2, 3, 4], [a, b, c, d];
    FourLinks(a, b, c, d);
    FourNeighbours(a, b, c, d);
    FinalizedIsConsistent(nodes, edges);
    LinkValues(nodes, edges, a);
    LinkValues(nodes, edges, b);
    LinkValues(nodes, edges, c);
    LinkValues(nodes, edges, d);
    ViewLists(nodes, edges);
  }

  lemma ViewLists(nodes: seq<Node>, edges: seq<Edge>)
    ensures var view := ViewOf(nodes, edges);
      view.nodes == nodes && forall u | u in nodes :: u in view.neighs && view.neighs[u] == Neighbours(edges, u)
  {
  }

  lemma FourLinks(a: Edge, b: Edge, c: Edge, d: Edge)
    requires Connects(a, 1, 2) && Connects(b, 1, 3) && Connects(c, 2, 3) && Connects(d, 3, 4)
    requires a.metric > 0 && b.metric > 0 && c.metric > 0 && d.metric > 0
    ensures var es := [a, b, c, d];
      Topology([1, 2, 3, 4], es) && OneLink(es) && a in es && b in es && c in es && d in es
  {
  }

  // What the view says of a link of the graph.
  lemma LinkValues(nodes: seq<Node>, edges: seq<Edge>, e: Edge)
    requires Topology(nodes, edges) && OneLink(edges) && e in edges && e.metric != INFINITE && e.local != e.remote
    ensures var view := ViewOf(nodes, edges);
      Metric(view, e.local, e.remote) == e.metric && DelayOf(view, e.local, e.remote) == e.delay
  {
    OnlyEdgeIsMinEdge(edges, e);
  }

  // Four links with such metrics and delays make such a graph.
  lemma SlowGraph(a: Edge, b: Edge, c: Edge, d: Edge, bound: u32)
    requires Connects(a, 1, 2) && Connects(b, 1, 3) && Connects(c, 2, 3) && Connects(d, 3, 4)
    requires 0 < a.metric < b.metric < a.metric + c.metric < INFINITE && 0 < d.metric < INFINITE
    requires a.delay + c.delay + d.delay <= bound && b.delay <= bound < b.delay + d.delay <= INFINITE
    ensures Slow(ViewOf([1, 2, 3, 4], [a, b, c, d]), bound)
  {
    hide Consistent, Topology, OneLink, ViewOf, Neighbours, Metric, DelayOf;
    var nodes, edges := [1, 2, 3, 4], [a, b, c, d];
    FourLinks(a, b, c, d);
    FourNeighbours(a, b, c, d);
    FinalizedIsConsistent(nodes, edges);
    LinkValues(nodes, edges, a);
    LinkValues(nodes, edges, b);
    LinkValues(nodes, edges, c);
    LinkValues(nodes, edges, d);
    ViewLists(nodes, edges);
  }
}
