/**
 * The delay-bounded cost hook: the path that build_segpath picks respects the bound.
 */
module DelayBound {
  import opened Basics
  import opened ShortestPaths
  import opened Graphs
  import opened Dijkstra
  import opened DijkstraProofs
  import opened DijkstraTheorems
  import opened Segments
  import opened SegmentTheorems
  import opened SegPaths

  // The delay of a path, hop by hop over the cheapest edges.
  ghost function Delay(view: View, p: seq<Node>): nat
    requires Linked(view, p)
  {
    if |p| <= 1 then 0
    else Delay(view, p[..|p| - 1]) + view.minEdges[(p[|p| - 2], p[|p| - 1])].delay
  }

  // No delay sum the run forms wraps around.
  ghost predicate NoDelayWrap(view: View, bound: u32) {
    forall l | l in view.minEdges :: bound + view.minEdges[l].delay < 0x1_0000_0000
  }

  // The link from w to v passed the test with w's recorded delay.
  ghost predicate Passed(view: View, bound: u32, s: State, w: Node, v: Node) {
    w in s.done && (w, v) in view.minEdges && Lookup(s.delays, w) + view.minEdges[(w, v)].delay <= bound
  }

  // v's recorded delay is that of its first predecessor plus the link between them, and the links
  // from all its predecessors passed the test.
  ghost predicate Led(view: View, bound: u32, s: State, v: Node) {
    && v in s.prev && s.prev[v] != [] && v in s.delays
    && var f := s.prev[v][0];
    && f in s.done && (f, v) in view.minEdges
    && s.delays[v] == Lookup(s.delays, f) + view.minEdges[(f, v)].delay <= bound
    && forall w | w in s.prev[v] :: Passed(view, bound, s, w, v)
  }

  ghost predicate DelayInv(view: View, bound: u32, src: Node, s: State) {
    && src in s.dist && s.dist[src] == 0 && src in s.prev && s.prev[src] == []
    && Lookup(s.delays, src) == 0
    && (src in s.q ==> s.done == [])
    && (forall v | v in s.done :: v in s.dist && s.dist[v] < INFINITE)
    && (forall v | v in s.dist && v != src && s.dist[v] < INFINITE :: Led(view, bound, s, v))
  }

  lemma DelayInit(view: View, bound: u32, src: Node)
    requires Consistent(view) && src in view.nodes
    ensures DelayInv(view, bound, src, Init(view, src))
  {
  }

  lemma DelaySettle(view: View, bound: u32, src: Node, s: State, i: nat)
    requires Ok(view, s) && DelayInv(view, bound, src, s) && i < |s.q|
    requires s.dist[s.q[i]] < INFINITE
    ensures DelayInv(view, bound, src, Settle(view, s, i))
  {
    hide Consistent, AllPaths, Layered, Led;
    var u, t := s.q[i], Settle(view, s, i);
    RemoveFromQueue(view.nodes, s.q, s.done, i);
    FirstIsSource(view, bound, src, s, u);
    forall v | v in t.dist && v != src && t.dist[v] < INFINITE
      ensures Led(view, bound, t, v)
    {
      LedSettled(view, bound, s, t, v);
    }
  }

  // More settled nodes, everything else as before.
  lemma LedSettled(view: View, bound: u32, s: State, t: State, v: Node)
    requires Led(view, bound, s, v) && t.prev == s.prev && t.delays == s.delays && forall x | x in s.done :: x in t.done
    ensures Led(view, bound, t, v)
  {
    assert forall w | w in s.prev[v] :: Passed(view, bound, s, w, v) && Passed(view, bound, t, w, v);
  }

  lemma DoneIsLed(view: View, bound: u32, src: Node, s: State, v: Node)
    requires DelayInv(view, bound, src, s) && v in s.done
    ensures v != src ==> Led(view, bound, s, v)
  {
    hide Led;
  }

  lemma FirstIsSource(view: View, bound: u32, src: Node, s: State, u: Node)
    requires DelayInv(view, bound, src, s) && u in s.dist && s.dist[u] < INFINITE
    ensures src in s.q ==> u == src
  {
    if u != src {
      assert Led(view, bound, s, u);
    }
  }

  lemma WithinBound(view: View, bound: u32, src: Node, s: State, u: Node)
    requires DelayInv(view, bound, src, s) && u in s.done
    ensures Lookup(s.delays, u) <= bound
  {
    if u != src {
      assert Led(view, bound, s, u);
    }
  }

  // Either v's entries only gain a predecessor at the end, if v has a distance over an edge that
  // passed the delay test, or they are rewritten by such an edge.
  ghost predicate Appended(s: State, t: State, bound: u32, u: Node, v: Node, d: nat)
    requires v in s.prev && v in s.dist
  {
    && t.dist == s.dist && t.delays == s.delays
    && (t.prev == s.prev
        || (t.prev == s.prev[v := s.prev[v] + [u]] && (s.dist[v] < INFINITE ==> Wrap32(Lookup(s.delays, u) + d) <= bound)))
  }

  ghost predicate Rewritten(s: State, t: State, bound: u32, u: Node, v: Node, d: nat) {
    && t.prev == s.prev[v := [u]] && t.delays == s.delays[v := Wrap32(Lookup(s.delays, u) + d)]
    && t.dist.Keys == s.dist.Keys + {v} && (forall x | x in s.dist && x != v :: t.dist[x] == s.dist[x])
    && Wrap32(Lookup(s.delays, u) + d) <= bound
  }

  lemma TryEdgeEffect(bound: u32, s: State, u: Node, v: Node, e: Edge)
    requires u in s.dist && v in s.dist && v in s.prev && Connects(e, u, v)
    ensures var t := TryEdge(DelayBelow(bound), u, s, v, e);
      && t.q == s.q && t.done == s.done
      && (Appended(s, t, bound, u, v, e.delay) || Rewritten(s, t, bound, u, v, e.delay))
  {
  }

  lemma AppendKeepsDelays(view: View, bound: u32, src: Node, s: State, t: State, u: Node, v: Node)
    requires DelayInv(view, bound, src, s) && NoDelayWrap(view, bound) && v in s.prev && v in s.dist && v != src
    requires u in s.done && (u, v) in view.minEdges
    requires t.q == s.q && t.done == s.done && Appended(s, t, bound, u, v, view.minEdges[(u, v)].delay)
    ensures DelayInv(view, bound, src, t)
  {
    hide Led, NoDelayWrap;
    WithinBound(view, bound, src, s, u);
    forall x | x in t.dist && x != src && t.dist[x] < INFINITE
      ensures Led(view, bound, t, x)
    {
      LedAppended(view, bound, s, t, u, v, x);
    }
  }

  lemma LedAppended(view: View, bound: u32, s: State, t: State, u: Node, v: Node, x: Node)
    requires NoDelayWrap(view, bound) && Led(view, bound, s, x) && x in s.dist && s.dist[x] < INFINITE
    requires v in s.prev && v in s.dist && u in s.done && (u, v) in view.minEdges && Lookup(s.delays, u) <= bound
    requires t.done == s.done && Appended(s, t, bound, u, v, view.minEdges[(u, v)].delay)
    ensures Led(view, bound, t, x)
  {
    assert forall w | w in s.prev[x] :: Passed(view, bound, s, w, x) && Passed(view, bound, t, w, x);
    if x == v && t.prev != s.prev {
      assert Passed(view, bound, t, u, v);
      assert t.prev[v][0] == s.prev[v][0];
    }
  }

  // A rewrite of v leaves the others led by the same settled predecessor.
  lemma LedElsewhere(view: View, bound: u32, s: State, t: State, u: Node, v: Node, d: u32, x: Node)
    requires Led(view, bound, s, x) && x != v && v !in s.done && t.done == s.done
    requires t.prev == s.prev[v := [u]] && t.delays == s.delays[v := d]
    ensures Led(view, bound, t, x)
  {
    assert forall w | w in s.prev[x] :: Passed(view, bound, s, w, x) && w != v && Passed(view, bound, t, w, x);
  }

  lemma LedHere(view: View, bound: u32, s: State, t: State, u: Node, v: Node)
    requires NoDelayWrap(view, bound) && u in s.done && u != v && (u, v) in view.minEdges && t.done == s.done
    requires Lookup(s.delays, u) <= bound && Rewritten(s, t, bound, u, v, view.minEdges[(u, v)].delay)
    ensures Led(view, bound, t, v)
  {
    assert Passed(view, bound, t, u, v);
  }

  lemma RewriteKeepsDelays(view: View, bound: u32, src: Node, s: State, t: State, u: Node, v: Node)
    requires DelayInv(view, bound, src, s) && NoDelayWrap(view, bound) && v in s.prev && v != src
    requires u in s.done && v !in s.done && (u, v) in view.minEdges && v in s.dist
    requires t.q == s.q && t.done == s.done
    requires Rewritten(s, t, bound, u, v, view.minEdges[(u, v)].delay)
    ensures DelayInv(view, bound, src, t)
  {
    hide Led, NoDelayWrap;
    WithinBound(view, bound, src, s, u);
    LedHere(view, bound, s, t, u, v);
    forall x | x in t.dist && x != src && t.dist[x] < INFINITE
      ensures Led(view, bound, t, x)
    {
      if x != v {
        LedElsewhere(view, bound, s, t, u, v, t.delays[v], x);
      }
    }
  }

  lemma DelayTryEdge(view: View, bound: u32, src: Node, s: State, u: Node, v: Node)
    requires Tables(view.nodes, s) && DelayInv(view, bound, src, s) && NoDelayWrap(view, bound)
    requires u in s.done && v in s.q && (u, v) in view.minEdges
    requires Connects(view.minEdges[(u, v)], u, v)
    ensures DelayInv(view, bound, src, TryEdge(DelayBelow(bound), u, s, v, view.minEdges[(u, v)]))
  {
    var e := view.minEdges[(u, v)];
    var t := TryEdge(DelayBelow(bound), u, s, v, e);
    assert v != src && v !in s.done && v in view.nodes && u in view.nodes;
    hide DelayInv, NoDelayWrap, TryEdge, Appended, Rewritten, Layered, PrevSettled;
    TryEdgeEffect(bound, s, u, v, e);
    if Appended(s, t, bound, u, v, e.delay) {
      AppendKeepsDelays(view, bound, src, s, t, u, v);
    } else {
      RewriteKeepsDelays(view, bound, src, s, t, u, v);
    }
  }

  lemma DelayRelax(view: View, bound: u32, src: Node, s: State, u: Node, v: Node)
    requires Ok(view, s) && DelayInv(view, bound, src, s) && NoDelayWrap(view, bound)
    requires u in s.done && u in view.nodes && v in view.neighs[u]
    requires v in view.nodes && (v in s.q ==> (u, v) in view.minEdges)
    ensures DelayInv(view, bound, src, Relax(view, DelayBelow(bound), u, s, v))
  {
    if v in s.q {
      assert Connects(view.minEdges[(u, v)], u, v);
      DelayTryEdge(view, bound, src, s, u, v);
    }
  }

  lemma {:induction false} DelayRelaxAll(view: View, bound: u32, src: Node, s: State, u: Node, vs: seq<Node>)
    requires Ok(view, s) && DelayInv(view, bound, src, s) && NoDelayWrap(view, bound)
    requires u in s.done && u in view.nodes && forall v | v in vs :: v in view.neighs[u]
    ensures DelayInv(view, bound, src, RelaxAll(view, DelayBelow(bound), u, s, vs))
    decreases |vs|
  {
    if vs != [] {
      assert Last(vs) in view.neighs[u];
      DelayRelaxAll(view, bound, src, s, u, vs[..|vs| - 1]);
      hide DelayInv, NoDelayWrap;
      DelayRelax(view, bound, src, RelaxAll(view, DelayBelow(bound), u, s, vs[..|vs| - 1]), u, Last(vs));
    }
  }

  lemma {:induction false} DelayRun(view: View, bound: u32, src: Node, s: State)
    requires Ok(view, s) && DelayInv(view, bound, src, s) && NoDelayWrap(view, bound)
    ensures DelayInv(view, bound, src, Run(view, DelayBelow(bound), s))
    decreases |s.q|
  {
    var i := Pick(s.dist, s.q);
    if i.Some? {
      DelaySettle(view, bound, src, s, i.value);
      SettleOk(view, s, i.value);
      QueuedLinks(view, ByMetric, s, i.value);
      hide DelayInv, NoDelayWrap, Consistent, Tables;
      DelayRelaxAll(view, bound, src, Settle(view, s, i.value), s.q[i.value], view.neighs[s.q[i.value]]);
      DelayRun(view, bound, src, Step(view, DelayBelow(bound), s, i.value));
    }
  }

  // ------------------------------------------------------------ the first list

  // The first list recorded for a node goes through its first predecessor.
  lemma {:induction false} FirstThrough(prev: map<Node, seq<Node>>, done: seq<Node>, u: Node, ws: seq<Node>)
    requires Layered(prev, done) && u in done && ws != [] && forall w | w in ws :: w in prev[u]
    ensures ws[0] in done && |AllPaths(prev, done, ws[0])| > 0
    ensures |Through(prev, done, u, ws)| > 0
    ensures Through(prev, done, u, ws)[0] == [u] + AllPaths(prev, done, ws[0])[0]
    decreases |ws|
  {
    EarlierIndex(prev, done, u, ws[0]);
    AllPathsNonempty(prev, done, ws[0]);
    var front := ws[..|ws| - 1];
    EarlierIndex(prev, done, u, Last(ws));
    if |ws| > 1 {
      FirstThrough(prev, done, u, front);
    } else {
      assert front == [];
      assert Through(prev, done, u, front) == [];
    }
  }

  // Where the first list of a node v other than the source leads from.
  lemma FirstList(view: View, bound: u32, src: Node, s: State, v: Node) returns (f: Node, l: seq<Node>)
    requires Ok(view, s) && DelayInv(view, bound, src, s) && v in s.done && v != src
    ensures f in s.done && Index(s.done, f) < Index(s.done, v) && (f, v) in view.minEdges
    ensures |AllPaths(s.prev, s.done, v)| > 0 && |AllPaths(s.prev, s.done, f)| > 0
    ensures AllPaths(s.prev, s.done, v)[0] == l && l != [] && l[0] == v && l[1..] == AllPaths(s.prev, s.done, f)[0]
    ensures Lookup(s.delays, v) == Lookup(s.delays, f) + view.minEdges[(f, v)].delay <= bound
  {
    assert Led(view, bound, s, v);
    hide Consistent, DelayInv;
    f := s.prev[v][0];
    FirstThrough(s.prev, s.done, v, s.prev[v]);
    EarlierIndex(s.prev, s.done, v, f);
    l := AllPaths(s.prev, s.done, v)[0];
    assert l == [v] + AllPaths(s.prev, s.done, f)[0];
  }

  lemma SourceList(view: View, bound: u32, src: Node, s: State)
    requires Ok(view, s) && DelayInv(view, bound, src, s) && src in s.done
    ensures AllPaths(s.prev, s.done, src) == [[]]
    ensures Lookup(s.delays, src) == 0
  {
  }

  lemma {:induction false} FirstListDelay(view: View, bound: u32, src: Node, s: State, v: Node)
    requires Ok(view, s) && DelayInv(view, bound, src, s) && v in s.done
    ensures |AllPaths(s.prev, s.done, v)| > 0
    ensures var p := Forward(src, AllPaths(s.prev, s.done, v)[0]);
      Last(p) == v && Linked(view, p) && Delay(view, p) == Lookup(s.delays, v) <= bound
    decreases Index(s.done, v)
  {
    hide Consistent, DelayInv, AllPaths;
    if v == src {
      SourceList(view, bound, src, s);
    } else {
      var f, l := FirstList(view, bound, src, s, v);
      FirstListDelay(view, bound, src, s, f);
      ForwardExtends(src, l);
      LinkedExtends(view, Forward(src, l[1..]), v);
    }
  }

  lemma LinkedExtends(view: View, p: seq<Node>, v: Node)
    requires Linked(view, p) && |p| > 0 && (Last(p), v) in view.minEdges
    ensures Linked(view, p + [v])
    ensures Delay(view, p + [v]) == Delay(view, p) + view.minEdges[(Last(p), v)].delay
  {
    var q := p + [v];
    assert q[..|p|] == p && q[|q| - 2] == Last(p) && q[|q| - 1] == v;
    forall i, j | 0 <= i < |q| - 1 && j == i + 1
      ensures (q[i], q[j]) in view.minEdges
    {
      assert j < |p| ==> q[i] == p[i] && q[j] == p[j];
    }
  }

  // The first path listed for any node, the one build_segpath takes, is within the bound.
  lemma FirstPathWithinDelay(view: View, bound: u32, src: Node, t: Node)
    requires Consistent(view) && src in view.nodes && t in view.nodes && NoDelayWrap(view, bound)
    ensures FirstPath(view, DelayBelow(bound), src, t).Some? ==>
              var p := FirstPath(view, DelayBelow(bound), src, t).value;
              p[0] == src && Last(p) == t && Linked(view, p) && Delay(view, p) <= bound
  {
    hide DelayInv, NoDelayWrap, Consistent, Run, Init;
    InitOk(view, src);
    DelayInit(view, bound, src);
    InitRecords(view, src);
    DelayRun(view, bound, src, Init(view, src));
    RunRecords(view, DelayBelow(bound), Init(view, src));
    var s := Run(view, DelayBelow(bound), Init(view, src));
    if t in s.done {
      FirstListDelay(view, bound, src, s, t);
    }
  }

  // ------------------------------------------------------------ the other lists

  // Every node of the list has one predecessor.
  ghost predicate OneWay(prev: map<Node, seq<Node>>, l: seq<Node>) {
    forall x | x in l :: x in prev && |prev[x]| == 1
  }

  // A listed path whose nodes before the last have one predecessor each: its delay is the recorded
  // one up to there, and the last link passed the test.
  lemma {:induction false} OneWayListDelay(view: View, bound: u32, src: Node, s: State, v: Node, l: seq<Node>)
    requires Ok(view, s) && DelayInv(view, bound, src, s) && v in s.done && l in AllPaths(s.prev, s.done, v)
    requires l != [] ==> OneWay(s.prev, l[1..])
    ensures var p := Forward(src, l);
      Last(p) == v && Linked(view, p) && Delay(view, p) <= bound && (OneWay(s.prev, l) ==> Delay(view, p) == Lookup(s.delays, v))
    decreases |l|
  {
    hide Consistent, Partition, PrevSettled, Delay, Linked, Layered;
    if s.prev[v] == [] {
      OnlySourceIsRoot(view, bound, src, s, v);
      StandingDelay(view, src);
      assert l == [] && Forward(src, l) == [src];
    } else {
      ThroughMember(s.prev, s.done, v, s.prev[v], l);
      var w :| w in s.prev[v] && w in s.done && l[1..] in AllPaths(s.prev, s.done, w);
      var l' := l[1..];
      assert l' != [] ==> forall x | x in l'[1..] :: x in l';
      OneWayListDelay(view, bound, src, s, w, l');
      ForwardExtends(src, l);
      LedBy(view, bound, src, s, v, w);
      LinkedExtends(view, Forward(src, l'), v);
      assert l[0] in l;
    }
  }

  lemma StandingDelay(view: View, src: Node)
    ensures Linked(view, [src]) && Delay(view, [src]) == 0
  {
  }

  lemma OnlySourceIsRoot(view: View, bound: u32, src: Node, s: State, v: Node)
    requires Ok(view, s) && DelayInv(view, bound, src, s) && v in s.done && v in s.prev && s.prev[v] == []
    ensures v == src && Lookup(s.delays, v) == 0 && AllPaths(s.prev, s.done, v) == [[]]
  {
    DoneIsLed(view, bound, src, s, v);
  }

  // A settled node's list ends where its predecessor's goes on, and a predecessor reached one way has
  // its own recorded delay.
  lemma LedBy(view: View, bound: u32, src: Node, s: State, v: Node, w: Node)
    requires Ok(view, s) && DelayInv(view, bound, src, s) && v in s.done && w in s.prev[v]
    ensures Passed(view, bound, s, w, v)
    ensures |s.prev[v]| == 1 ==> Lookup(s.delays, v) == Lookup(s.delays, w) + view.minEdges[(w, v)].delay
  {
    hide Consistent, Layered, Partition;
    DoneIsLed(view, bound, src, s, v);
  }

  // Every listed path, not only the first, is within the bound if each of its nodes before the last
  // has one predecessor.
  lemma OneWayPathsWithinDelay(view: View, bound: u32, src: Node, t: Node, l: seq<Node>)
    requires Consistent(view) && src in view.nodes && t in view.nodes && NoDelayWrap(view, bound)
    requires var r := Result(view, DelayBelow(bound), src);
      t in r.path && l in r.path[t] && (l != [] ==> OneWay(r.prev, l[1..]))
    ensures var p := Forward(src, l); Last(p) == t && Linked(view, p) && Delay(view, p) <= bound
  {
    hide DelayInv, NoDelayWrap, Consistent, Init, Delay, Linked, OneWay;
    InitOk(view, src);
    DelayInit(view, bound, src);
    InitRecords(view, src);
    DelayRun(view, bound, src, Init(view, src));
    RunRecords(view, DelayBelow(bound), Init(view, src));
    OneWayListDelay(view, bound, src, Run(view, DelayBelow(bound), Init(view, src)), t, l);
  }
}
