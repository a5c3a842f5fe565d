/**
 * Least-cost walks over a directed network: the meaning that the path engine's
 * results are compared with.  Nothing here mentions an algorithm.
 */
module ShortestPaths {

  // A router is known by the id its graph node carries.
  type Node = nat

  // The usable links: at most one cost per ordered pair of distinct routers.
  datatype Net = Net(nodes: set<Node>, cost: map<(Node, Node), nat>) {
    ghost predicate Valid() {
      forall l | l in cost :: l.0 in nodes && l.1 in nodes && l.0 != l.1
    }

    ghost predicate Positive() {
      forall l | l in cost :: cost[l] > 0
    }
  }

  function Last<T>(s: seq<T>): T
    requires |s| > 0
  {
    s[|s| - 1]
  }

  ghost predicate IsWalk(net: Net, p: seq<Node>) {
    && |p| > 0
    && p[0] in net.nodes
    && forall i, j | 0 <= i < |p| - 1 && j == i + 1 :: (p[i], p[j]) in net.cost
  }

  // A walk from s to t.
  ghost predicate Joins(net: Net, s: Node, t: Node, p: seq<Node>) {
    IsWalk(net, p) && p[0] == s && Last(p) == t
  }

  ghost predicate Reachable(net: Net, s: Node, t: Node) {
    exists p :: Joins(net, s, t, p)
  }

  ghost function Cost(net: Net, p: seq<Node>): (c: nat)
    requires IsWalk(net, p)
  {
    if |p| == 1 then 0
    else
      Cost(net, p[..|p| - 1]) + net.cost[(p[|p| - 2], p[|p| - 1])]
  }

  ghost predicate Shortest(net: Net, p: seq<Node>) {
    && IsWalk(net, p)
    && forall q | Joins(net, p[0], Last(p), q) :: Cost(net, p) <= Cost(net, q)
  }

  // A least-cost walk from s to t.
  ghost predicate ShortestFrom(net: Net, s: Node, t: Node, p: seq<Node>) {
    Shortest(net, p) && p[0] == s && Last(p) == t
  }

  lemma ShortestJoins(net: Net, s: Node, t: Node, p: seq<Node>)
    ensures ShortestFrom(net, s, t, p) ==> Joins(net, s, t, p)
  {
  }

  // The only least-cost walk between its ends.
  ghost predicate Unique(net: Net, p: seq<Node>) {
    && Shortest(net, p)
    && forall q | ShortestFrom(net, p[0], Last(p), q) :: q == p
  }

  // u is the last hop of some least-cost walk from s to v.
  ghost predicate TightPred(net: Net, s: Node, u: Node, v: Node) {
    exists p :: ShortestFrom(net, s, v, p) && |p| > 1 && p[|p| - 2] == u
  }

  lemma WalkStaysInNodes(net: Net, p: seq<Node>, i: nat)
    requires net.Valid() && IsWalk(net, p) && i < |p|
    ensures p[i] in net.nodes
  {
    if i > 0 {
      assert (p[i - 1], p[i]) in net.cost;
    }
  }

  lemma WalkSlice(net: Net, p: seq<Node>, i: nat, j: nat)
    requires net.Valid() && IsWalk(net, p) && i < j <= |p|
    ensures IsWalk(net, p[i..j])
  {
    WalkStaysInNodes(net, p, i);
  }

  lemma CostExtend(net: Net, p: seq<Node>, v: Node)
    requires IsWalk(net, p) && (Last(p), v) in net.cost
    ensures IsWalk(net, p + [v])
    ensures Cost(net, p + [v]) == Cost(net, p) + net.cost[(Last(p), v)]
  {
    assert (p + [v])[..|p|] == p;
  }

  lemma {:induction false} CostSplit(net: Net, p: seq<Node>, k: nat)
    requires net.Valid() && IsWalk(net, p) && k < |p|
    ensures IsWalk(net, p[..k + 1]) && IsWalk(net, p[k..])
    ensures Cost(net, p) == Cost(net, p[..k + 1]) + Cost(net, p[k..])
    decreases |p|
  {
    WalkSlice(net, p, 0, k + 1);
    WalkSlice(net, p, k, |p|);
    assert p[k..|p|] == p[k..];
    if k == |p| - 1 {
      assert p[..k + 1] == p;
    } else {
      var q := p[..|p| - 1];
      CostSplit(net, q, k);
      assert q[..k + 1] == p[..k + 1];
      assert p[k..][..|p[k..]| - 1] == q[k..];
    }
  }

  // The walk p followed by q, which starts where p ends.
  function Glue(p: seq<Node>, q: seq<Node>): seq<Node>
    requires |q| > 0
  {
    p + q[1..]
  }

  lemma GlueWalk(net: Net, p: seq<Node>, q: seq<Node>)
    requires IsWalk(net, p) && IsWalk(net, q) && Last(p) == q[0]
    ensures Joins(net, p[0], Last(q), Glue(p, q))
  {
    var g, k := Glue(p, q), |p| - 1;
    forall i, j | 0 <= i < |g| - 1 && j == i + 1
      ensures (g[i], g[j]) in net.cost
    {
      if i >= k {
        assert g[i] == q[i - k] && g[j] == q[j - k];
      }
    }
  }

  lemma GlueCost(net: Net, p: seq<Node>, q: seq<Node>)
    requires net.Valid() && IsWalk(net, p) && IsWalk(net, q) && Last(p) == q[0]
    ensures Joins(net, p[0], Last(q), Glue(p, q))
    ensures Cost(net, Glue(p, q)) == Cost(net, p) + Cost(net, q)
  {
    GlueWalk(net, p, q);
    var g, k := Glue(p, q), |p| - 1;
    assert g[..k + 1] == p && g[k..] == q;
    CostSplit(net, g, k);
  }

  // Replacing a stretch of a least-cost walk cannot make it cheaper.
  lemma ShortestPrefix(net: Net, p: seq<Node>, k: nat)
    requires net.Valid() && Shortest(net, p) && k < |p|
    ensures Shortest(net, p[..k + 1])
  {
    CostSplit(net, p, k);
    var a, b := p[..k + 1], p[k..];
    forall q | Joins(net, a[0], Last(a), q)
      ensures Cost(net, a) <= Cost(net, q)
    {
      GlueCost(net, q, b);
    }
  }

  lemma ShortestSuffix(net: Net, p: seq<Node>, k: nat)
    requires net.Valid() && Shortest(net, p) && k < |p|
    ensures Shortest(net, p[k..])
  {
    CostSplit(net, p, k);
    var a, b := p[..k + 1], p[k..];
    forall q | Joins(net, b[0], Last(b), q)
      ensures Cost(net, b) <= Cost(net, q)
    {
      GlueCost(net, a, q);
    }
  }

  lemma SameEndsSameCost(net: Net, p: seq<Node>, q: seq<Node>)
    requires Shortest(net, p) && Shortest(net, q)
    requires p[0] == q[0] && Last(p) == Last(q)
    ensures Cost(net, p) == Cost(net, q)
  {
    assert Joins(net, p[0], Last(p), q);
    assert Joins(net, q[0], Last(q), p);
  }

  // A walk no dearer than a least-cost one is itself least-cost.
  lemma AsCheapIsShortest(net: Net, p: seq<Node>, q: seq<Node>)
    requires Shortest(net, p) && Joins(net, p[0], Last(p), q)
    requires Cost(net, q) <= Cost(net, p)
    ensures Shortest(net, q)
  {
  }

  lemma StandingStill(net: Net, x: Node)
    requires net.Valid() && x in net.nodes
    ensures Shortest(net, [x]) && Cost(net, [x]) == 0
  {
  }

  lemma MovingCosts(net: Net, p: seq<Node>)
    requires net.Valid() && net.Positive() && IsWalk(net, p) && |p| > 1
    ensures Cost(net, p) > 0
  {
    assert (p[|p| - 2], p[|p| - 1]) in net.cost;
  }

  // With positive costs the only least-cost walk from a router to itself is to stay.
  lemma StandingStillIsUnique(net: Net, x: Node)
    requires net.Valid() && net.Positive() && x in net.nodes
    ensures Unique(net, [x])
  {
    StandingStill(net, x);
    forall q | ShortestFrom(net, x, x, q)
      ensures q == [x]
    {
      assert Joins(net, x, x, [x]);
      if |q| > 1 {
        MovingCosts(net, q);
      }
    }
  }

  lemma CycleIsNotShortest(net: Net, p: seq<Node>, i: nat, j: nat)
    requires net.Valid() && net.Positive() && Shortest(net, p)
    requires i < j < |p|
    ensures p[i] != p[j]
  {
    if p[i] == p[j] {
      ShortestPrefix(net, p, j);
      var q := p[..j + 1];
      ShortestSuffix(net, q, i);
      var c := q[i..];
      WalkStaysInNodes(net, p, i);
      StandingStill(net, p[i]);
      assert Joins(net, c[0], Last(c), [p[i]]);
      MovingCosts(net, c);
    }
  }

  // A tight predecessor's own least-cost walk extends to one that ends at v.
  lemma TightPredExtends(net: Net, s: Node, u: Node, v: Node, p: seq<Node>)
    requires net.Valid() && TightPred(net, s, u, v) && ShortestFrom(net, s, u, p)
    ensures (u, v) in net.cost && ShortestFrom(net, s, v, p + [v])
  {
    var w :| ShortestFrom(net, s, v, w) && |w| > 1 && w[|w| - 2] == u;
    var k := |w| - 2;
    assert w[k + 1] == v;
    ShortestPrefix(net, w, k);
    assert w[..k + 1] == w[..|w| - 1];
    CostExtend(net, p, v);
    SameEndsSameCost(net, p, w[..k + 1]);
    AsCheapIsShortest(net, w, p + [v]);
  }
}
