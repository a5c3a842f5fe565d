/**
 * Whole runs of graph operations against plain lists of objects.
 */
module RefCountRuns {
  import opened Basics
  import opened RefCounts

  datatype Op =
    | NewNode(l: nat, n: nat)
    | NewEdge(l: nat, nodes: nat, e: nat, local: nat, remote: nat)
    | Refer(l: nat, from: nat, x: Obj)        // a segment or an edge of a path put on a list
    | Withdraw(l: nat, drop: set<Obj>)        // entries taken off a list and given back
    | Copy(from: nat, to: nat)
    | Discard(l: nat)
    | Prune(l: nat, drop: set<Obj>)
    | Remove(nodes: nat, edges: nat, n: nat)
    | Deep(nodes: nat, edges: nat, nodes': nat, edges': nat, base: nat)

  // The lists by number, the ends of all edges, the objects ever made, and what pruning dropped.
  datatype Plain = Plain(lists: nat -> seq<Obj>, ends: map<nat, (nat, nat)>, made: set<Obj>, leaked: multiset<Obj>)

  // What an operation makes of list l.
  ghost function NextList(p: Plain, op: Op, l: nat): seq<Obj> {
    var now := p.lists(l);
    match op
    case NewNode(k, n) => if l == k then now + [N(n)] else now
    case NewEdge(k, _, e, _, _) => if l == k then now + [E(e)] else now
    case Refer(k, _, x) => if l == k then now + [x] else now
    case Withdraw(k, drop) => if l == k then Spared(now, drop) else now
    case Copy(from, to) => if l == to then now + p.lists(from) else now
    case Discard(k) => if l == k then [] else now
    case Prune(k, drop) => if l == k then Spared(now, drop) else now
    case Remove(nodes, edges, n) =>
      if l == nodes then Spared(now, {N(n)})
      else if l == edges && N(n) in p.lists(nodes) then Spared(now, Joining(p.ends, n))
      else now
    case Deep(nodes, edges, nodes', edges', base) =>
      if l == nodes' then now + Shifted(p.lists(nodes), base)
      else if l == edges' then now + Shifted(p.lists(edges), base)
      else now
  }

  ghost function NextEnds(p: Plain, op: Op): map<nat, (nat, nat)> {
    if op.NewEdge? then p.ends[op.e := (op.local, op.remote)]
    else if op.Deep? then WithCopies(p.ends, p.lists(op.edges), op.base)
    else p.ends
  }

  ghost function NextMade(p: Plain, op: Op): set<Obj> {
    if op.NewNode? then p.made + {N(op.n)}
    else if op.NewEdge? then p.made + {E(op.e)}
    else if op.Deep? then p.made + Copies(p.lists(op.nodes), op.base) + Copies(p.lists(op.edges), op.base)
    else p.made
  }

  ghost function Next(p: Plain, op: Op): Plain {
    Plain((l: nat) => NextList(p, op, l), NextEnds(p, op), NextMade(p, op),
          if op.Prune? then p.leaked + multiset(Dropped(p.lists(op.l), op.drop)) else p.leaked)
  }

  ghost function After(ops: seq<Op>): Plain {
    if ops == [] then Plain((l: nat) => [], map[], {}, multiset{}) else Next(After(ops[..|ops| - 1]), ops[|ops| - 1])
  }

  // Every object has a name of its own, an edge joins two nodes of a list, what is referred to is on
  // a list, a graph copied is whole, and lists differ.
  ghost predicate Admissible(p: Plain, op: Op) {
    match op
    case NewNode(_, n) => N(n) !in p.made
    case NewEdge(_, nodes, e, local, remote) => E(e) !in p.made && N(local) in p.lists(nodes) && N(remote) in p.lists(nodes)
    case Refer(_, from, x) => x in p.lists(from)
    case Copy(from, to) => from != to
    case Remove(nodes, edges, _) => nodes != edges
    case Deep(nodes, edges, nodes', edges', base) =>
      && NoDup([nodes, edges, nodes', edges']) && Closed(p.lists(nodes), p.lists(edges), p.ends)
      && forall x | x in p.made :: Number(x) < base
    case _ => true
  }

  // The lists are the plain ones, and only objects made are allocated.
  ghost predicate Serving(h: Heap, p: Plain)
    reads h
  {
    h.Valid() && h.ends == p.ends && h.rc.Keys <= p.made && h.leaked == p.leaked && forall l: nat :: ListOf(h.slots, l) == p.lists(l)
  }

  predicate Grows(op: Op) {
    op.NewNode? || op.NewEdge? || op.Refer? || op.Copy?
  }

  method Serve(h: Heap, ghost p: Plain, op: Op)
    requires Serving(h, p) && Admissible(p, op)
    modifies h
    ensures Serving(h, Next(p, op))
  {
    hide Serving, Admissible, Next;
    if Grows(op) {
      ServeGrowth(h, p, op);
    } else if op.Deep? {
      ServeDeep(h, p, op);
    } else {
      ServeLoss(h, p, op);
    }
  }

  method ServeGrowth(h: Heap, ghost p: Plain, op: Op)
    requires Serving(h, p) && Admissible(p, op) && Grows(op)
    modifies h
    ensures Serving(h, Next(p, op))
  {
    hide Counted, Ended, Owned, OnceEach, ListOf, Refs, Spared, Shifted, WithCopies, Copies, Joining, Closed, Dropped;
    ghost var was := h.slots;
    match op
    case NewNode(l, n) =>
      h.AddNode(l, n);
      AppendedLists(was, Slot(InList(l), N(n)), l);
    case NewEdge(l, nodes, e, local, remote) =>
      ListedIsReferred(h.slots, nodes, N(local));
      ListedIsReferred(h.slots, nodes, N(remote));
      h.AddEdge(l, e, local, remote);
      EdgeLists(was, e, local, remote, l);
    case Refer(l, from, x) =>
      ListedIsReferred(h.slots, from, x);
      h.Hold(l, x);
      AppendedLists(was, Slot(InList(l), x), l);
    case Copy(from, to) =>
      h.CopyList(from, to);
  }

  method ServeLoss(h: Heap, ghost p: Plain, op: Op)
    requires Serving(h, p) && Admissible(p, op) && !Grows(op) && !op.Deep?
    modifies h
    ensures Serving(h, Next(p, op))
  {
    hide Counted, Ended, Owned, OnceEach, ListOf, Refs, Spared, Shifted, WithCopies, Copies, Joining, Closed, Dropped;
    ghost var was := h.slots;
    match op
    case Withdraw(l, drop) =>
      h.ReleaseSome(l, drop);
    case Discard(l) =>
      h.ReleaseList(l);
    case Prune(l, drop) =>
      h.PruneList(l, drop);
    case Remove(nodes, edges, n) =>
      SparedRest(ListOf(was, edges), {});
      h.RemoveNode(nodes, edges, n);
  }

  method ServeDeep(h: Heap, ghost p: Plain, op: Op)
    requires Serving(h, p) && Admissible(p, op) && op.Deep?
    modifies h
    ensures Serving(h, Next(p, op))
  {
    hide Counted, Ended, Owned, OnceEach, ListOf, Refs, Spared, Shifted, WithCopies, Copies, Joining, Closed, CopiedEnds;
    FourApart(op.nodes, op.edges, op.nodes', op.edges');
    h.DeepCopy(op.nodes, op.edges, op.nodes', op.edges', op.base);
  }

  // ------------------------------------------------------------ runs

  lemma AfterNext(ops: seq<Op>, i: nat)
    requires i < |ops|
    ensures After(ops[..i + 1]) == Next(After(ops[..i]), ops[i])
  {
    assert ops[..i + 1][..i] == ops[..i] && ops[..i + 1][i] == ops[i];
  }

  lemma {:induction false} ListWithinRefs(slots: seq<Slot>, l: nat, x: Obj)
    ensures CountOf(ListOf(slots, l), x) <= Refs(slots)[x]
  {
    if slots != [] {
      ListWithinRefs(slots[..|slots| - 1], l, x);
    }
  }

  // The object is on a list, or pruning dropped a reference to it.
  ghost predicate Named(p: Plain, x: Obj) {
    x in p.leaked || exists l: nat :: x in p.lists(l)
  }

  ghost predicate EndOf(p: Plain, e: nat, n: nat) {
    Named(p, E(e)) && e in p.ends && (p.ends[e].0 == n || p.ends[e].1 == n)
  }

  // ... or it is a node at an end of such an edge.
  ghost predicate Needed(p: Plain, x: Obj) {
    Named(p, x) || (x.N? && exists e :: EndOf(p, e, x.n))
  }

  // What refers to an object: an entry of a list, or an allocated edge of which it is an end.
  lemma WhoRefers(h: Heap, i: nat)
    requires h.Valid() && i < |h.slots|
    ensures var s := h.slots[i];
      if s.owner.InList? then s.ref in ListOf(h.slots, s.owner.l)
      else E(s.owner.e) in h.rc && s.owner.e in h.ends && (s.ref == N(h.ends[s.owner.e].0) || s.ref == N(h.ends[s.owner.e].1))
  {
    hide Counted, ListOf;
    var s := h.slots[i];
    if s.owner.InList? {
      ListMember(h.slots, s.owner.l, s.ref);
    } else {
      assert s in h.slots;
      EndsThere(h.rc, h.ends, h.slots, s.owner.e);
      var t := if s.owner.LocalOf? then Slot(s.owner, N(h.ends[s.owner.e].0)) else Slot(s.owner, N(h.ends[s.owner.e].1));
      var j :| 0 <= j < |h.slots| && h.slots[j] == t;
      assert j == i;
    }
  }

  lemma AllocatedOrLeaked(h: Heap, x: Obj)
    requires h.Valid()
    ensures x in h.rc <==> x in h.leaked || exists i :: 0 <= i < |h.slots| && h.slots[i].ref == x
  {
    RefsMember(h.slots, x);
    assert x in Refs(h.slots) + h.leaked <==> x in Refs(h.slots) || x in h.leaked;
  }

  lemma EdgeIsNamed(h: Heap, p: Plain, e: nat)
    requires Serving(h, p)
    ensures E(e) in h.rc <==> Named(p, E(e))
  {
    hide Counted, Ended, Owned, OnceEach, ListOf;
    AllocatedOrLeaked(h, E(e));
    if E(e) in h.rc && E(e) !in h.leaked {
      var i :| 0 <= i < |h.slots| && h.slots[i].ref == E(e);
      WhoRefers(h, i);
    }
    if l: nat :| E(e) in p.lists(l) {
      ListedSlot(h, l, E(e));
    }
  }

  lemma ListedSlot(h: Heap, l: nat, x: Obj)
    requires x in ListOf(h.slots, l)
    ensures exists i :: 0 <= i < |h.slots| && h.slots[i].ref == x
  {
    ListMember(h.slots, l, x);
  }

  // An object is allocated exactly if it is on a list, an end of an edge that is, or leaked.
  lemma AllocatedIffNeeded(h: Heap, p: Plain, x: Obj)
    requires Serving(h, p)
    ensures x in h.rc <==> Needed(p, x)
  {
    hide Counted, Ended, Owned, OnceEach, ListOf;
    AllocatedOrLeaked(h, x);
    if x in h.rc && x !in h.leaked {
      var i :| 0 <= i < |h.slots| && h.slots[i].ref == x;
      WhoRefers(h, i);
      var s := h.slots[i];
      if !s.owner.InList? {
        EdgeIsNamed(h, p, s.owner.e);
        assert EndOf(p, s.owner.e, x.n);
      }
    }
    if l: nat :| x in p.lists(l) {
      ListedSlot(h, l, x);
    }
    if x.N? && exists e :: EndOf(p, e, x.n) {
      var e :| EndOf(p, e, x.n);
      EdgeIsNamed(h, p, e);
      EndsThere(h.rc, h.ends, h.slots, e);
    }
  }

  // In every run each list holds what the operations made of it, every object on a list is counted at
  // least as often as the list names it, and an object is allocated exactly if it is on a list, an end
  // of an edge that is, or pruning dropped a reference to it: without prunings nothing leaks.
  method Replay(ops: seq<Op>) returns (h: Heap)
    requires forall i | 0 <= i < |ops| :: Admissible(After(ops[..i]), ops[i])
    ensures fresh(h) && h.ends == After(ops).ends && forall l: nat :: ListOf(h.slots, l) == After(ops).lists(l)
    ensures forall l: nat, x | x in After(ops).lists(l) :: x in h.rc && h.rc[x] >= CountOf(After(ops).lists(l), x)
    ensures forall x :: x in h.rc <==> Needed(After(ops), x)
    ensures (forall i | 0 <= i < |ops| :: !ops[i].Prune?) ==> After(ops).leaked == multiset{}
  {
    hide Admissible, Serving, After, Next, ListOf, Needed;
    h := Start();
    assert ops[..0] == [];
    for i := 0 to |ops|
      invariant fresh(h) && Serving(h, After(ops[..i]))
    {
      Serve(h, After(ops[..i]), ops[i]);
      AfterNext(ops, i);
    }
    assert ops[..|ops|] == ops;
    ListedIsCounted(h, After(ops));
    NoPruningNoLeak(ops);
    forall x
      ensures x in h.rc <==> Needed(After(ops), x)
    {
      AllocatedIffNeeded(h, After(ops), x);
    }
  }

  lemma {:induction false} NoPruningNoLeak(ops: seq<Op>)
    ensures (forall i | 0 <= i < |ops| :: !ops[i].Prune?) ==> After(ops).leaked == multiset{}
  {
    if ops != [] {
      NoPruningNoLeak(ops[..|ops| - 1]);
    }
  }

  method Start() returns (h: Heap)
    ensures fresh(h) && Serving(h, After([]))
  {
    h := new Heap();
  }

  lemma ListedIsCounted(h: Heap, p: Plain)
    requires Serving(h, p)
    ensures h.ends == p.ends && forall l: nat :: ListOf(h.slots, l) == p.lists(l)
    ensures forall l: nat, x | x in p.lists(l) :: x in h.rc && h.rc[x] >= CountOf(p.lists(l), x)
  {
    hide ListOf;
    forall l: nat, x | x in p.lists(l)
      ensures x in h.rc && h.rc[x] >= CountOf(p.lists(l), x)
    {
      assert ListOf(h.slots, l) == p.lists(l);
      ListedIsReferred(h.slots, l, x);
      Referred(h.rc, h.slots, h.leaked, x);
      ListWithinRefs(h.slots, l, x);
    }
  }
}
