/**
 * Reference counts of graph nodes and edges. Every entry of a graph's lists, of a segment list or
 * of an edge path, and every end of an edge, is a reference; a count is the number of references and
 * of those that pruning dropped without giving them back.
 */
module RefCounts {
  import opened Basics

  datatype Obj = N(n: nat) | E(e: nat)

  // Who refers: an entry of a list, or an edge to its two ends.
  datatype Owner = InList(l: nat) | LocalOf(e: nat) | RemoteOf(e: nat)

  datatype Slot = Slot(owner: Owner, ref: Obj)

  ghost function Refs(slots: seq<Slot>): multiset<Obj> {
    if slots == [] then multiset{} else Refs(slots[..|slots| - 1]) + multiset{slots[|slots| - 1].ref}
  }

  lemma {:induction false} RefsWithout(slots: seq<Slot>, i: nat)
    requires i < |slots|
    ensures Refs(slots) == Refs(Without(slots, i)) + multiset{slots[i].ref}
  {
    hide Refs;
    var n := |slots| - 1;
    var init, last := slots[..n], slots[n];
    assert slots == init + [last];
    RefsSnoc(init, last);
    if i < n {
      RefsWithout(init, i);
      assert Without(slots, i) == Without(init, i) + [last];
      RefsSnoc(Without(init, i), last);
      SwapLast(Refs(Without(init, i)), slots[i].ref, last.ref);
    } else {
      assert Without(slots, i) == init;
    }
  }

  lemma SwapLast(a: multiset<Obj>, x: Obj, y: Obj)
    ensures a + multiset{x} + multiset{y} == a + multiset{y} + multiset{x}
  {
  }

  lemma RefsSnoc(slots: seq<Slot>, s: Slot)
    ensures Refs(slots + [s]) == Refs(slots) + multiset{s.ref}
  {
    assert (slots + [s])[..|slots|] == slots;
  }

  lemma {:induction false} RefsMember(slots: seq<Slot>, x: Obj)
    ensures x in Refs(slots) <==> exists i :: 0 <= i < |slots| && slots[i].ref == x
  {
    if slots != [] {
      RefsMember(slots[..|slots| - 1], x);
    }
  }

  // The objects a list refers to, in order.
  function ListOf(slots: seq<Slot>, l: nat): seq<Obj> {
    if slots == [] then []
    else
      var last := slots[|slots| - 1];
      ListOf(slots[..|slots| - 1], l) + if last.owner == InList(l) then [last.ref] else []
  }

  lemma ListSnoc(slots: seq<Slot>, s: Slot, l: nat)
    ensures ListOf(slots + [s], l) == ListOf(slots, l) + if s.owner == InList(l) then [s.ref] else []
  {
    assert (slots + [s])[..|slots|] == slots;
  }

  lemma {:induction false} ListSkip(slots: seq<Slot>, i: nat, l: nat)
    requires i < |slots| && slots[i].owner != InList(l)
    ensures ListOf(Without(slots, i), l) == ListOf(slots, l)
  {
    var n := |slots| - 1;
    if i < n {
      ListSkip(slots[..n], i, l);
      assert Without(slots, i) == Without(slots[..n], i) + [slots[n]];
      ListSnoc(Without(slots[..n], i), slots[n], l);
    } else {
      assert Without(slots, i) == slots[..n];
    }
  }

  lemma {:induction false} ListEmpty(slots: seq<Slot>, l: nat)
    requires forall i | 0 <= i < |slots| :: slots[i].owner != InList(l)
    ensures ListOf(slots, l) == []
  {
    if slots != [] {
      ListEmpty(slots[..|slots| - 1], l);
    }
  }

  lemma {:induction false} ListMember(slots: seq<Slot>, l: nat, x: Obj)
    ensures x in ListOf(slots, l) <==> Slot(InList(l), x) in slots
  {
    if slots != [] {
      var n := |slots| - 1;
      ListMember(slots[..n], l, x);
      assert slots == slots[..n] + [slots[n]];
    }
  }

  // The lists named by no change.
  ghost predicate SameLists(slots: seq<Slot>, slots': seq<Slot>, but: set<nat>) {
    forall l: nat | l !in but :: ListOf(slots', l) == ListOf(slots, l)
  }

  lemma SkipLists(slots: seq<Slot>, i: nat)
    requires i < |slots|
    ensures SameLists(slots, Without(slots, i), if slots[i].owner.InList? then {slots[i].owner.l} else {})
  {
    forall l: nat | slots[i].owner != InList(l)
      ensures ListOf(Without(slots, i), l) == ListOf(slots, l)
    {
      ListSkip(slots, i, l);
    }
  }

  // The edges from or to a node.
  function Joining(ends: map<nat, (nat, nat)>, n: nat): set<Obj> {
    set e | e in ends && (ends[e].0 == n || ends[e].1 == n) :: E(e)
  }

  // ------------------------------------------------------------ counts

  // Exactly what is referred to, or held by a spare reference, is allocated, and the counts are exact.
  ghost predicate Counted(rc: map<Obj, nat>, slots: seq<Slot>, spare: multiset<Obj>) {
    && (forall x :: x in rc <==> x in Refs(slots) + spare)
    && (forall x | x in rc :: rc[x] == (Refs(slots) + spare)[x])
  }

  // Only allocated edges, and those about to be freed, have ends.
  ghost predicate Owned(rc: map<Obj, nat>, slots: seq<Slot>, but: set<Owner>) {
    forall s | s in slots && !s.owner.InList? :: E(s.owner.e) in rc || s.owner in but
  }

  // An edge has one local and one remote end.
  ghost predicate OnceEach(slots: seq<Slot>) {
    forall i, j | 0 <= i < j < |slots| && !slots[i].owner.InList? :: slots[i].owner != slots[j].owner
  }

  lemma OwnedWithout(rc: map<Obj, nat>, slots: seq<Slot>, but: set<Owner>, i: nat)
    requires Owned(rc, slots, but) && OnceEach(slots) && i < |slots|
    ensures Owned(rc, Without(slots, i), if slots[i].owner.InList? then but else but - {slots[i].owner}) && OnceEach(Without(slots, i))
  {
    var slots' := Without(slots, i);
    assert forall k | 0 <= k < |slots'| :: slots'[k] == slots[if k < i then k else k + 1];
    forall s | s in slots' && !s.owner.InList?
      ensures E(s.owner.e) in rc || s.owner in (if slots[i].owner.InList? then but else but - {slots[i].owner})
    {
      var k :| 0 <= k < |slots'| && slots'[k] == s;
      assert s in slots;
    }
  }

  lemma OwnedMore(rc: map<Obj, nat>, rc': map<Obj, nat>, slots: seq<Slot>, s: Slot)
    requires Owned(rc, slots, {}) && OnceEach(slots) && s.owner.InList? && forall e | E(e) in rc :: E(e) in rc'
    ensures Owned(rc', slots + [s], {}) && OnceEach(slots + [s])
  {
  }

  lemma OwnedNew(rc: map<Obj, nat>, rc': map<Obj, nat>, slots: seq<Slot>, e: nat, local: nat, remote: nat, l: nat)
    requires Owned(rc, slots, {}) && OnceEach(slots) && E(e) !in rc && E(e) in rc' && forall f | E(f) in rc :: E(f) in rc'
    ensures var slots' := slots + [Slot(LocalOf(e), N(local)), Slot(RemoteOf(e), N(remote)), Slot(InList(l), E(e))];
      Owned(rc', slots', {}) && OnceEach(slots')
  {
    assert forall i | 0 <= i < |slots| && !slots[i].owner.InList? :: slots[i] in slots && slots[i].owner.e != e;
  }

  lemma OwnedFewer(rc: map<Obj, nat>, slots: seq<Slot>, e: nat)
    requires Owned(rc, slots, {})
    ensures Owned(rc - {E(e)}, slots, {LocalOf(e), RemoteOf(e)})
  {
  }

  lemma OwnedSame(rc: map<Obj, nat>, rc': map<Obj, nat>, slots: seq<Slot>, but: set<Owner>)
    requires Owned(rc, slots, but) && forall e :: E(e) in rc <==> E(e) in rc'
    ensures Owned(rc', slots, but)
  {
  }

  // Every allocated edge refers to its two ends.
  ghost predicate Ended(rc: map<Obj, nat>, ends: map<nat, (nat, nat)>, slots: seq<Slot>) {
    forall e | E(e) in rc ::
      e in ends && Slot(LocalOf(e), N(ends[e].0)) in slots && Slot(RemoteOf(e), N(ends[e].1)) in slots
  }

  lemma TakeOut(rc: map<Obj, nat>, slots: seq<Slot>, spare: multiset<Obj>, i: nat)
    requires Counted(rc, slots, spare) && i < |slots|
    ensures Counted(rc, Without(slots, i), spare + multiset{slots[i].ref})
  {
    RefsWithout(slots, i);
    assert Refs(Without(slots, i)) + (spare + multiset{slots[i].ref}) == Refs(slots) + spare;
  }

  lemma PutIn(rc: map<Obj, nat>, slots: seq<Slot>, spare: multiset<Obj>, s: Slot)
    requires Counted(rc, slots, spare) && s.ref in rc
    ensures Counted(rc[s.ref := rc[s.ref] + 1], slots + [s], spare)
  {
    RefsSnoc(slots, s);
  }

  lemma PutNew(rc: map<Obj, nat>, slots: seq<Slot>, spare: multiset<Obj>, s: Slot)
    requires Counted(rc, slots, spare) && s.ref !in rc
    ensures Counted(rc[s.ref := 1], slots + [s], spare)
  {
    RefsSnoc(slots, s);
    assert s.ref !in Refs(slots) + spare;
  }

  lemma EndedMore(rc: map<Obj, nat>, rc': map<Obj, nat>, ends: map<nat, (nat, nat)>, slots: seq<Slot>, more: seq<Slot>)
    requires Ended(rc, ends, slots) && forall e | E(e) in rc' :: E(e) in rc
    ensures Ended(rc', ends, slots + more)
  {
  }

  lemma OneMore(a: multiset<Obj>, b: multiset<Obj>, x: Obj)
    ensures a + (b + multiset{x}) == (a + b)[x := (a + b)[x] + 1]
  {
  }

  // Giving a spare reference back.
  lemma GiveBack(rc: map<Obj, nat>, slots: seq<Slot>, spare: multiset<Obj>, x: Obj)
    requires Counted(rc, slots, spare + multiset{x})
    ensures x in rc && rc[x] > 0
    ensures rc[x] > 1 ==> Counted(rc[x := rc[x] - 1], slots, spare)
    ensures rc[x] == 1 ==> Counted(rc - {x}, slots, spare)
  {
    hide Refs;
    var m := Refs(slots) + spare;
    OneMore(Refs(slots), spare, x);
    assert forall y :: y in m[x := m[x] + 1] <==> y == x || y in m;
    assert rc[x] == m[x] + 1;
  }

  lemma OthersEnded(rc: map<Obj, nat>, rc': map<Obj, nat>, ends: map<nat, (nat, nat)>, slots: seq<Slot>, i: nat)
    requires Ended(rc, ends, slots) && i < |slots|
    requires forall e | E(e) in rc' :: E(e) in rc && LocalOf(e) != slots[i].owner && RemoteOf(e) != slots[i].owner
    ensures Ended(rc', ends, Without(slots, i))
  {
    forall e | E(e) in rc'
      ensures e in ends && Slot(LocalOf(e), N(ends[e].0)) in Without(slots, i) && Slot(RemoteOf(e), N(ends[e].1)) in Without(slots, i)
    {
      StaysIn(slots, i, Slot(LocalOf(e), N(ends[e].0)));
      StaysIn(slots, i, Slot(RemoteOf(e), N(ends[e].1)));
    }
  }

  lemma StaysIn(slots: seq<Slot>, i: nat, s: Slot)
    requires i < |slots| && s in slots && s != slots[i]
    ensures s in Without(slots, i)
  {
    var k :| 0 <= k < |slots| && slots[k] == s;
    assert Without(slots, i)[if k < i then k else k - 1] == s;
  }

  class Heap {
    var rc: map<Obj, nat>               // the allocated objects and their counts
    var ends: map<nat, (nat, nat)>
    var slots: seq<Slot>
    ghost var leaked: multiset<Obj>     // references dropped without being given back

    ghost predicate Valid()
      reads this
    {
      Counted(rc, slots, leaked) && Ended(rc, ends, slots) && Owned(rc, slots, {}) && OnceEach(slots)
    }

    constructor ()
      ensures Valid() && slots == [] && rc == map[] && ends == map[] && leaked == multiset{}
    {
      rc, ends, slots, leaked := map[], map[], [], multiset{};
    }

    // A new node in a graph's list.
    method AddNode(l: nat, n: nat)
      requires Valid() && N(n) !in rc
      modifies this`rc, this`slots
      ensures Valid() && slots == old(slots) + [Slot(InList(l), N(n))] && rc == old(rc)[N(n) := 1]
    {
      hide Counted, Ended, Refs, Owned, OnceEach;
      PutNew(rc, slots, leaked, Slot(InList(l), N(n)));
      EndedMore(rc, rc[N(n) := 1], ends, slots, [Slot(InList(l), N(n))]);
      OwnedMore(rc, rc[N(n) := 1], slots, Slot(InList(l), N(n)));
      rc := rc[N(n) := 1];
      slots := slots + [Slot(InList(l), N(n))];
    }

    // A new edge in a graph's list, which refers to its two ends.
    method AddEdge(l: nat, e: nat, local: nat, remote: nat)
      requires Valid() && E(e) !in rc && N(local) in Refs(slots) && N(remote) in Refs(slots)
      modifies this`rc, this`ends, this`slots
      ensures Valid() && rc.Keys == old(rc).Keys + {E(e)} && ends == old(ends)[e := (local, remote)]
      ensures slots == old(slots) + [Slot(LocalOf(e), N(local)), Slot(RemoteOf(e), N(remote)), Slot(InList(l), E(e))]
    {
      hide Counted, Refs, Ended, Owned, OnceEach;
      ghost var was, rc0, ends0 := slots, rc, ends;
      var s1, s2, s3 := Slot(LocalOf(e), N(local)), Slot(RemoteOf(e), N(remote)), Slot(InList(l), E(e));
      Referred(rc, slots, leaked, N(local));
      Referred(rc, slots, leaked, N(remote));
      PutIn(rc, slots, leaked, s1);
      ends := ends[e := (local, remote)];
      rc := rc[N(local) := rc[N(local)] + 1];
      slots := slots + [s1];
      PutIn(rc, slots, leaked, s2);
      rc := rc[N(remote) := rc[N(remote)] + 1];
      slots := slots + [s2];
      PutNew(rc, slots, leaked, s3);
      rc := rc[E(e) := 1];
      slots := slots + [s3];
      assert slots == was + [s1, s2, s3] && rc.Keys == rc0.Keys + {E(e)};
      EndedNew(rc0, rc, ends0, was, e, local, remote, l);
      OwnedNew(rc0, rc, was, e, local, remote, l);
    }

    // A further reference to an object that is referred to already.
    method Hold(l: nat, x: Obj)
      requires Valid() && x in Refs(slots)
      modifies this`rc, this`slots
      ensures Valid() && slots == old(slots) + [Slot(InList(l), x)]
      ensures x in old(rc) && rc == old(rc)[x := old(rc)[x] + 1]
    {
      hide Counted, Ended, Refs, Owned, OnceEach;
      Referred(rc, slots, leaked, x);
      PutIn(rc, slots, leaked, Slot(InList(l), x));
      EndedMore(rc, rc[x := rc[x] + 1], ends, slots, [Slot(InList(l), x)]);
      OwnedMore(rc, rc[x := rc[x] + 1], slots, Slot(InList(l), x));
      rc := rc[x := rc[x] + 1];
      slots := slots + [Slot(InList(l), x)];
    }

    // An entry dropped without giving its reference back.
    method Forget(i: nat)
      requires Valid() && i < |slots| && slots[i].owner.InList?
      modifies this`slots, this`leaked
      ensures Valid() && slots == Without(old(slots), i) && SameLists(old(slots), slots, {old(slots)[i].owner.l})
      ensures leaked == old(leaked) + multiset{old(slots)[i].ref}
    {
      hide Counted, Ended, Refs, Owned, OnceEach;
      SkipLists(slots, i);
      TakeOut(rc, slots, leaked, i);
      OthersEnded(rc, rc, ends, slots, i);
      OwnedWithout(rc, slots, {}, i);
      leaked := leaked + multiset{slots[i].ref};
      slots := Without(slots, i);
    }

    // An entry dropped and its reference given back.
    method Release(i: nat)
      requires Valid() && i < |slots| && slots[i].owner.InList?
      modifies this`rc, this`slots
      ensures Valid() && |slots| < |old(slots)| && SameLists(Without(old(slots), i), slots, {}) && rc.Keys <= old(rc).Keys
    {
      hide Counted, Ended, Refs, Owned, OnceEach;
      var x := slots[i].ref;
      TakeOut(rc, slots, leaked, i);
      OthersEnded(rc, rc, ends, slots, i);
      OwnedWithout(rc, slots, {}, i);
      slots := Without(slots, i);
      if x.N? {
        NodeRelease(x.n, leaked);
        EndedSame(old(rc), rc, ends, slots);
        OwnedSame(old(rc), rc, slots, {});
      } else {
        EdgeRelease(x.e);
      }
    }

    // Lowers the count of a node and frees it at zero.
    method NodeRelease(n: nat, ghost spare: multiset<Obj>)
      requires Counted(rc, slots, spare + multiset{N(n)})
      modifies this`rc
      ensures Counted(rc, slots, spare) && rc.Keys <= old(rc).Keys
      ensures forall e :: (E(e) in rc <==> E(e) in old(rc)) && (E(e) in rc ==> rc[E(e)] == old(rc)[E(e)])
    {
      hide Counted;
      GiveBack(rc, slots, spare, N(n));
      if rc[N(n)] == 1 {
        rc := rc - {N(n)};
      } else {
        rc := rc[N(n) := rc[N(n)] - 1];
      }
    }

    // Lowers the count of an edge; at zero its ends are released and it is freed.
    method EdgeRelease(e: nat)
      requires Counted(rc, slots, leaked + multiset{E(e)}) && Ended(rc, ends, slots) && Owned(rc, slots, {}) && OnceEach(slots)
      modifies this`rc, this`slots
      ensures Valid() && |slots| <= |old(slots)| && SameLists(old(slots), slots, {}) && rc.Keys <= old(rc).Keys
    {
      hide Counted, Refs, Owned, OnceEach, Ended;
      GiveBack(rc, slots, leaked, E(e));
      if rc[E(e)] > 1 {
        rc := rc[E(e) := rc[E(e)] - 1];
        EndedSame(old(rc), rc, ends, slots);
        OwnedSame(old(rc), rc, slots, {});
        return;
      }
      EndsThere(rc, ends, slots, e);
      var (local, remote) := ends[e];
      OwnedFewer(rc, slots, e);
      EndedSame(rc, rc - {E(e)}, ends, slots);
      rc := rc - {E(e)};
      FreeEnd(Slot(LocalOf(e), N(local)), {LocalOf(e), RemoteOf(e)});
      assert {LocalOf(e), RemoteOf(e)} - {LocalOf(e)} == {RemoteOf(e)};
      FreeEnd(Slot(RemoteOf(e), N(remote)), {RemoteOf(e)});
      assert {RemoteOf(e)} - {RemoteOf(e)} == {};
    }

    // Gives up the reference of a freed edge to one of its ends.
    method FreeEnd(s: Slot, ghost but: set<Owner>)
      requires Counted(rc, slots, leaked) && Ended(rc, ends, slots) && Owned(rc, slots, but) && OnceEach(slots)
      requires s in slots && !s.owner.InList? && E(s.owner.e) !in rc && s.ref.N?
      modifies this`rc, this`slots
      ensures Counted(rc, slots, leaked) && Ended(rc, ends, slots) && Owned(rc, slots, but - {s.owner}) && OnceEach(slots)
      ensures |slots| < |old(slots)| && SameLists(old(slots), slots, {}) && rc.Keys <= old(rc).Keys
      ensures (forall e :: E(e) in rc <==> E(e) in old(rc)) && forall t | t in old(slots) && t != s :: t in slots
    {
      hide Counted, Ended, Refs, Owned, OnceEach;
      DropEnd(s, but);
      NodeRelease(s.ref.n, leaked);
      EndedSame(old(rc), rc, ends, slots);
      OwnedSame(old(rc), rc, slots, but - {s.owner});
    }

    // Takes out the reference of a freed edge to one of its ends.
    method DropEnd(s: Slot, ghost but: set<Owner>)
      requires Counted(rc, slots, leaked) && Ended(rc, ends, slots) && Owned(rc, slots, but) && OnceEach(slots)
      requires s in slots && !s.owner.InList? && E(s.owner.e) !in rc
      modifies this`slots
      ensures Counted(rc, slots, leaked + multiset{s.ref}) && Ended(rc, ends, slots) && Owned(rc, slots, but - {s.owner}) && OnceEach(slots)
      ensures |slots| < |old(slots)| && SameLists(old(slots), slots, {})
      ensures forall t | t in old(slots) && t != s :: t in slots
    {
      hide Counted, Ended, Owned, OnceEach;
      var i := 0;
      while slots[i] != s
        invariant i < |slots| && s !in slots[..i]
        decreases |slots| - i
      {
        i := i + 1;
      }
      SkipLists(slots, i);
      TakeOut(rc, slots, leaked, i);
      OthersEnded(rc, rc, ends, slots, i);
      OwnedWithout(rc, slots, but, i);
      forall t | t in slots && t != s
        ensures t in Without(slots, i)
      {
        StaysIn(slots, i, t);
      }
      slots := Without(slots, i);
    }

    // A copy of a list: a graph cloned, segments or an edge path copied.
    method CopyList(from: nat, to: nat)
      requires Valid() && from != to
      modifies this`rc, this`slots
      ensures Valid() && SameLists(old(slots), slots, {to}) && rc.Keys == old(rc).Keys
      ensures ListOf(slots, to) == old(ListOf(slots, to)) + old(ListOf(slots, from))
    {
      hide Counted, Ended, Owned, OnceEach, ListOf;
      ghost var was := slots;
      var n := |slots|;
      ListEmpty(was[..0], from);
      for i := 0 to n
        invariant Valid() && |slots| >= n && slots[..n] == was && rc.Keys == old(rc).Keys
        invariant SameLists(was, slots, {to}) && ListOf(slots, to) == ListOf(was, to) + ListOf(was[..i], from)
      {
        assert was[..i + 1] == was[..i] + [was[i]] && was[i] == slots[i];
        ListSnoc(was[..i], was[i], from);
        if slots[i].owner == InList(from) {
          CopySlot(was, i, from, to);
        }
      }
      assert was[..n] == was;
    }

    method CopySlot(ghost was: seq<Slot>, i: nat, ghost from: nat, to: nat)
      requires Valid() && i < |was| <= |slots| && slots[..|was|] == was && SameLists(was, slots, {to})
      modifies this`rc, this`slots
      ensures Valid() && |slots| >= |was| && slots[..|was|] == was && SameLists(was, slots, {to}) && rc.Keys == old(rc).Keys
      ensures ListOf(slots, to) == old(ListOf(slots, to)) + [was[i].ref]
    {
      hide Counted, Ended, Owned, OnceEach;
      ghost var before := slots;
      assert slots[i] == was[i];
      RefsMember(slots, slots[i].ref);
      Hold(to, slots[i].ref);
      forall l: nat
        ensures ListOf(slots, l) == ListOf(before, l) + if l == to then [was[i].ref] else []
      {
        ListSnoc(before, Slot(InList(to), was[i].ref), l);
      }
    }

    // A list given up: a clone destroyed, segments or an edge path freed.
    method ReleaseList(l: nat)
      requires Valid()
      modifies this`rc, this`slots
      ensures Valid() && ListOf(slots, l) == [] && SameLists(old(slots), slots, {l}) && rc.Keys <= old(rc).Keys
    {
      hide Counted, Ended, Owned, OnceEach, ListOf;
      var i := 0;
      while i < |slots|
        invariant Valid() && i <= |slots| && SameLists(old(slots), slots, {l}) && rc.Keys <= old(rc).Keys
        invariant forall j | 0 <= j < i :: slots[j].owner != InList(l)
        decreases |slots|, |slots| - i
      {
        if slots[i].owner == InList(l) {
          SkipLists(slots, i);
          Release(i);
          i := 0;
        } else {
          i := i + 1;
        }
      }
      ListEmpty(slots, l);
    }

    // Entries of a list given up: the edges a node is taken out with, or the node itself.
    method ReleaseSome(l: nat, drop: set<Obj>)
      requires Valid()
      modifies this`rc, this`slots
      ensures Valid() && SameLists(old(slots), slots, {l}) && rc.Keys <= old(rc).Keys
      ensures ListOf(slots, l) == Spared(old(ListOf(slots, l)), drop)
    {
      hide Counted, Ended, Owned, OnceEach, ListOf, Spared;
      var i := 0;
      while i < |slots|
        invariant Valid() && i <= |slots| && SameLists(old(slots), slots, {l}) && rc.Keys <= old(rc).Keys
        invariant Spared(ListOf(slots, l), drop) == Spared(old(ListOf(slots, l)), drop)
        invariant forall j | 0 <= j < i :: !(slots[j].owner == InList(l) && slots[j].ref in drop)
        decreases |slots|, |slots| - i
      {
        if slots[i].owner == InList(l) && slots[i].ref in drop {
          SkipLists(slots, i);
          SparedSkip(slots, i, l, drop);
          Release(i);
          i := 0;
        } else {
          i := i + 1;
        }
      }
      SparedAll(slots, l, drop);
    }

    // A graph's node is taken out, if it is there: first the edges from or to it, then the node.
    method RemoveNode(nodes: nat, edges: nat, n: nat)
      requires Valid() && nodes != edges
      modifies this`rc, this`slots
      ensures Valid() && SameLists(old(slots), slots, {nodes, edges}) && rc.Keys <= old(rc).Keys
      ensures ListOf(slots, nodes) == Spared(old(ListOf(slots, nodes)), {N(n)})
      ensures ListOf(slots, edges) == Spared(old(ListOf(slots, edges)), if N(n) in old(ListOf(slots, nodes)) then Joining(old(ends), n) else {})
    {
      hide Counted, Ended, Owned, OnceEach, ListOf, Spared;
      ListMember(slots, nodes, N(n));
      if Slot(InList(nodes), N(n)) !in slots {
        SparedRest(ListOf(slots, nodes), {N(n)});
        SparedRest(ListOf(slots, edges), {});
        return;
      }
      ReleaseSome(edges, Joining(ends, n));
      ReleaseSome(nodes, {N(n)});
    }

    // A copy of a graph with nodes and edges of its own, numbered from base.
    method DeepCopy(nodes: nat, edges: nat, nodes': nat, edges': nat, base: nat)
      requires Valid() && NoDup([nodes, edges, nodes', edges']) && Closed(ListOf(slots, nodes), ListOf(slots, edges), ends)
      requires forall x | x in rc :: Number(x) < base
      modifies this`rc, this`ends, this`slots
      ensures Valid() && SameLists(old(slots), slots, {nodes', edges'})
      ensures ListOf(slots, nodes') == old(ListOf(slots, nodes')) + Shifted(old(ListOf(slots, nodes)), base)
      ensures ListOf(slots, edges') == old(ListOf(slots, edges')) + Shifted(old(ListOf(slots, edges)), base)
      ensures CopiedEnds(old(ListOf(slots, edges)), old(ends), ends, base)
      ensures ends == WithCopies(old(ends), old(ListOf(slots, edges)), base)
      ensures rc.Keys <= old(rc).Keys + Copies(old(ListOf(slots, nodes)), base) + Copies(old(ListOf(slots, edges)), base)
    {
      hide Counted, Ended, Owned, OnceEach, ListOf, Refs;
      FourApart(nodes, edges, nodes', edges');
      var ns, es := ListOf(slots, nodes), ListOf(slots, edges);
      forall x | x in es
        ensures x in rc
      {
        ListedIsReferred(slots, edges, x);
        Referred(rc, slots, leaked, x);
      }
      CopyNodes(ns, nodes', base);
      CopyEdges(es, ns, nodes', edges', base);
    }

    method CopyNodes(ns: seq<Obj>, l: nat, base: nat)
      requires Valid() && NoDup(ns) && (forall x | x in ns :: x.N?) && forall x | x in rc :: Number(x) < base
      modifies this`rc, this`slots
      ensures Valid() && SameLists(old(slots), slots, {l}) && ListOf(slots, l) == old(ListOf(slots, l)) + Shifted(ns, base)
      ensures rc.Keys == old(rc).Keys + Copies(ns, base)
    {
      hide Counted, Ended, Owned, OnceEach, ListOf, Refs;
      for i := 0 to |ns|
        invariant Valid() && SameLists(old(slots), slots, {l}) && ListOf(slots, l) == old(ListOf(slots, l)) + Shifted(ns[..i], base)
        invariant rc.Keys == old(rc).Keys + Copies(ns[..i], base)
      {
        assert ns[i] in ns;
        ShiftedNext(ns, i, base);
        ghost var before := slots;
        AddNode(l, base + ns[i].n);
        AppendedLists(before, Slot(InList(l), N(base + ns[i].n)), l);
      }
      assert ns[..|ns|] == ns;
    }

    method CopyEdges(es: seq<Obj>, ghost ns: seq<Obj>, ghost nodes: nat, l: nat, base: nat)
      requires Valid() && NoDup(es) && nodes != l && EdgesOn(es, ns, ends) && (forall x | x in es && x.E? :: x.e < base)
      requires (forall x | x in Shifted(ns, base) :: x in ListOf(slots, nodes)) && forall x | x in rc && x.E? :: x.e < base
      modifies this`rc, this`ends, this`slots
      ensures Valid() && SameLists(old(slots), slots, {l}) && ListOf(slots, l) == old(ListOf(slots, l)) + Shifted(es, base)
      ensures CopiedEnds(es, old(ends), ends, base)
      ensures ends == WithCopies(old(ends), es, base) && rc.Keys == old(rc).Keys + Copies(es, base)
    {
      hide Counted, Ended, Owned, OnceEach, ListOf, Refs, EdgesOn, CopiedEnds, NoDup, WithCopies;
      CopiedNone(ends, base);
      assert es[..0] == [];
      for i := 0 to |es|
        invariant Valid() && SameLists(old(slots), slots, {l}) && ListOf(slots, l) == old(ListOf(slots, l)) + Shifted(es[..i], base)
        invariant rc.Keys == old(rc).Keys + Copies(es[..i], base)
        invariant CopiedEnds(es[..i], old(ends), ends, base) && ends == WithCopies(old(ends), es[..i], base)
      {
        ShiftedNext(es, i, base);
        EdgeEnds(es, ns, old(ends), ends, base, i);
        var e := es[i].e;
        var (local, remote) := ends[e];
        CopiedNext(es, old(ends), ends, base, i);
        WithCopiesNext(old(ends), es, base, i);
        CopyEdge(ns, nodes, l, base, e, local, remote);
      }
      assert es[..|es|] == es;
    }

    method CopyEdge(ghost ns: seq<Obj>, ghost nodes: nat, l: nat, base: nat, e: nat, local: nat, remote: nat)
      requires Valid() && E(base + e) !in rc && N(local) in ns && N(remote) in ns
      requires forall x | x in Shifted(ns, base) :: x in ListOf(slots, nodes)
      modifies this`rc, this`ends, this`slots
      ensures Valid() && SameLists(old(slots), slots, {l}) && ListOf(slots, l) == old(ListOf(slots, l)) + [E(base + e)]
      ensures rc.Keys == old(rc).Keys + {E(base + e)} && ends == old(ends)[base + e := (base + local, base + remote)]
    {
      hide Counted, Ended, Owned, OnceEach, ListOf, Refs, Shifted;
      ShiftedMember(ns, base, N(local));
      ShiftedMember(ns, base, N(remote));
      ListedIsReferred(slots, nodes, N(base + local));
      ListedIsReferred(slots, nodes, N(base + remote));
      ghost var before := slots;
      AddEdge(l, base + e, base + local, base + remote);
      EdgeLists(before, base + e, base + local, base + remote, l);
    }

    // A pruned list loses entries without giving their references back.
    method PruneList(l: nat, drop: set<Obj>)
      requires Valid()
      modifies this`slots, this`leaked
      ensures Valid() && SameLists(old(slots), slots, {l})
      ensures ListOf(slots, l) == Spared(old(ListOf(slots, l)), drop)
      ensures leaked == old(leaked) + multiset(Dropped(old(ListOf(slots, l)), drop))
    {
      hide Counted, Ended, Owned, OnceEach, ListOf, Spared, Dropped;
      ghost var was, k := slots, 0;
      var i := 0;
      ListEmpty([], l);
      SparedNone(drop);
      assert Dropped([], drop) == [] by { DroppedNone(drop); }
      assert slots[i..] == was[k..] && was[..k] == [] == slots[..i];
      while i < |slots|
        invariant Valid() && i <= |slots| && SameLists(was, slots, {l})
        invariant 0 <= k <= |was| && slots[i..] == was[k..] && ListOf(slots[..i], l) == Spared(ListOf(was[..k], l), drop)
        invariant leaked == old(leaked) + multiset(Dropped(ListOf(was[..k], l), drop))
        decreases |slots| - i
      {
        PruneTurn(slots, was, i, k, l, drop);
        DropTurn(was, k, l, drop);
        if slots[i].owner == InList(l) && slots[i].ref in drop {
          Forget(i);
        } else {
          i := i + 1;
        }
        k := k + 1;
      }
      assert slots[..i] == slots && was[..k] == was;
    }

    // Nothing is freed while it is referred to.
    lemma ReferredIsAllocated(i: nat)
      requires Valid() && i < |slots|
      ensures slots[i].ref in rc && rc[slots[i].ref] == Refs(slots)[slots[i].ref] + leaked[slots[i].ref] > 0
    {
      RefsMember(slots, slots[i].ref);
      assert slots[i].ref in Refs(slots) + leaked;
    }
  }

  // A list without the dropped objects.
  ghost function Spared(xs: seq<Obj>, drop: set<Obj>): seq<Obj> {
    if xs == [] then []
    else
      var last := xs[|xs| - 1];
      Spared(xs[..|xs| - 1], drop) + if last in drop then [] else [last]
  }

  // The dropped ones.
  ghost function Dropped(xs: seq<Obj>, drop: set<Obj>): seq<Obj> {
    if xs == [] then []
    else
      var last := xs[|xs| - 1];
      Dropped(xs[..|xs| - 1], drop) + if last in drop then [last] else []
  }

  lemma DroppedNone(drop: set<Obj>)
    ensures Dropped([], drop) == []
  {
  }

  lemma DroppedSnoc(xs: seq<Obj>, x: Obj, drop: set<Obj>)
    ensures Dropped(xs + [x], drop) == Dropped(xs, drop) + if x in drop then [x] else []
  {
    assert (xs + [x])[..|xs|] == xs;
  }

  lemma DropTurn(was: seq<Slot>, k: nat, l: nat, drop: set<Obj>)
    requires k < |was|
    ensures multiset(Dropped(ListOf(was[..k + 1], l), drop)) ==
            multiset(Dropped(ListOf(was[..k], l), drop)) + if was[k].owner == InList(l) && was[k].ref in drop then multiset{was[k].ref} else multiset{}
  {
    hide ListOf, Dropped;
    assert was[..k + 1] == was[..k] + [was[k]];
    ListSnoc(was[..k], was[k], l);
    DroppedSnoc(ListOf(was[..k], l), was[k].ref, drop);
    assert ListOf(was[..k], l) + [] == ListOf(was[..k], l);
  }

  // Together they are the list.
  lemma {:induction false} SparedAndDropped(xs: seq<Obj>, drop: set<Obj>)
    ensures multiset(xs) == multiset(Spared(xs, drop)) + multiset(Dropped(xs, drop))
    ensures (forall x | x in Spared(xs, drop) :: x !in drop) && forall x | x in Dropped(xs, drop) :: x in drop
  {
    if xs != [] {
      var n := |xs| - 1;
      SparedAndDropped(xs[..n], drop);
      assert xs == xs[..n] + [xs[n]];
    }
  }

  lemma SparedNone(drop: set<Obj>)
    ensures Spared([], drop) == []
  {
  }

  lemma SparedSnoc(xs: seq<Obj>, x: Obj, drop: set<Obj>)
    ensures Spared(xs + [x], drop) == Spared(xs, drop) + if x in drop then [] else [x]
  {
    assert (xs + [x])[..|xs|] == xs;
  }

  lemma {:induction false} SparedRest(xs: seq<Obj>, drop: set<Obj>)
    requires forall x | x in xs :: x !in drop
    ensures Spared(xs, drop) == xs
  {
    if xs != [] {
      SparedRest(xs[..|xs| - 1], drop);
      assert xs[|xs| - 1] in xs;
    }
  }

  // An entry that is dropped anyway may go first.
  lemma {:induction false} SparedSkip(slots: seq<Slot>, i: nat, l: nat, drop: set<Obj>)
    requires i < |slots| && slots[i].owner == InList(l) && slots[i].ref in drop
    ensures Spared(ListOf(Without(slots, i), l), drop) == Spared(ListOf(slots, l), drop)
  {
    hide ListOf, Spared;
    var n := |slots| - 1;
    var init, last := slots[..n], slots[n];
    assert slots == init + [last];
    ListSnoc(init, last, l);
    SparedSnoc(ListOf(init, l), last.ref, drop);
    if i < n {
      SparedSkip(init, i, l, drop);
      assert Without(slots, i) == Without(init, i) + [last];
      ListSnoc(Without(init, i), last, l);
      SparedSnoc(ListOf(Without(init, i), l), last.ref, drop);
      assert ListOf(init, l) + [] == ListOf(init, l) && ListOf(Without(init, i), l) + [] == ListOf(Without(init, i), l);
    } else {
      assert Without(slots, i) == init;
      assert Spared(ListOf(init, l), drop) + [] == Spared(ListOf(init, l), drop);
    }
  }

  lemma SparedAll(slots: seq<Slot>, l: nat, drop: set<Obj>)
    requires forall j | 0 <= j < |slots| :: !(slots[j].owner == InList(l) && slots[j].ref in drop)
    ensures Spared(ListOf(slots, l), drop) == ListOf(slots, l)
  {
    hide Spared, ListOf;
    forall x | x in ListOf(slots, l)
      ensures x !in drop
    {
      ListMember(slots, l, x);
    }
    SparedRest(ListOf(slots, l), drop);
  }

  // One turn of the pruning loop.
  lemma PruneTurn(slots: seq<Slot>, was: seq<Slot>, i: nat, k: nat, l: nat, drop: set<Obj>)
    requires i < |slots| && k <= |was| && slots[i..] == was[k..] && ListOf(slots[..i], l) == Spared(ListOf(was[..k], l), drop)
    ensures k < |was| && was[k] == slots[i]
    ensures var gone := slots[i].owner == InList(l) && slots[i].ref in drop;
      && (gone ==> Without(slots, i)[i..] == was[k + 1..] && ListOf(Without(slots, i)[..i], l) == Spared(ListOf(was[..k + 1], l), drop))
      && (!gone ==> slots[i + 1..] == was[k + 1..] && ListOf(slots[..i + 1], l) == Spared(ListOf(was[..k + 1], l), drop))
  {
    hide ListOf, Spared;
    assert slots[i] == slots[i..][0] == was[k..][0];
    assert slots[i + 1..] == slots[i..][1..] == was[k + 1..];
    assert was[..k + 1] == was[..k] + [was[k]] && slots[..i + 1] == slots[..i] + [slots[i]];
    ListSnoc(was[..k], was[k], l);
    ListSnoc(slots[..i], slots[i], l);
    SparedSnoc(ListOf(was[..k], l), was[k].ref, drop);
    assert Without(slots, i)[..i] == slots[..i] && Without(slots, i)[i..] == slots[i + 1..];
    var a, b := ListOf(slots[..i], l), ListOf(was[..k], l);
    assert a + [] == a && b + [] == b && Spared(b, drop) + [] == Spared(b, drop);
  }

  lemma Referred(rc: map<Obj, nat>, slots: seq<Slot>, spare: multiset<Obj>, x: Obj)
    requires Counted(rc, slots, spare) && x in Refs(slots)
    ensures x in rc
  {
    assert x in Refs(slots) + spare;
  }

  lemma EndedSame(rc: map<Obj, nat>, rc': map<Obj, nat>, ends: map<nat, (nat, nat)>, slots: seq<Slot>)
    requires Ended(rc, ends, slots) && forall e | E(e) in rc' :: E(e) in rc
    ensures Ended(rc', ends, slots)
  {
  }

  lemma EndsThere(rc: map<Obj, nat>, ends: map<nat, (nat, nat)>, slots: seq<Slot>, e: nat)
    requires Ended(rc, ends, slots) && E(e) in rc
    ensures e in ends && Slot(LocalOf(e), N(ends[e].0)) in slots && Slot(RemoteOf(e), N(ends[e].1)) in slots
  {
  }

  lemma EndedNew(rc: map<Obj, nat>, rc': map<Obj, nat>, ends: map<nat, (nat, nat)>, slots: seq<Slot>, e: nat, local: nat, remote: nat, l: nat)
    requires Ended(rc, ends, slots) && E(e) !in rc && forall f | E(f) in rc' :: E(f) in rc || f == e
    ensures Ended(rc', ends[e := (local, remote)], slots + [Slot(LocalOf(e), N(local)), Slot(RemoteOf(e), N(remote)), Slot(InList(l), E(e))])
  {
  }

  // ------------------------------------------------------------ deep copies

  function Number(x: Obj): nat {
    if x.N? then x.n else x.e
  }

  function Renumbered(x: Obj, base: nat): Obj {
    if x.N? then N(base + x.n) else E(base + x.e)
  }

  ghost function Shifted(xs: seq<Obj>, base: nat): (ys: seq<Obj>)
    ensures |ys| == |xs| && forall i | 0 <= i < |xs| :: ys[i] == Renumbered(xs[i], base)
  {
    seq(|xs|, i requires 0 <= i < |xs| => Renumbered(xs[i], base))
  }

  lemma FourApart(a: nat, b: nat, c: nat, d: nat)
    requires NoDup([a, b, c, d])
    ensures a != b && a != c && a != d && b != c && b != d && c != d
  {
    var s := [a, b, c, d];
    assert s[0] == a && s[1] == b && s[2] == c && s[3] == d;
  }

  // A graph's lists: nodes, and edges between them, each once.
  ghost predicate Closed(ns: seq<Obj>, es: seq<Obj>, ends: map<nat, (nat, nat)>) {
    NoDup(ns) && NoDup(es) && (forall x | x in ns :: x.N?) && EdgesOn(es, ns, ends)
  }

  ghost function Copies(xs: seq<Obj>, base: nat): set<Obj> {
    set x | x in Shifted(xs, base)
  }

  // The ends of all edges once those of the list have copies.
  ghost function WithCopies(ends: map<nat, (nat, nat)>, es: seq<Obj>, base: nat): map<nat, (nat, nat)> {
    if es == [] then ends
    else
      var x, before := es[|es| - 1], WithCopies(ends, es[..|es| - 1], base);
      if x.E? && x.e in ends then before[base + x.e := (base + ends[x.e].0, base + ends[x.e].1)] else before
  }

  lemma WithCopiesNext(ends: map<nat, (nat, nat)>, es: seq<Obj>, base: nat, i: nat)
    requires i < |es| && es[i].E? && es[i].e in ends
    ensures WithCopies(ends, es[..i + 1], base)
         == WithCopies(ends, es[..i], base)[base + es[i].e := (base + ends[es[i].e].0, base + ends[es[i].e].1)]
  {
    assert es[..i + 1][..i] == es[..i];
  }

  // The list has edges between the nodes only.
  ghost predicate EdgesOn(es: seq<Obj>, ns: seq<Obj>, ends: map<nat, (nat, nat)>) {
    forall x | x in es :: x.E? && x.e in ends && N(ends[x.e].0) in ns && N(ends[x.e].1) in ns
  }

  // The copies of the edges join the copies of their ends, and the edges are as they were.
  ghost predicate CopiedEnds(es: seq<Obj>, ends: map<nat, (nat, nat)>, ends': map<nat, (nat, nat)>, base: nat) {
    && (forall x | x in es :: x.E? && x.e in ends && base + x.e in ends' && ends'[base + x.e] == (base + ends[x.e].0, base + ends[x.e].1))
    && (forall e | e in ends && e < base :: e in ends' && ends'[e] == ends[e])
  }

  lemma CopiedNone(ends: map<nat, (nat, nat)>, base: nat)
    ensures CopiedEnds([], ends, ends, base) && WithCopies(ends, [], base) == ends
  {
  }

  lemma EdgeEnds(es: seq<Obj>, ns: seq<Obj>, ends: map<nat, (nat, nat)>, ends': map<nat, (nat, nat)>, base: nat, i: nat)
    requires EdgesOn(es, ns, ends) && i < |es| && CopiedEnds(es[..i], ends, ends', base) && (es[i].E? ==> es[i].e < base)
    ensures es[i].E? && es[i].e in ends && es[i].e in ends' && ends'[es[i].e] == ends[es[i].e]
    ensures N(ends[es[i].e].0) in ns && N(ends[es[i].e].1) in ns
  {
    assert es[i] in es;
  }

  lemma CopiedNext(es: seq<Obj>, ends: map<nat, (nat, nat)>, ends': map<nat, (nat, nat)>, base: nat, i: nat)
    requires i < |es| && es[i].E? && es[i].e in ends && CopiedEnds(es[..i], ends, ends', base) && NoDup(es)
    ensures CopiedEnds(es[..i + 1], ends, ends'[base + es[i].e := (base + ends[es[i].e].0, base + ends[es[i].e].1)], base)
  {
    assert es[..i + 1] == es[..i] + [es[i]];
  }

  lemma ShiftedNext(xs: seq<Obj>, i: nat, base: nat)
    requires i < |xs| && NoDup(xs)
    ensures Shifted(xs[..i + 1], base) == Shifted(xs[..i], base) + [Renumbered(xs[i], base)]
    ensures Renumbered(xs[i], base) !in Shifted(xs[..i], base)
  {
  }

  lemma ShiftedMember(xs: seq<Obj>, base: nat, x: Obj)
    requires x in xs
    ensures Renumbered(x, base) in Shifted(xs, base)
  {
    var i :| 0 <= i < |xs| && xs[i] == x;
    assert Shifted(xs, base)[i] == Renumbered(x, base);
  }

  lemma ListedIsReferred(slots: seq<Slot>, l: nat, x: Obj)
    requires x in ListOf(slots, l)
    ensures x in Refs(slots)
  {
    ListMember(slots, l, x);
    RefsMember(slots, x);
  }

  lemma AppendedLists(slots: seq<Slot>, s: Slot, l: nat)
    requires s.owner == InList(l)
    ensures SameLists(slots, slots + [s], {l}) && ListOf(slots + [s], l) == ListOf(slots, l) + [s.ref]
  {
    forall k: nat
      ensures ListOf(slots + [s], k) == ListOf(slots, k) + if k == l then [s.ref] else []
    {
      ListSnoc(slots, s, k);
    }
  }

  lemma EdgeLists(slots: seq<Slot>, e: nat, local: nat, remote: nat, l: nat)
    ensures var slots' := slots + [Slot(LocalOf(e), N(local)), Slot(RemoteOf(e), N(remote)), Slot(InList(l), E(e))];
      SameLists(slots, slots', {l}) && ListOf(slots', l) == ListOf(slots, l) + [E(e)]
  {
    var s1, s2, s3 := Slot(LocalOf(e), N(local)), Slot(RemoteOf(e), N(remote)), Slot(InList(l), E(e));
    assert slots + [s1, s2, s3] == slots + [s1] + [s2] + [s3];
    forall k: nat
      ensures ListOf(slots + [s1, s2, s3], k) == ListOf(slots, k) + if k == l then [E(e)] else []
    {
      ListSnoc(slots, s1, k);
      ListSnoc(slots + [s1], s2, k);
      ListSnoc(slots + [s1] + [s2], s3, k);
    }
  }
}
