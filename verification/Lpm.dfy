/**
 * The longest-prefix-match tree object of lpm.c, working on node records in memory.
 */
module Lpm {
  import opened Basics
  import opened Tries
  import opened TrieEdits
  import opened TrieDefault
  import opened TrieDelete
  import opened TrieStore
  import opened TrieSlots
  import opened Memory

  method CommonPrefixLen(a: Addr, b: Addr, max: Len) returns (i: Len)
    ensures i == CommonLen(a, b, max)
  {
    i := 0;
    while i < max && a[i] == b[i]
      invariant 0 <= i <= max && Agree(a, b, 0, i)
      invariant CommonLen(a, b, max, i) == CommonLen(a, b, max)
    {
      i := i + 1;
    }
  }

  class LpmTree {
    var store: Store
    const head: Ref
    ghost var tree: Trie

    ghost predicate Valid()
      reads this
    {
      Good(tree) && tree.ref == head && Spells(store, Top, tree)
    }

    // The stored prefixes and their values.
    ghost function Contents(): map<Bits, int>
      reads this
    {
      Entries(tree)
    }

    constructor (memory: Ref)
      requires memory != NONE
      ensures Valid() && Contents() == map[]
    {
      var zeros: Addr := seq(WIDTH, _ => false);
      head := memory;
      store := map[memory := Cell(Null, zeros, 0, NONE, NONE, NONE)];
      tree := Node(memory, Null, zeros, 0, Empty, Empty);
      new;
      assert Sound(Empty) && Canonical(Empty) && NoNull(Empty) && Apart(Empty);
      assert Refs(tree) == {memory} && Holds(store, Empty, memory);
      assert Entries(Empty) == map[];
    }

    // The child's record is there and its bits beyond the parent's are those of addr.
    predicate MatchNode(node: Ref, addr: Addr, from: Len): (r: bool)
      reads this`store
      requires node in store
      ensures r <==> Agree(store[node].prefix, addr, from, store[node].plen)
    {
      store[node].plen == 0 || Agree(store[node].prefix, addr, from, store[node].plen)
    }

    // The value of the longest stored prefix of the address.
    method Lookup(addr: Addr) returns (r: Option<int>)
      requires Valid()
      ensures LongestMatch(Contents(), addr, r)
    {
      var cur, last := head, head;
      ghost var p, t := Top, tree;
      LookupIsLongestMatch(tree, addr);
      ReadNode(store, p, t);
      hide Spells, Good, LongestMatch, Entries, Agree, MatchNode;
      while true
        invariant Spells(store, p, t) && t.Node? && cur == t.ref
        invariant last in store && !store[last].data.Virtual?
        invariant Find(t, addr, store[last].data) == Find(tree, addr, Null)
        decreases t
      {
        ReadNode(store, p, t);
        if !store[cur].data.Virtual? {
          last := cur;
        }
        var plen, c0, c1 := store[cur].plen, store[cur].zero, store[cur].one;
        if c0 != NONE && MatchNode(c0, addr, plen) {
          Enter(store, p, t, false);
          cur, p, t := c0, Under(p, t, false), t.zero;
        } else if c1 != NONE && MatchNode(c1, addr, plen) {
          Enter(store, p, t, true);
          cur, p, t := c1, Under(p, t, true), t.one;
        } else {
          break;
        }
      }
      r := if store[last].data.Value? then Some(store[last].data.v) else None;
    }

    // The record that stands for prefix/plen, if any, and where the walk for it ends.
    method LookupExact(prefix: Addr, plen: Len) returns (found: Ref, save: Ref, ghost p: Place, ghost t: Trie)
      requires Valid()
      ensures (p, t) == Walk(Top, tree, prefix, plen)
      ensures Spells(store, p, t) && t.Node? && save == t.ref && t.plen <= plen
      ensures Sound(t) && Stops(t, prefix, plen) && Passed(p, prefix, plen) && Plug(p, t) == tree
      ensures found == (if t.plen == plen && !t.data.Virtual? then save else NONE)
    {
      hide Spells, Sound;
      var cur := head;
      p, t := Top, tree;
      found := NONE;
      WalkStops(Top, tree, prefix, plen);
      while true
        invariant Spells(store, p, t) && t.Node? && cur == t.ref && t.plen <= plen
        invariant Walk(p, t, prefix, plen) == Walk(Top, tree, prefix, plen)
        decreases t
      {
        ReadNode(store, p, t);
        if MatchNode(cur, prefix, 0) && store[cur].plen == plen && !store[cur].data.Virtual? {
          found := cur;
          break;
        }
        var from, c0, c1 := store[cur].plen, store[cur].zero, store[cur].one;
        if c0 != NONE && store[c0].plen <= plen && MatchNode(c0, prefix, from) {
          Enter(store, p, t, false);
          cur, p, t := c0, Under(p, t, false), t.zero;
        } else if c1 != NONE && store[c1].plen <= plen && MatchNode(c1, prefix, from) {
          Enter(store, p, t, true);
          cur, p, t := c1, Under(p, t, true), t.one;
        } else {
          break;
        }
      }
      save := cur;
    }

    // Stores a value for prefix/plen, in records at node and fork where new ones are needed.
    method Insert(prefix: Addr, plen: Len, v: int, node: Ref, fork: Ref) returns (r: Ref)
      requires Valid() && node !in store && fork !in store && node != fork && node != NONE && fork != NONE
      modifies this
      ensures tree == TrieEdits.Insert(old(tree), prefix, plen, v, node, fork) && Spells(store, Top, tree)
      ensures Valid() <==> FitsContents(old(Contents()), prefix, plen)
      ensures Valid() ==> Contents() == old(Contents())[prefix[..plen] := v]
      ensures r in store && store[r].data == Value(v) && store[r].plen == plen && Agree(store[r].prefix, prefix, 0, plen)
    {
      ghost var p, t;
      var found, save;
      found, save, p, t := LookupExact(prefix, plen);
      InsertRefinesMap(tree, prefix, plen, v, node, fork);
      FitsByContents(tree, prefix, plen);
      InsertKeepsKey(t, prefix, plen, v, node, fork);
      hide Spells, Sound, Walk, InsertFits, FitsContents, Canonical, IsHead, Entries, Passed, Plug;
      assert t.plen == plen ==> InsertAt(t, prefix, plen, v, node, fork) == t.(data := Value(v));
      ReadNode(store, p, t);
      if store[save].plen == plen {
        assert found == NONE ==> store[save].data.Virtual?;
        r := save;
        SpellData(store, p, t, Value(v));
        store := store[save := store[save].(data := Value(v))];
      } else {
        r := InsertBelow(save, prefix, plen, v, node, fork, p, t);
      }
      hide InsertAt;
      tree := Plug(p, InsertAt(t, prefix, plen, v, node, fork));
      FocusAll(store, p, InsertAt(t, prefix, plen, v, node, fork));
      PlugRef(p, t, InsertAt(t, prefix, plen, v, node, fork));
    }

    // The part of the insertion that adds records below save.
    method InsertBelow(save: Ref, prefix: Addr, plen: Len, v: int, node: Ref, fork: Ref, ghost p: Place, ghost t: Trie) returns (r: Ref)
      requires Spells(store, p, t) && t.Node? && save == t.ref && t.plen < plen
      requires Sound(t) && Stops(t, prefix, plen)
      requires node !in store && fork !in store && node != fork && node != NONE && fork != NONE
      modifies this`store
      ensures Spells(store, p, InsertAt(t, prefix, plen, v, node, fork))
      ensures r in store && store[r].data == Value(v) && store[r].plen == plen && store[r].prefix == prefix
    {
      hide Spells, Sound;
      ReadNode(store, p, t);
      StopsBlocks(t, prefix, plen);
      var b := prefix[store[save].plen];
      var child := if b then store[save].one else store[save].zero;
      r := node;
      if child == NONE {
        HangLeaf(save, b, prefix, plen, v, node, p, t);
        return;
      }
      ghost var c := Child(t, b);
      SharedIsBetween(c, prefix, plen, t.plen);
      var cplen := CommonPrefixLen(store[child].prefix, prefix, plen);
      assert cplen > 0;
      if cplen == plen {
        HangOver(save, b, child, prefix, plen, v, node, p, t);
      } else {
        assert cplen < plen;
        HangFork(save, b, child, prefix, plen, cplen, v, node, fork, p, t);
      }
    }

    // The slot is free.
    method HangLeaf(save: Ref, b: bool, prefix: Addr, plen: Len, v: int, node: Ref, ghost p: Place, ghost t: Trie)
      requires Spells(store, p, t) && t.Node? && save == t.ref && Child(t, b).Empty? && node !in store && node != NONE
      modifies this`store
      ensures Spells(store, p, WithChild(t, b, Node(node, Value(v), prefix, plen, Empty, Empty)))
      ensures node in store && store[node].data == Value(v) && store[node].plen == plen && store[node].prefix == prefix
    {
      hide Spells;
      ghost var m := store;
      ReadNode(store, p, t);
      store := store[node := Cell(Value(v), prefix, plen, save, NONE, NONE)];
      store := store[save := Rechild(store[save], b, node)];
      SpellLeaf(m, store, p, t, b, Node(node, Value(v), prefix, plen, Empty, Empty));
    }

    // The new prefix covers the child.
    method HangOver(save: Ref, b: bool, child: Ref, prefix: Addr, plen: Len, v: int, node: Ref, ghost p: Place, ghost t: Trie)
      requires Spells(store, p, t) && t.Node? && save == t.ref && Child(t, b).Node? && child == Child(t, b).ref
      requires node !in store && node != NONE
      modifies this`store
      ensures Spells(store, p, WithChild(t, b, WithChild(Node(node, Value(v), prefix, plen, Empty, Empty), SlotBit(prefix, plen), Child(t, b))))
      ensures node in store && store[node].data == Value(v) && store[node].plen == plen && store[node].prefix == prefix
    {
      hide Spells;
      ghost var m := store;
      assert child in store && child != save && save in store by { ChildParts(store, p, t, b); }
      var s := SlotBit(prefix, plen);
      store := store[node := Rechild(Cell(Value(v), prefix, plen, save, NONE, NONE), s, child)];
      store := store[child := store[child].(parent := node)];
      store := store[save := Rechild(store[save], b, node)];
      SpellCover(m, store, p, t, b, Node(node, Value(v), prefix, plen, Empty, Empty), s);
    }

    // The new prefix and the child part after cplen bits, at a virtual node.
    method HangFork(save: Ref, b: bool, child: Ref, prefix: Addr, plen: Len, cplen: Len, v: int, node: Ref, fork: Ref, ghost p: Place, ghost t: Trie)
      requires Spells(store, p, t) && t.Node? && save == t.ref && Child(t, b).Node? && child == Child(t, b).ref
      requires node !in store && fork !in store && node != fork && node != NONE && fork != NONE
      requires cplen == CommonLen(Child(t, b).prefix, prefix, plen) < plen
      modifies this`store
      ensures Spells(store, p, WithChild(t, b, Displaced(Child(t, b), prefix, plen, v, node, fork)))
      ensures node in store && store[node].data == Value(v) && store[node].plen == plen && store[node].prefix == prefix
    {
      hide Spells, CommonLen;
      ghost var m := store;
      assert child in store && child != save && save in store by { ChildParts(store, p, t, b); }
      var s := SlotBit(prefix, cplen);
      store := store[node := Cell(Value(v), prefix, plen, fork, NONE, NONE)];
      store := store[fork := if s then Cell(Virtual, prefix, cplen, save, child, node) else Cell(Virtual, prefix, cplen, save, node, child)];
      store := store[child := store[child].(parent := fork)];
      store := store[save := Rechild(store[save], b, fork)];
      SpellFork(m, store, p, t, b, Node(node, Value(v), prefix, plen, Empty, Empty), Displaced(Child(t, b), prefix, plen, v, node, fork));
    }

    // The node takes over everything from its only child, whose record is freed.
    method MergeChild(node: Ref, b: bool, ghost p: Place, ghost t: Trie)
      requires Spells(store, p, t) && t.Node? && node == t.ref && Child(t, b).Node? && Child(t, !b).Empty?
      modifies this`store
      ensures Spells(store, p, Merged(t, Child(t, b))) && store.Keys < old(store.Keys)
    {
      hide Spells;
      ghost var m := store;
      ReadNode(store, p, t);
      SpellMerge(store, p, t, b);
      assert Child(t, b).ref != t.ref by { ChildParts(store, p, t, b); }
      var child := if b then store[node].one else store[node].zero;
      var c := store[child];
      store := store[node := c.(parent := store[node].parent)];
      if c.zero != NONE {
        store := Reparented(store, c.zero, node);
      }
      if c.one != NONE {
        store := Reparented(store, c.one, node);
      }
      store := store - {child};
      assert store == MergedStore(m, node, child);
      assert child in m.Keys && child !in store.Keys && store.Keys <= m.Keys;
    }

    // A childless node goes, and its parent's slot is cleared.
    method DropEmpty(node: Ref, ghost p: Place, ghost t: Trie)
      requires Spells(store, p, t) && t.Node? && node == t.ref && t.zero.Empty? && t.one.Empty? && p.Below?
      modifies this`store
      ensures Spells(store, p.up, Joined(p, Empty)) && store.Keys < old(store.Keys)
    {
      hide Spells;
      ghost var m := store;
      ReadNode(store, p, t);
      ReadParent(store, p, t);
      SpellDrop(store, p, t);
      var parent := store[node].parent;
      var slot := store[parent].zero != node;
      store := store[parent := Rechild(store[parent], slot, NONE)];
      store := store - {node};
      assert node in m.Keys && node !in store.Keys && store.Keys <= m.Keys;
    }

    // What the children of a virtual node share, to which the node would be lengthened: it is
    // never more than the node stands for, so the record stays as it is.
    method OptimizePlen(node: Ref, ghost p: Place, ghost t: Trie) returns (cplen: Len)
      requires Spells(store, p, t) && Sound(t) && t.Node? && node == t.ref && t.zero.Node? && t.one.Node?
      ensures cplen == t.plen
    {
      hide Spells, Sound;
      ReadNode(store, p, t);
      ForkIsTight(t);
      var a, b := store[store[node].zero], store[store[node].one];
      cplen := CommonPrefixLen(a.prefix, b.prefix, if a.plen < b.plen then a.plen else b.plen);
      assert cplen == store[node].plen;
    }

    // Restores the canonical form where the focused node may be a virtual one with fewer than two children.
    method OptimizeVirtual(node: Ref, ghost p: Place, ghost t: Trie)
      requires Spells(store, p, t) && Almost(p, t) && node == t.ref && Plug(p, t).ref == head
      modifies this
      ensures Valid() && Contents() == Entries(Plug(p, t)) && store.Keys <= old(store.Keys)
      decreases store.Keys
    {
      hide Spells, Sound, Canonical, Entries, IsHead, CanonicalAround, Plug;
      ReadNode(store, p, t);
      if !store[node].data.Virtual? {
        AlmostDone(p, t);
        tree := Plug(p, t);
        FocusAll(store, p, t);
        return;
      }
      VirtualIsBelow(p, t);
      var parent, zero, one := store[node].parent, store[node].zero, store[node].one;
      if zero != NONE && one != NONE {
        SoundPlug(p, t);
        var cplen := OptimizePlen(node, p, t);
        AlmostDone(p, t);
        tree := Plug(p, t);
        FocusAll(store, p, t);
      } else if zero != NONE || one != NONE {
        ghost var b := one != NONE;
        MergeStep(p, t, b);
        PlugRef(p, t, Merged(t, Child(t, b)));
        MergeChild(node, one != NONE, p, t);
        OptimizeVirtual(node, p, Merged(t, Child(t, b)));
      } else {
        DropStep(p, t);
        JoinedRef(p, t);
        DropEmpty(node, p, t);
        OptimizeVirtual(parent, p.up, Joined(p, Empty));
      }
    }

    // Takes prefix/plen out and returns the value it had.
    method Delete(prefix: Addr, plen: Len) returns (r: Option<int>)
      requires Valid() && plen > 0
      modifies this
      ensures Valid() && Contents() == old(Contents()) - {prefix[..plen]} && store.Keys <= old(store.Keys)
      ensures r == if prefix[..plen] in old(Contents()) then Some(old(Contents())[prefix[..plen]]) else None
    {
      hide Spells, Sound, Canonical, Entries, IsHead, Plug, Walk, Stops, Passed;
      ghost var p, t;
      var found, save;
      found, save, p, t := LookupExact(prefix, plen);
      StoredWhere(p, t, prefix, plen);
      HeadPlug(p, t);
      ReadNode(store, p, t);
      if found == NONE {
        return None;
      }
      r := if store[found].data.Value? then Some(store[found].data.v) else None;
      MarkStep(p, t);
      SpellData(store, p, t, Virtual);
      PlugRef(p, t, t.(data := Virtual));
      store := store[found := store[found].(data := Virtual)];
      OptimizeVirtual(found, p, t.(data := Virtual));
    }

    // Deletes the empty prefix from a tree that has more: the head becomes virtual, and takes over
    // an only child.
    method DeleteDefault() returns (r: Option<int>)
      requires Valid() && (tree.zero.Node? || tree.one.Node?)
      modifies this
      ensures Spells(store, Top, tree) && tree == AfterDefaultDelete(old(tree)) && RootOf(tree) == head
      ensures r == if [] in old(Contents()) then Some(old(Contents())[[]]) else None
    {
      ghost var t, h := tree, tree.(data := Virtual);
      ReadNode(store, Top, t);
      DefaultIsOwn(t);
      r := if store[head].data.Value? then Some(store[head].data.v) else None;
      SpellData(store, Top, t, Virtual);
      AfterDefaultParts(t);
      store := store[head := store[head].(data := Virtual)];
      tree := AfterDefaultDelete(t);
      ReadNode(store, Top, h);
      if store[head].zero == NONE || store[head].one == NONE {
        MergeChild(head, store[head].one != NONE, Top, h);
      }
      ReadNode(store, Top, tree);
      if store[head].data.Virtual? {
        var cplen := OptimizePlen(head, Top, tree);
      }
    }
  }

  // The empty prefix is stored in the head.
  lemma DefaultIsOwn(t: Trie)
    requires Good(t)
    ensures [] in Entries(t) <==> t.data.Value?
    ensures t.data.Value? ==> Entries(t)[[]] == t.data.v
  {
    EntryWhere(t, []);
    assert Key(t) == [];
    if [] in Entries(t.zero) { EntryInChild(t, false, []); }
    if [] in Entries(t.one) { EntryInChild(t, true, []); }
  }

  lemma ReadParent(m: Store, p: Place, t: Trie)
    requires Spells(m, p, t) && t.Node? && p.Below?
    ensures p.ref in m && p.ref != t.ref && (p.b <==> m[p.ref].zero != t.ref)
  {
    assert t.ref in Refs(t);
    assert p.other.Node? ==> p.other.ref in Refs(p.other);
  }

  lemma JoinedRef(p: Place, t: Trie)
    requires p.Below?
    ensures Plug(p, t).Node? && Plug(p.up, Joined(p, Empty)).Node?
    ensures Plug(p.up, Joined(p, Empty)).ref == Plug(p, t).ref
  {
    PlugRef(p.up, Joined(p, t), Joined(p, Empty));
  }

  lemma {:induction false} PlugRef(p: Place, t: Trie, t': Trie)
    requires t.Node? && t'.Node? && t'.ref == t.ref
    ensures Plug(p, t).Node? && Plug(p, t').Node? && Plug(p, t').ref == Plug(p, t).ref
    decreases p
  {
    if p.Below? {
      PlugRef(p.up, Joined(p, t), Joined(p, t'));
    }
  }

  lemma Enter(m: Store, p: Place, t: Trie, b: bool)
    requires Spells(m, p, t) && t.Node?
    ensures Spells(m, Under(p, t, b), Child(t, b))
  {
    UnderJoins(p, t, b);
    Focus(m, Under(p, t, b), Child(t, b));
  }

  // ------------------------------------------------------------ whole runs

  datatype Op = Put(prefix: Addr, plen: Len, v: int) | Take(prefix: Addr, plen: Len) | Ask(addr: Addr)

  ghost function Applied(m: map<Bits, int>, op: Op): map<Bits, int> {
    match op
    case Put(prefix, plen, v) => m[prefix[..plen] := v]
    case Take(prefix, plen) => m - {prefix[..plen]}
    case Ask(_) => m
  }

  // The stored prefixes after a run, as a map.
  ghost function Stored(ops: seq<Op>): map<Bits, int> {
    if ops == [] then map[] else Applied(Stored(ops[..|ops| - 1]), ops[|ops| - 1])
  }

  // The operation is one the tree serves after the run.
  ghost predicate Served(ops: seq<Op>, op: Op) {
    match op
    case Put(prefix, plen, _) => FitsContents(Stored(ops), prefix, plen)
    case Take(_, plen) => plen > 0
    case Ask(_) => true
  }

  lemma StoredNext(ops: seq<Op>, op: Op)
    ensures Stored(ops + [op]) == Applied(Stored(ops), op)
  {
    assert (ops + [op])[..|ops|] == ops;
  }

  ghost predicate Serving(tree: LpmTree, past: seq<Op>)
    reads tree
  {
    tree.Valid() && tree.Contents() == Stored(past)
  }

  method Serve(tree: LpmTree, ghost past: seq<Op>, op: Op) returns (answer: Option<int>)
    requires Serving(tree, past) && Served(past, op)
    modifies tree
    ensures Serving(tree, past + [op])
    ensures op.Ask? ==> LongestMatch(Stored(past), op.addr, answer)
  {
    hide Stored, LongestMatch, FitsContents, Good, Spells;
    StoredNext(past, op);
    answer := None;
    match op
    case Put(prefix, plen, v) =>
      var node := Allocate(tree.store.Keys, NONE);
      var fork := Allocate(tree.store.Keys, node);
      var r := tree.Insert(prefix, plen, v, node, fork);
    case Take(prefix, plen) =>
      answer := tree.Delete(prefix, plen);
    case Ask(addr) =>
      answer := tree.Lookup(addr);
  }

  method Start() returns (tree: LpmTree)
    ensures fresh(tree) && Serving(tree, [])
  {
    tree := new LpmTree(1);
  }

  // Any run of insertions, deletions and lookups: each lookup is answered by the longest prefix
  // of its address among those then stored.
  method Replay(ops: seq<Op>) returns (answers: seq<Option<int>>)
    requires forall i | 0 <= i < |ops| :: Served(ops[..i], ops[i])
    ensures |answers| == |ops|
    ensures forall i | 0 <= i < |ops| && ops[i].Ask? :: LongestMatch(Stored(ops[..i]), ops[i].addr, answers[i])
  {
    hide LongestMatch, Served, Serving, Stored;
    var tree := Start();
    answers := [];
    assert ops[..0] == [];
    for i := 0 to |ops|
      invariant fresh(tree) && Serving(tree, ops[..i]) && |answers| == i
      invariant forall j | 0 <= j < i && ops[j].Ask? :: LongestMatch(Stored(ops[..j]), ops[j].addr, answers[j])
    {
      var answer := Serve(tree, ops[..i], ops[i]);
      assert ops[..i + 1] == ops[..i] + [ops[i]];
      answers := answers + [answer];
    }
  }
}
