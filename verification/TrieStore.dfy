/**
 * The node records of lpm.c in memory, and what it means that they spell out a trie.
 */
module TrieStore {
  import opened Tries
  import opened TrieEdits
  import opened TrieDelete

  // One node record.
  datatype Cell = Cell(data: Data, prefix: Addr, plen: Len, parent: Ref, zero: Ref, one: Ref)

  type Store = map<Ref, Cell>

  function RootOf(t: Trie): Ref {
    if t.Empty? then NONE else t.ref
  }

  function ParentOf(p: Place): Ref {
    if p.Top? then NONE else p.ref
  }

  // The record of a node below the given parent.
  ghost function CellOf(t: Trie, parent: Ref): Cell
    requires t.Node?
  {
    Cell(t.data, t.prefix, t.plen, parent, RootOf(t.zero), RootOf(t.one))
  }

  ghost function Refs(t: Trie): set<Ref> {
    if t.Empty? then {} else {t.ref} + Refs(t.zero) + Refs(t.one)
  }

  ghost function RefsAround(p: Place): set<Ref> {
    if p.Top? then {} else {p.ref} + Refs(p.other) + RefsAround(p.up)
  }

  // No record serves twice, and none is at the null address.
  ghost predicate Apart(t: Trie) {
    t.Empty? ||
    (t.ref != NONE && t.ref !in Refs(t.zero) && t.ref !in Refs(t.one) && Refs(t.zero) !! Refs(t.one)
     && Apart(t.zero) && Apart(t.one))
  }

  ghost predicate ApartAround(p: Place) {
    p.Top? ||
    (p.ref != NONE && p.ref !in Refs(p.other) && p.ref !in RefsAround(p.up) && Refs(p.other) !! RefsAround(p.up)
     && Apart(p.other) && ApartAround(p.up))
  }

  // The records of t, linked down and up.
  ghost predicate Holds(m: Store, t: Trie, parent: Ref) {
    t.Empty? ||
    (t.ref in m && m[t.ref] == CellOf(t, parent) && Holds(m, t.zero, t.ref) && Holds(m, t.one, t.ref))
  }

  // The record of the node above, with child r in the slot of the place.
  ghost function FrameCell(p: Place, r: Ref): Cell
    requires p.Below?
  {
    if p.b then Cell(p.data, p.prefix, p.plen, ParentOf(p.up), RootOf(p.other), r)
    else Cell(p.data, p.prefix, p.plen, ParentOf(p.up), r, RootOf(p.other))
  }

  ghost predicate HoldsAround(m: Store, p: Place, r: Ref) {
    p.Top? ||
    (p.ref in m && m[p.ref] == FrameCell(p, r) && Holds(m, p.other, p.ref) && HoldsAround(m, p.up, p.ref))
  }

  // Memory spells out the trie with t at place p, and holds nothing else.
  ghost predicate Spells(m: Store, p: Place, t: Trie) {
    && Apart(t) && ApartAround(p) && Refs(t) !! RefsAround(p)
    && Holds(m, t, ParentOf(p)) && HoldsAround(m, p, RootOf(t))
    && m.Keys == Refs(t) + RefsAround(p)
  }

  lemma Focus(m: Store, p: Place, t: Trie)
    requires p.Below?
    ensures Spells(m, p, t) <==> Spells(m, p.up, Joined(p, t))
  {
    assert Refs(Joined(p, t)) == {p.ref} + Refs(t) + Refs(p.other);
  }

  lemma {:induction false} FocusAll(m: Store, p: Place, t: Trie)
    ensures Spells(m, p, t) <==> Spells(m, Top, Plug(p, t))
    decreases p
  {
    hide Spells;
    if p.Below? {
      Focus(m, p, t);
      FocusAll(m, p.up, Joined(p, t));
    }
  }

  lemma ReadNode(m: Store, p: Place, t: Trie)
    requires Spells(m, p, t) && t.Node?
    ensures t.ref in m && m[t.ref] == CellOf(t, ParentOf(p)) && t.ref != NONE
    ensures RootOf(t.zero) == NONE <==> t.zero.Empty?
    ensures RootOf(t.one) == NONE <==> t.one.Empty?
    ensures t.zero.Node? ==> t.zero.ref in m && m[t.zero.ref] == CellOf(t.zero, t.ref)
    ensures t.one.Node? ==> t.one.ref in m && m[t.one.ref] == CellOf(t.one, t.ref)
  {
    assert Apart(t.zero) && Apart(t.one) && Holds(m, t.zero, t.ref) && Holds(m, t.one, t.ref);
  }

  // ------------------------------------------------------------ frames

  ghost predicate Same(m: Store, m': Store, s: set<Ref>) {
    forall r | r in s && r in m :: r in m' && m'[r] == m[r]
  }

  lemma {:induction false} FrameHolds(m: Store, m': Store, t: Trie, parent: Ref)
    requires Holds(m, t, parent) && Same(m, m', Refs(t))
    ensures Holds(m', t, parent)
  {
    if t.Node? {
      FrameHolds(m, m', t.zero, t.ref);
      FrameHolds(m, m', t.one, t.ref);
    }
  }

  lemma {:induction false} FrameAround(m: Store, m': Store, p: Place, r: Ref)
    requires HoldsAround(m, p, r) && Same(m, m', RefsAround(p))
    ensures HoldsAround(m', p, r)
    decreases p
  {
    if p.Below? {
      FrameHolds(m, m', p.other, p.ref);
      FrameAround(m, m', p.up, p.ref);
    }
  }

  // A subtrie moved under a new parent.
  lemma Reparent(m: Store, m': Store, t: Trie, parent: Ref, parent': Ref)
    requires Apart(t) && Holds(m, t, parent)
    requires t.Node? ==> t.ref in m' && m'[t.ref] == m[t.ref].(parent := parent') && Same(m, m', Refs(t) - {t.ref})
    ensures Holds(m', t, parent')
  {
    if t.Node? {
      FrameHolds(m, m', t.zero, t.ref);
      FrameHolds(m, m', t.one, t.ref);
    }
  }

  // The focused node rewritten in place.
  lemma Refocus(m: Store, m': Store, p: Place, t: Trie, t': Trie)
    requires Spells(m, p, t) && t.Node? && t'.Node? && t'.ref == t.ref
    requires Same(m, m', RefsAround(p)) && Refs(t') !! RefsAround(p) && m'.Keys == Refs(t') + RefsAround(p)
    requires Apart(t') && Holds(m', t', ParentOf(p))
    ensures Spells(m', p, t')
  {
    FrameAround(m, m', p, t.ref);
  }

  // ------------------------------------------------------------ changes of the focused node

  lemma SpellData(m: Store, p: Place, t: Trie, d: Data)
    requires Spells(m, p, t) && t.Node?
    ensures t.ref in m && Spells(m[t.ref := m[t.ref].(data := d)], p, t.(data := d))
  {
    var m', t' := m[t.ref := m[t.ref].(data := d)], t.(data := d);
    FrameHolds(m, m', t.zero, t.ref);
    FrameHolds(m, m', t.one, t.ref);
    Refocus(m, m', p, t, t');
  }

  // The record with another child in slot b.
  function Rechild(c: Cell, b: bool, r: Ref): Cell {
    if b then c.(one := r) else c.(zero := r)
  }

  // The child in slot b replaced by d, whose records are in place.
  lemma SpellChild(m: Store, m': Store, p: Place, t: Trie, b: bool, d: Trie)
    requires Spells(m, p, t) && t.Node? && Apart(d) && d.Node?
    requires t.ref in m' && m'[t.ref] == Rechild(m[t.ref], b, d.ref) && Holds(m', d, t.ref)
    requires Refs(d) !! Refs(Child(t, !b)) && t.ref !in Refs(d) && Refs(d) !! RefsAround(p)
    requires Same(m, m', Refs(Child(t, !b)) + RefsAround(p))
    requires m'.Keys == {t.ref} + Refs(Child(t, !b)) + Refs(d) + RefsAround(p)
    ensures Spells(m', p, WithChild(t, b, d))
  {
    var t' := WithChild(t, b, d);
    FrameHolds(m, m', Child(t, !b), t.ref);
    assert Refs(t') == {t.ref} + Refs(Child(t, !b)) + Refs(d);
    Refocus(m, m', p, t, t');
  }

  // Everything but the focused node and its child in slot b is as before.
  ghost predicate Elsewhere(m: Store, m': Store, t: Trie, b: bool)
    requires t.Node?
  {
    Same(m, m', m.Keys - {t.ref} - (if Child(t, b).Empty? then {} else {Child(t, b).ref}))
  }

  lemma ChildParts(m: Store, p: Place, t: Trie, b: bool)
    requires Spells(m, p, t) && t.Node?
    ensures var c := Child(t, b);
      && Apart(c) && Holds(m, c, t.ref) && t.ref !in Refs(c) && t.ref in m && (c.Node? ==> c.ref in Refs(c) && c.ref in m)
      && Refs(c) !! Refs(Child(t, !b)) && Refs(c) !! RefsAround(p) && t.ref !in Refs(Child(t, !b)) + RefsAround(p)
      && m.Keys == {t.ref} + Refs(Child(t, !b)) + Refs(c) + RefsAround(p)
  {
    assert Holds(m, t.zero, t.ref) && Holds(m, t.one, t.ref) && Apart(t.zero) && Apart(t.one);
  }

  // The child in slot b replaced by d, made of the child's records and of new ones.
  lemma SpellUnder(m: Store, m': Store, p: Place, t: Trie, b: bool, d: Trie, extra: set<Ref>)
    requires Spells(m, p, t) && t.Node? && Elsewhere(m, m', t, b) && d.Node? && t.ref in m
    requires extra !! m.Keys && m'.Keys == m.Keys + extra
    requires Apart(d) && Refs(d) == extra + Refs(Child(t, b)) && Holds(m', d, t.ref)
    requires m'[t.ref] == Rechild(m[t.ref], b, d.ref)
    ensures Spells(m', p, WithChild(t, b, d))
  {
    hide Spells, Refs, RefsAround, Apart, Holds;
    ChildParts(m, p, t, b);
    SpellChild(m, m', p, t, b, d);
  }

  // The prefix hung in an empty slot.
  lemma SpellLeaf(m: Store, m': Store, p: Place, t: Trie, b: bool, n: Trie)
    requires Spells(m, p, t) && t.Node? && Child(t, b).Empty?
    requires n.Node? && n.zero.Empty? && n.one.Empty? && n.ref != NONE && n.ref !in m
    requires m' == m[n.ref := CellOf(n, t.ref)][t.ref := Rechild(m[t.ref], b, n.ref)]
    ensures Spells(m', p, WithChild(t, b, n))
  {
    ChildParts(m, p, t, b);
    assert Refs(n) == {n.ref};
    SpellUnder(m, m', p, t, b, n, {n.ref});
  }

  lemma HoldsOver(m: Store, n: Trie, s: bool, c: Trie, parent: Ref)
    requires n.Node? && n.zero.Empty? && n.one.Empty? && n.ref != NONE && n.ref !in Refs(c)
    requires Apart(c) && Holds(m, c, n.ref) && n.ref in m && m[n.ref] == CellOf(WithChild(n, s, c), parent)
    ensures var d := WithChild(n, s, c); Apart(d) && Holds(m, d, parent) && Refs(d) == {n.ref} + Refs(c)
  {
  }

  lemma HoldsFork(m: Store, n: Trie, f: Trie, c: Trie, parent: Ref)
    requires n.Node? && n.zero.Empty? && n.one.Empty? && n.ref != NONE && n.ref !in Refs(c)
    requires f.Node? && f.ref != NONE && f.ref !in Refs(c) && f.ref != n.ref
    requires (f.zero == n && f.one == c) || (f.zero == c && f.one == n)
    requires Apart(c) && Holds(m, c, f.ref)
    requires n.ref in m && m[n.ref] == CellOf(n, f.ref) && f.ref in m && m[f.ref] == CellOf(f, parent)
    ensures Apart(f) && Holds(m, f, parent) && Refs(f) == {n.ref, f.ref} + Refs(c)
  {
    assert Refs(n) == {n.ref} && Apart(n) && Holds(m, n, f.ref);
  }

  // The prefix hung above the child it covers.
  lemma SpellCover(m: Store, m': Store, p: Place, t: Trie, b: bool, n: Trie, s: bool)
    requires Spells(m, p, t) && t.Node? && Child(t, b).Node? && Child(t, b).ref in m
    requires n.Node? && n.zero.Empty? && n.one.Empty? && n.ref != NONE && n.ref !in m
    requires t.ref in m && m'.Keys == m.Keys + {n.ref} && Elsewhere(m, m', t, b)
    requires m'[n.ref] == CellOf(WithChild(n, s, Child(t, b)), t.ref)
    requires m'[Child(t, b).ref] == m[Child(t, b).ref].(parent := n.ref) && m'[t.ref] == Rechild(m[t.ref], b, n.ref)
    ensures Spells(m', p, WithChild(t, b, WithChild(n, s, Child(t, b))))
  {
    hide Spells, Refs, RefsAround, Apart, Holds, CellOf;
    var c := Child(t, b);
    ChildParts(m, p, t, b);
    Reparent(m, m', c, t.ref, n.ref);
    HoldsOver(m', n, s, c, t.ref);
    SpellUnder(m, m', p, t, b, WithChild(n, s, c), {n.ref});
  }

  // The prefix and the child hung below a new virtual node.
  lemma SpellFork(m: Store, m': Store, p: Place, t: Trie, b: bool, n: Trie, f: Trie)
    requires Spells(m, p, t) && t.Node? && Child(t, b).Node? && Child(t, b).ref in m
    requires n.Node? && n.zero.Empty? && n.one.Empty? && n.ref != NONE && n.ref !in m
    requires f.Node? && f.ref != NONE && f.ref !in m && f.ref != n.ref
    requires (f.zero == n && f.one == Child(t, b)) || (f.zero == Child(t, b) && f.one == n)
    requires t.ref in m && m'.Keys == m.Keys + {n.ref, f.ref} && Elsewhere(m, m', t, b)
    requires m'[n.ref] == CellOf(n, f.ref) && m'[f.ref] == CellOf(f, t.ref)
    requires m'[Child(t, b).ref] == m[Child(t, b).ref].(parent := f.ref) && m'[t.ref] == Rechild(m[t.ref], b, f.ref)
    ensures Spells(m', p, WithChild(t, b, f))
  {
    hide Spells, Refs, RefsAround, Apart, Holds, CellOf;
    var c := Child(t, b);
    ChildParts(m, p, t, b);
    Reparent(m, m', c, t.ref, f.ref);
    HoldsFork(m', n, f, c, t.ref);
    SpellUnder(m, m', p, t, b, f, {n.ref, f.ref});
  }

  // ------------------------------------------------------------ removals

  // The record's parent link set, when there is a record.
  function Reparented(m: Store, r: Ref, parent: Ref): Store {
    if r != NONE && r in m then m[r := m[r].(parent := parent)] else m
  }

  // The records after the node took over its child c.
  function MergedStore(m: Store, r: Ref, c: Ref): Store
    requires r in m && c in m
  {
    var m1 := m[r := m[c].(parent := m[r].parent)];
    Reparented(Reparented(m1, m[c].zero, r), m[c].one, r) - {c}
  }

  lemma SpellMerge(m: Store, p: Place, t: Trie, b: bool)
    requires Spells(m, p, t) && t.Node? && Child(t, b).Node? && Child(t, !b).Empty?
    ensures t.ref in m && Child(t, b).ref in m
    ensures Spells(MergedStore(m, t.ref, Child(t, b).ref), p, Merged(t, Child(t, b)))
  {
    var c := Child(t, b);
    var m' := MergedStore(m, t.ref, c.ref);
    ReadNode(m, p, t);
    MergeParts(m, p, t, b);
    hide Spells, Holds, Apart, Refs, RefsAround;
    MergedHolds(m, m', t, c, ParentOf(p));
    Refocus(m, m', p, t, Merged(t, c));
  }

  lemma MergeParts(m: Store, p: Place, t: Trie, b: bool)
    requires Spells(m, p, t) && t.Node? && Child(t, b).Node? && Child(t, !b).Empty?
    ensures var c := Child(t, b);
      && Apart(c) && Holds(m, c, t.ref) && c.ref in m && c.ref != t.ref && t.ref != NONE
      && t.ref !in Refs(c) && Refs(c) !! RefsAround(p) && t.ref !in RefsAround(p)
      && m.Keys == {t.ref} + Refs(c) + RefsAround(p)
  {
    var c := Child(t, b);
    assert Holds(m, c, t.ref) && Apart(c) && Refs(t) == {t.ref} + Refs(c) && c.ref in Refs(c);
  }

  lemma MergedHolds(m: Store, m': Store, t: Trie, c: Trie, parent: Ref)
    requires t.Node? && c.Node? && Apart(c) && Holds(m, c, t.ref) && c.ref in m && t.ref != NONE
    requires t.ref in m && t.ref !in Refs(c) && m[t.ref].parent == parent && m' == MergedStore(m, t.ref, c.ref)
    ensures var t' := Merged(t, c); Apart(t') && Holds(m', t', parent) && Refs(t') == {t.ref} + Refs(c) - {c.ref}
    ensures m'.Keys == m.Keys - {c.ref} && Same(m, m', m.Keys - Refs(c) - {t.ref})
  {
    var z, o := c.zero, c.one;
    assert Refs(c) == {c.ref} + Refs(z) + Refs(o) && Holds(m, z, c.ref) && Holds(m, o, c.ref);
    assert Apart(z) && Apart(o) && (z.Node? ==> z.ref in Refs(z)) && (o.Node? ==> o.ref in Refs(o));
    assert z.Node? ==> z.ref in m && z.ref != NONE;
    assert o.Node? ==> o.ref in m && o.ref != NONE;
    hide Refs;
    Reparent(m, m', z, c.ref, t.ref);
    Reparent(m, m', o, c.ref, t.ref);
    MergedApart(t, c);
  }

  lemma MergedApart(t: Trie, c: Trie)
    requires t.Node? && c.Node? && Apart(c) && t.ref !in Refs(c) && t.ref != NONE
    ensures Apart(Merged(t, c)) && Refs(Merged(t, c)) == {t.ref} + Refs(c) - {c.ref}
  {
  }

  lemma SpellDrop(m: Store, p: Place, t: Trie)
    requires Spells(m, p, t) && t.Node? && p.Below? && t.zero.Empty? && t.one.Empty?
    ensures p.ref in m && Spells(m[p.ref := Rechild(m[p.ref], p.b, NONE)] - {t.ref}, p.up, Joined(p, Empty))
  {
    var m' := m[p.ref := Rechild(m[p.ref], p.b, NONE)] - {t.ref};
    assert Refs(t) == {t.ref};
    FrameHolds(m, m', p.other, p.ref);
    FrameAround(m, m', p.up, p.ref);
    assert Spells(m', p, Empty);
    Focus(m', p, Empty);
  }
}
