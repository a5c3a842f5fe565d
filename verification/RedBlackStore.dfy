/**
 * The node records of redblack.c in memory, and what it means that they spell out a tree.
 */
module RedBlackStore {
  import opened RedBlackTrees

  // One node record: its links, colour and key.
  datatype Cell = Cell(left: Ref, right: Ref, up: Ref, colour: Colour, key: int)

  type Store = map<Ref, Cell>

  function RootOf(t: Tree): Ref {
    if t.Leaf? then NIL else t.ref
  }

  function ParentOf(p: Place): Ref {
    if p.Top? then NIL else p.ref
  }

  // The root, given the node at the place.
  ghost function Topmost(p: Place, r: Ref): Ref {
    if p.Top? then r else Topmost(p.above, p.ref)
  }

  function Sibling(p: Place): Tree
    requires !p.Top?
  {
    if p.LeftOf? then p.right else p.left
  }

  ghost function Refs(t: Tree): set<Ref> {
    if t.Leaf? then {} else {t.ref} + Refs(t.left) + Refs(t.right)
  }

  ghost function RefsAround(p: Place): set<Ref> {
    if p.Top? then {} else {p.ref} + Refs(Sibling(p)) + RefsAround(p.above)
  }

  // No record serves twice, and none is the sentinel.
  ghost predicate Apart(t: Tree) {
    t.Leaf? ||
    (t.ref != NIL && t.ref !in Refs(t.left) && t.ref !in Refs(t.right) && Refs(t.left) !! Refs(t.right)
     && Apart(t.left) && Apart(t.right))
  }

  ghost predicate ApartAround(p: Place) {
    p.Top? ||
    (p.ref != NIL && p.ref !in Refs(Sibling(p)) && p.ref !in RefsAround(p.above)
     && Refs(Sibling(p)) !! RefsAround(p.above) && Apart(Sibling(p)) && ApartAround(p.above))
  }

  // The records of t, linked down and up.
  ghost predicate Holds(m: Store, t: Tree, up: Ref) {
    t.Leaf? ||
    (t.ref in m && m[t.ref] == Cell(RootOf(t.left), RootOf(t.right), up, t.colour, t.key)
     && Holds(m, t.left, t.ref) && Holds(m, t.right, t.ref))
  }

  // The records around the place, down to the child that hangs there.
  ghost predicate HoldsAround(m: Store, p: Place, child: Ref) {
    match p
    case Top => true
    case LeftOf(r, c, k, rt, a) =>
      && r in m && m[r] == Cell(child, RootOf(rt), ParentOf(a), c, k)
      && Holds(m, rt, r) && HoldsAround(m, a, r)
    case RightOf(r, c, k, lt, a) =>
      && r in m && m[r] == Cell(RootOf(lt), child, ParentOf(a), c, k)
      && Holds(m, lt, r) && HoldsAround(m, a, r)
  }

  ghost predicate SentinelOk(m: Store) {
    NIL in m && m[NIL].colour.Black?
  }

  // Memory spells out the tree with t at place p.
  ghost predicate Spells(m: Store, root: Ref, p: Place, t: Tree) {
    && SentinelOk(m)
    && Apart(t) && ApartAround(p) && Refs(t) !! RefsAround(p)
    && Holds(m, t, ParentOf(p)) && HoldsAround(m, p, RootOf(t))
    && root == Topmost(p, RootOf(t))
  }

  // ------------------------------------------------------------ moving the focus

  // The tree one level up.
  ghost function Joined(p: Place, t: Tree): Tree
    requires !p.Top?
  {
    if p.LeftOf? then Node(p.ref, p.colour, p.key, t, p.right) else Node(p.ref, p.colour, p.key, p.left, t)
  }

  lemma Focus(m: Store, root: Ref, p: Place, t: Tree)
    requires !p.Top?
    ensures Spells(m, root, p, t) <==> Spells(m, root, p.above, Joined(p, t))
  {
    assert Refs(Joined(p, t)) == {p.ref} + Refs(t) + Refs(Sibling(p));
  }

  // ------------------------------------------------------------ frames

  ghost predicate Agree(m: Store, m': Store, s: set<Ref>) {
    forall r | r in s && r in m :: r in m' && m'[r] == m[r]
  }

  lemma {:induction false} FrameHolds(m: Store, m': Store, t: Tree, up: Ref)
    requires Holds(m, t, up) && Agree(m, m', Refs(t))
    ensures Holds(m', t, up)
  {
    if t.Node? {
      FrameHolds(m, m', t.left, t.ref);
      FrameHolds(m, m', t.right, t.ref);
    }
  }

  lemma {:induction false} FrameAround(m: Store, m': Store, p: Place, child: Ref)
    requires HoldsAround(m, p, child) && Agree(m, m', RefsAround(p))
    ensures HoldsAround(m', p, child)
  {
    if !p.Top? {
      FrameHolds(m, m', Sibling(p), p.ref);
      FrameAround(m, m', p.above, p.ref);
    }
  }

  // A subtree moved under a new parent.
  lemma Reparent(m: Store, m': Store, t: Tree, up: Ref, up': Ref)
    requires Apart(t) && Holds(m, t, up)
    requires t.Node? ==> t.ref in m' && m'[t.ref] == m[t.ref].(up := up') && Agree(m, m', Refs(t) - {t.ref})
    ensures Holds(m', t, up')
  {
    if t.Node? {
      FrameHolds(m, m', t.left, t.ref);
      FrameHolds(m, m', t.right, t.ref);
    }
  }

  // A place whose node now points at another child.
  lemma Rechild(m: Store, m': Store, p: Place, child: Ref, child': Ref)
    requires ApartAround(p) && HoldsAround(m, p, child)
    requires !p.Top? ==> p.ref in m' && Agree(m, m', RefsAround(p) - {p.ref})
    requires p.LeftOf? ==> m'[p.ref] == m[p.ref].(left := child')
    requires p.RightOf? ==> m'[p.ref] == m[p.ref].(right := child')
    ensures HoldsAround(m', p, child')
  {
    if !p.Top? {
      FrameHolds(m, m', Sibling(p), p.ref);
      FrameAround(m, m', p.above, p.ref);
    }
  }

  // ------------------------------------------------------------ single-record changes

  // Changing colour or key of the focused node.
  lemma Rewrite(m: Store, root: Ref, p: Place, t: Tree, c: Colour, k: int)
    requires Spells(m, root, p, t) && t.Node?
    ensures Spells(m[t.ref := m[t.ref].(colour := c, key := k)], root, p, t.(colour := c, key := k))
  {
    var m' := m[t.ref := m[t.ref].(colour := c, key := k)];
    FrameHolds(m, m', t.left, t.ref);
    FrameHolds(m, m', t.right, t.ref);
    FrameAround(m, m', p, t.ref);
  }

  // ------------------------------------------------------------ rotations

  ghost function Touched(x: Ref, y: Ref, b: Tree, p: Place): set<Ref> {
    {x, y} + (if b.Leaf? then {} else {b.ref}) + (if p.Top? then {} else {p.ref})
  }

  // The records after a rotation: x hangs under y, the middle subtree b under x.
  ghost predicate Turned(m: Store, m': Store, p: Place, x: Ref, y: Ref, b: Tree) {
    && (forall r | r in m :: r in m' && (r !in Touched(x, y, b, p) ==> m'[r] == m[r]))
    && (b.Node? ==> b.ref in m && b.ref in m' && m'[b.ref] == m[b.ref].(up := x))
    && (p.LeftOf? ==> p.ref in m && p.ref in m' && m'[p.ref] == m[p.ref].(left := y))
    && (p.RightOf? ==> p.ref in m && p.ref in m' && m'[p.ref] == m[p.ref].(right := y))
  }

  lemma {:induction false} RefsNotNil(t: Tree)
    requires Apart(t)
    ensures NIL !in Refs(t)
  {
    if t.Node? {
      RefsNotNil(t.left);
      RefsNotNil(t.right);
    }
  }

  lemma {:induction false} RefsAroundNotNil(p: Place)
    requires ApartAround(p)
    ensures NIL !in RefsAround(p)
  {
    if !p.Top? {
      RefsNotNil(Sibling(p));
      RefsAroundNotNil(p.above);
    }
  }

  lemma TurnedParts(m: Store, m': Store, p: Place, x: Ref, y: Ref, a: Tree, b: Tree, c: Tree)
    requires Turned(m, m', p, x, y, b) && SentinelOk(m)
    requires Refs(a) !! Refs(b) !! Refs(c) !! {x} !! {y} !! RefsAround(p)
    requires Apart(a) && Apart(b) && Apart(c) && ApartAround(p) && x != NIL && y != NIL
    requires Holds(m, a, x) && Holds(m, b, y) && Holds(m, c, y) && HoldsAround(m, p, x)
    ensures Holds(m', a, x) && Holds(m', b, x) && Holds(m', c, y) && HoldsAround(m', p, y)
    ensures SentinelOk(m')
  {
    RefsNotNil(b);
    RefsAroundNotNil(p);
    FrameHolds(m, m', a, x);
    FrameHolds(m, m', c, y);
    Reparent(m, m', b, y, x);
    Rechild(m, m', p, x, y);
  }

  // No record comes or goes, they keep their keys, and the sentinel's is untouched.
  ghost predicate SameKeys(m: Store, m': Store) {
    && m'.Keys == m.Keys && (forall r | r in m :: m'[r].key == m[r].key)
    && (NIL in m ==> m'[NIL] == m[NIL])
  }

  lemma TurnedKeys(m: Store, m': Store, p: Place, x: Ref, y: Ref, b: Tree)
    requires Turned(m, m', p, x, y, b) && x in m && y in m && x in m' && y in m'
    requires m'[x].key == m[x].key && m'[y].key == m[y].key && NIL !in Touched(x, y, b, p) && m'.Keys == m.Keys
    ensures SameKeys(m, m')
  {
  }

  lemma LeftTurned(m: Store, m': Store, root: Ref, root': Ref, p: Place,
                   x: Ref, cx: Colour, kx: int, a: Tree, y: Ref, cy: Colour, ky: int, b: Tree, c: Tree)
    requires Spells(m, root, p, Node(x, cx, kx, a, Node(y, cy, ky, b, c)))
    requires Turned(m, m', p, x, y, b) && root' == (if p.Top? then y else root)
    requires x in m' && m'[x] == Cell(RootOf(a), RootOf(b), y, cx, kx)
    requires y in m' && m'[y] == Cell(x, RootOf(c), ParentOf(p), cy, ky)
    ensures Spells(m', root', p, Node(y, cy, ky, Node(x, cx, kx, a, b), c))
  {
    var t := Node(y, cy, ky, b, c);
    assert Refs(t) == {y} + Refs(b) + Refs(c) && Holds(m, t, x) && Apart(t);
    TurnedParts(m, m', p, x, y, a, b, c);
    assert Refs(Node(x, cx, kx, a, b)) == {x} + Refs(a) + Refs(b);
  }

  lemma RightTurned(m: Store, m': Store, root: Ref, root': Ref, p: Place,
                    y: Ref, cy: Colour, ky: int, x: Ref, cx: Colour, kx: int, a: Tree, b: Tree, c: Tree)
    requires Spells(m, root, p, Node(y, cy, ky, Node(x, cx, kx, a, b), c))
    requires Turned(m, m', p, y, x, b) && root' == (if p.Top? then x else root)
    requires y in m' && m'[y] == Cell(RootOf(b), RootOf(c), x, cy, ky)
    requires x in m' && m'[x] == Cell(RootOf(a), y, ParentOf(p), cx, kx)
    ensures Spells(m', root', p, Node(x, cx, kx, a, Node(y, cy, ky, b, c)))
  {
    var t := Node(x, cx, kx, a, b);
    assert Refs(t) == {x} + Refs(a) + Refs(b) && Holds(m, t, y) && Apart(t);
    TurnedParts(m, m', p, y, x, c, b, a);
    assert Refs(Node(y, cy, ky, b, c)) == {y} + Refs(b) + Refs(c);
  }

  // ------------------------------------------------------------ adding and removing a record

  lemma {:induction false} RefsInStore(m: Store, t: Tree, up: Ref)
    requires Holds(m, t, up)
    ensures Refs(t) <= m.Keys
  {
    if t.Node? {
      RefsInStore(m, t.left, t.ref);
      RefsInStore(m, t.right, t.ref);
    }
  }

  lemma {:induction false} RefsAroundInStore(m: Store, p: Place, child: Ref)
    requires HoldsAround(m, p, child)
    ensures RefsAround(p) <= m.Keys
    decreases p
  {
    if !p.Top? {
      RefsInStore(m, Sibling(p), p.ref);
      RefsAroundInStore(m, p.above, p.ref);
    }
  }

  // The store with child hung at place p.
  function Hung(m: Store, p: Place, child: Ref): Store
    requires p.Top? || p.ref in m
  {
    match p
    case Top => m
    case LeftOf(r, _, _, _, _) => m[r := m[r].(left := child)]
    case RightOf(r, _, _, _, _) => m[r := m[r].(right := child)]
  }

  // A new red leaf z at an empty place.
  lemma Attach(m: Store, root: Ref, p: Place, z: Ref, k: int)
    requires Spells(m, root, p, Leaf) && z !in m
    ensures p.Top? || p.ref in m
    ensures var m1 := m[z := Cell(NIL, NIL, ParentOf(p), Red, k)];
      Spells(Hung(m1, p, z), if p.Top? then z else root, p, Node(z, Red, k, Leaf, Leaf))
  {
    var m1 := m[z := Cell(NIL, NIL, ParentOf(p), Red, k)];
    RefsAroundInStore(m, p, NIL);
    RefsAroundNotNil(p);
    FrameAround(m, m1, p, NIL);
    Rechild(m1, Hung(m1, p, z), p, NIL, z);
  }

  // A node with at most one child taken out: the child x moves up in its stead.
  lemma Detach(m: Store, root: Ref, p: Place, y: Tree, x: Tree)
    requires Spells(m, root, p, y) && y.Node?
    requires (y.left.Leaf? && x == y.right) || (y.right.Leaf? && x == y.left)
    ensures RootOf(x) in m && (p.Top? || p.ref in m)
    ensures var m1 := m[RootOf(x) := m[RootOf(x)].(up := ParentOf(p))];
      && (p.Top? || p.ref in m1)
      && Spells(Hung(m1, p, RootOf(x)), if p.Top? then RootOf(x) else root, p, x)
  {
    assert Holds(m, x, y.ref) && Apart(x) && Refs(x) <= Refs(y);
    var m1 := m[RootOf(x) := m[RootOf(x)].(up := ParentOf(p))];
    var m2 := Hung(m1, p, RootOf(x));
    RefsAroundNotNil(p);
    RefsNotNil(x);
    FrameAround(m, m1, p, y.ref);
    Rechild(m1, m2, p, y.ref, RootOf(x));
    Reparent(m, m2, x, y.ref, ParentOf(p));
  }

  // Freeing a record that the tree does not use.
  lemma Free(m: Store, root: Ref, p: Place, t: Tree, y: Ref)
    requires Spells(m, root, p, t) && y != NIL && y !in Refs(t) && y !in RefsAround(p)
    ensures Spells(m - {y}, root, p, t)
  {
    FrameHolds(m, m - {y}, t, ParentOf(p));
    FrameAround(m, m - {y}, p, RootOf(t));
  }
}
