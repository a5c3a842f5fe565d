/**
 * libredblack's tree object: insertion, deletion, ordered lookup and the list iterator,
 * working on node records in memory.
 */
module RedBlack {
  import opened RedBlackTrees
  import opened RedBlackStore
  import opened RedBlackInsert
  import opened RedBlackDelete

  // ------------------------------------------------------------ reading around the focus

  lemma ReadNode(m: Store, root: Ref, p: Place, t: Tree)
    requires Spells(m, root, p, t)
    ensures NIL in m && m[NIL].colour.Black?
    ensures RootOf(t) in m && (m[RootOf(t)].colour.Red? <==> IsRed(t)) && (RootOf(t) == NIL <==> t.Leaf?)
    ensures t.Node? ==> m[t.ref] == Cell(RootOf(t.left), RootOf(t.right), ParentOf(p), t.colour, t.key)
    ensures t.Node? ==> t.ref != NIL && RootOf(t.left) != t.ref && RootOf(t.right) != t.ref
    ensures t.Node? && RootOf(t.left) == RootOf(t.right) ==> t.left.Leaf? && t.right.Leaf?
    ensures t.Node? ==> RootOf(t.left) in m && RootOf(t.right) in m
    ensures t.Node? ==> (m[RootOf(t.left)].colour.Red? <==> IsRed(t.left)) && (RootOf(t.left) == NIL <==> t.left.Leaf?)
    ensures t.Node? ==> (m[RootOf(t.right)].colour.Red? <==> IsRed(t.right)) && (RootOf(t.right) == NIL <==> t.right.Leaf?)
  {
    if t.Node? {
      assert Apart(t.left) && Apart(t.right) && Holds(m, t.left, t.ref) && Holds(m, t.right, t.ref);
      assert RootOf(t.left) != NIL ==> RootOf(t.left) in Refs(t.left);
      assert RootOf(t.right) != NIL ==> RootOf(t.right) in Refs(t.right);
    }
  }

  lemma ReadParent(m: Store, root: Ref, p: Place, t: Tree)
    requires Spells(m, root, p, t)
    ensures p.Top? ==> root == RootOf(t)
    ensures !p.Top? ==> p.ref in m && p.ref != NIL && m[p.ref].up == ParentOf(p.above) && m[p.ref].colour == p.colour
    ensures !p.Top? ==> m[p.ref].key == p.key
    ensures p.LeftOf? ==> m[p.ref].left == RootOf(t) && m[p.ref].right == RootOf(p.right)
    ensures p.RightOf? ==> m[p.ref].right == RootOf(t) && m[p.ref].left == RootOf(p.left)
    ensures !p.Top? ==> (t.Node? || Sibling(p).Node? ==> RootOf(t) != RootOf(Sibling(p)))
    ensures !p.Top? ==> (t.Node? ==> root != t.ref) && p.ref != RootOf(t) && root != NIL
  {
    if !p.Top? {
      TopmostAround(p, RootOf(t));
    }
  }

  lemma {:induction false} TopmostAround(p: Place, r: Ref)
    requires !p.Top? && ApartAround(p)
    ensures Topmost(p, r) in RefsAround(p) && Topmost(p, r) != NIL
    decreases p
  {
    if !p.above.Top? {
      TopmostAround(p.above, p.ref);
    }
  }

  // The place of the sibling.
  ghost function Across(p: Place, t: Tree): Place
    requires !p.Top?
  {
    if p.LeftOf? then RightOf(p.ref, p.colour, p.key, t, p.above) else LeftOf(p.ref, p.colour, p.key, t, p.above)
  }

  lemma CrossOver(m: Store, root: Ref, p: Place, t: Tree)
    requires !p.Top?
    ensures Spells(m, root, p, t) <==> Spells(m, root, Across(p, t), Sibling(p))
  {
    Focus(m, root, p, t);
    Focus(m, root, Across(p, t), Sibling(p));
  }

  ghost function TurnedLeft(t: Tree): Tree
    requires t.Node? && t.right.Node?
  {
    var y := t.right;
    Node(y.ref, y.colour, y.key, Node(t.ref, t.colour, t.key, t.left, y.left), y.right)
  }

  ghost function TurnedRight(t: Tree): Tree
    requires t.Node? && t.left.Node?
  {
    var x := t.left;
    Node(x.ref, x.colour, x.key, x.left, Node(t.ref, t.colour, t.key, x.right, t.right))
  }

  lemma RotationFacts(m: Store, root: Ref, p: Place, t: Tree, y: Tree, b: Tree)
    requires Spells(m, root, p, t) && t.Node?
    requires (y == t.right && y.Node? && b == y.left) || (y == t.left && y.Node? && b == y.right)
    ensures t.ref != y.ref && y.ref in m && m[y.ref].up == t.ref
    ensures m[y.ref] == Cell(RootOf(y.left), RootOf(y.right), t.ref, y.colour, y.key)
    ensures b.Node? ==> b.ref in m && b.ref != t.ref && b.ref != y.ref && b.ref != NIL
    ensures !p.Top? ==> p.ref != t.ref && p.ref != y.ref && (b.Node? ==> p.ref != b.ref)
    ensures y.ref != NIL && t.ref != NIL && (b.Leaf? ==> RootOf(b) == NIL)
    ensures NIL !in Touched(t.ref, y.ref, b, p)
  {
    assert Holds(m, y, t.ref) && Apart(y);
    if b.Node? {
      assert b.ref in Refs(b) && Holds(m, b, y.ref) && Apart(b);
      assert Refs(b) <= Refs(y) <= Refs(t);
    }
  }

  class RbTree {
    var store: Store
    var root: Ref
    ghost var tree: Tree

    // The records spell out a red-black search tree, and there is one for each key and the sentinel.
    ghost predicate Valid()
      reads this
    {
      Spells(store, root, Top, tree) && IsRedBlack(tree) && Ascending(Order(tree)) && |store.Keys| == |Order(tree)| + 1
    }

    // The keys in ascending order.
    ghost function Contents(): seq<int>
      reads this
    {
      Order(tree)
    }

    constructor ()
      ensures Valid() && Contents() == []
    {
      store, root, tree := map[NIL := Cell(NIL, NIL, NIL, Black, 0)], NIL, Leaf;
    }

    // The parent up of x, or the root, now points at y instead.
    method Rehang(x: Ref, y: Ref, up: Ref, ghost p: Place)
      requires up == ParentOf(p) && (p.Top? || (p.ref in store && p.ref != NIL))
      requires p.LeftOf? ==> store[up].left == x
      requires p.RightOf? ==> store[up].left != x
      modifies this`store, this`root
      ensures store == Hung(old(store), p, y) && root == (if p.Top? then y else old(root)) && store.Keys == old(store.Keys)
    {
      if up == NIL {
        root := y;
      } else if x == store[up].left {
        store := store[up := store[up].(left := y)];
      } else {
        store := store[up := store[up].(right := y)];
      }
    }

    method LeftRotate(x: Ref, ghost p: Place, ghost t: Tree)
      requires Spells(store, root, p, t) && t.Node? && t.right.Node? && t.ref == x
      modifies this`store, this`root
      ensures SameKeys(old(store), store)
      ensures Spells(store, root, p, TurnedLeft(t))
    {
      hide Spells, SameKeys;
      ghost var m0, r0, ty, tb := store, root, t.right, t.right.left;
      ReadNode(store, root, p, t);
      ReadParent(store, root, p, t);
      RotationFacts(store, root, p, t, ty, tb);
      var y := store[x].right;
      store := store[x := store[x].(right := store[y].left)];
      var b := store[y].left;
      if b != NIL {
        store := store[b := store[b].(up := x)];
      }
      var up := store[x].up;
      store := store[y := store[y].(up := up)];
      assert store.Keys == m0.Keys;
      Rehang(x, y, up, p);
      store := store[y := store[y].(left := x)];
      store := store[x := store[x].(up := y)];
      assert store.Keys == m0.Keys;
      TurnedKeys(m0, store, p, x, ty.ref, tb);
      LeftTurned(m0, store, r0, root, p, x, t.colour, t.key, t.left, ty.ref, ty.colour, ty.key, tb, ty.right);
    }

    method RightRotate(y: Ref, ghost p: Place, ghost t: Tree)
      requires Spells(store, root, p, t) && t.Node? && t.left.Node? && t.ref == y
      modifies this`store, this`root
      ensures SameKeys(old(store), store)
      ensures Spells(store, root, p, TurnedRight(t))
    {
      hide Spells, SameKeys;
      ghost var m0, r0, tx, tb := store, root, t.left, t.left.right;
      ReadNode(store, root, p, t);
      ReadParent(store, root, p, t);
      RotationFacts(store, root, p, t, tx, tb);
      var x := store[y].left;
      store := store[y := store[y].(left := store[x].right)];
      var b := store[x].right;
      if b != NIL {
        store := store[b := store[b].(up := y)];
      }
      var up := store[y].up;
      store := store[x := store[x].(up := up)];
      assert store.Keys == m0.Keys;
      Rehang(y, x, up, p);
      store := store[x := store[x].(right := y)];
      store := store[y := store[y].(up := x)];
      assert store.Keys == m0.Keys;
      TurnedKeys(m0, store, p, y, tx.ref, tb);
      RightTurned(m0, store, r0, root, p, y, t.colour, t.key, tx.ref, tx.colour, tx.key, tx.left, tb, t.right);
    }

    method Paint(x: Ref, c: Colour, ghost p: Place, ghost t: Tree)
      requires Spells(store, root, p, t) && t.Node? && t.ref == x
      modifies this`store
      ensures SameKeys(old(store), store)
      ensures Spells(store, root, p, Painted(t, c))
    {
      ReadNode(store, root, p, t);
      Rewrite(store, root, p, t, c, t.key);
      assert store[x].(colour := c, key := t.key) == store[x].(colour := c);
      assert t.(colour := c, key := t.key) == Painted(t, c);
      store := store[x := store[x].(colour := c)];
    }

    // ---------------------------------------------------------- insertion

    // Red uncle: parent and uncle black, grandparent red.
    method PushUp(x: Ref, ghost p: Place, ghost t: Tree)
      requires Spells(store, root, p, t) && t.Node? && t.ref == x
      requires !p.Top? && !p.above.Top? && IsRed(Sibling(p.above))
      modifies this`store
      ensures SameKeys(old(store), store)
      ensures Spells(store, root, p.above.above, Pushed(p, t))
    {
      hide Spells;
      ghost var g, a := p.above, p.above.above;
      ReadNode(store, root, p, t);
      ReadParent(store, root, p, t);
      var parent := store[x].up;
      Focus(store, root, p, t);
      ReadParent(store, root, g, Joined(p, t));
      var grand := store[parent].up;
      var uncle := if parent == store[grand].left then store[grand].right else store[grand].left;
      Paint(parent, Black, g, Joined(p, t));
      ghost var up := Painted(Joined(p, t), Black);
      CrossOver(store, root, g, up);
      Paint(uncle, Black, Across(g, up), Sibling(g));
      ghost var un := Painted(Sibling(g), Black);
      Focus(store, root, Across(g, up), un);
      Paint(grand, Red, a, Joined(Across(g, up), un));
      assert Painted(Joined(Across(g, up), un), Red) == Pushed(p, t);
    }

    // Black uncle, outer grandchild: parent black, grandparent red, grandparent turned.
    method RaiseLeft(x: Ref, ghost p: Place, ghost t: Tree)
      requires Spells(store, root, p, t) && t.Node? && t.ref == x
      requires p.LeftOf? && SameSide(p)
      modifies this`store, this`root
      ensures SameKeys(old(store), store)
      ensures Spells(store, root, Raised(p), t)
    {
      hide Spells;
      ghost var g, a := p.above, p.above.above;
      ReadNode(store, root, p, t);
      ReadParent(store, root, p, t);
      var parent := store[x].up;
      Focus(store, root, p, t);
      ReadParent(store, root, g, Joined(p, t));
      var grand := store[parent].up;
      Paint(parent, Black, g, Joined(p, t));
      ghost var up := Painted(Joined(p, t), Black);
      Focus(store, root, g, up);
      Paint(grand, Red, a, Joined(g, up));
      RightRotate(grand, a, Painted(Joined(g, up), Red));
      Focus(store, root, Raised(p), t);
    }

    method RaiseRight(x: Ref, ghost p: Place, ghost t: Tree)
      requires Spells(store, root, p, t) && t.Node? && t.ref == x
      requires p.RightOf? && SameSide(p)
      modifies this`store, this`root
      ensures SameKeys(old(store), store)
      ensures Spells(store, root, Raised(p), t)
    {
      hide Spells;
      ghost var g, a := p.above, p.above.above;
      ReadNode(store, root, p, t);
      ReadParent(store, root, p, t);
      var parent := store[x].up;
      Focus(store, root, p, t);
      ReadParent(store, root, g, Joined(p, t));
      var grand := store[parent].up;
      Paint(parent, Black, g, Joined(p, t));
      ghost var up := Painted(Joined(p, t), Black);
      Focus(store, root, g, up);
      Paint(grand, Red, a, Joined(g, up));
      LeftRotate(grand, a, Painted(Joined(g, up), Red));
      Focus(store, root, Raised(p), t);
    }

    // The inner grandchild's parent is turned outward; it is the new focus.
    method TurnOutward(x: Ref, parent: Ref, ghost p: Place, ghost t: Tree)
      requires Spells(store, root, p, t) && t.Node? && t.ref == x && !p.Top? && p.ref == parent
      modifies this`store, this`root
      ensures SameKeys(old(store), store)
      ensures Spells(store, root, Outward(p, t).0, Outward(p, t).1)
    {
      hide Spells;
      Focus(store, root, p, t);
      ReadParent(store, root, p, t);
      ReadNode(store, root, p, t);
      if store[parent].right == x {
        LeftRotate(parent, p.above, Joined(p, t));
      } else {
        RightRotate(parent, p.above, Joined(p, t));
      }
      Focus(store, root, Outward(p, t).0, Outward(p, t).1);
    }

    // One turn of the insertion fix-up loop.
    method MendStep(x: Ref, ghost p: Place, ghost t: Tree) returns (x': Ref, ghost p': Place, ghost t': Tree)
      requires Spells(store, root, p, t) && Mending(p, t) && RedAbove(p) && t.ref == x
      modifies this`store, this`root
      ensures SameKeys(old(store), store)
      ensures Spells(store, root, p', t') && Mending(p', t') && t'.ref == x'
      ensures OrderAt(p', t') == OrderAt(p, t)
      ensures !RedAbove(p') || Depth(p') < Depth(p)
    {
      Grandparent(p, t);
      ghost var g := p.above;
      ReadNode(store, root, p, t);
      ReadParent(store, root, p, t);
      CrossOver(store, root, p, t);
      Focus(store, root, p, t);
      ReadParent(store, root, g, Joined(p, t));
      CrossOver(store, root, g, Joined(p, t));
      ReadNode(store, root, Across(g, Joined(p, t)), Sibling(g));
      hide Spells, Mending, OrderAt;
      var parent := store[x].up;
      var grand := store[parent].up;
      x', p', t' := x, p, t;
      if parent == store[grand].left {
        if store[store[grand].right].colour.Red? {
          PushKeeps(p, t);
          PushOrder(p, t);
          PushUp(x, p, t);
          x', p', t' := grand, g.above, Pushed(p, t);
        } else {
          if x == store[parent].right {
            OutwardKeeps(p, t);
            OutwardOrder(p, t);
            TurnOutward(x, parent, p, t);
            x', p', t' := parent, Outward(p, t).0, Outward(p, t).1;
          }
          RaiseKeeps(p', t');
          RaiseOrder(p', t');
          RaiseLeft(x', p', t');
          p' := Raised(p');
        }
      } else {
        if store[store[grand].left].colour.Red? {
          PushKeeps(p, t);
          PushOrder(p, t);
          PushUp(x, p, t);
          x', p', t' := grand, g.above, Pushed(p, t);
        } else {
          if x == store[parent].left {
            OutwardKeeps(p, t);
            OutwardOrder(p, t);
            TurnOutward(x, parent, p, t);
            x', p', t' := parent, Outward(p, t).0, Outward(p, t).1;
          }
          RaiseKeeps(p', t');
          RaiseOrder(p', t');
          RaiseRight(x', p', t');
          p' := Raised(p');
        }
      }
    }

    // The insertion fix-up loop, and the root painted black.
    method Mend(z: Ref, ghost p0: Place, ghost t0: Tree)
      requires Spells(store, root, p0, t0) && Mending(p0, t0) && t0.ref == z
      modifies this`store, this`root, this`tree
      ensures SameKeys(old(store), store)
      ensures Spells(store, root, Top, tree) && IsRedBlack(tree) && Order(tree) == OrderAt(p0, t0)
    {
      hide Spells, OrderAt, IsRedBlack;
      var x := z;
      ghost var p, t := p0, t0;
      ReadNode(store, root, p, t);
      ReadParent(store, root, p, t);
      while x != root && store[store[x].up].colour.Red?
        invariant Spells(store, root, p, t) && Mending(p, t) && t.ref == x
        invariant OrderAt(p, t) == OrderAt(p0, t0) && SameKeys(old(store), store)
        invariant x in store && store[x].up in store
        invariant x != root && store[store[x].up].colour.Red? <==> RedAbove(p)
        decreases if RedAbove(p) then 1 + Depth(p) else 0
      {
        x, p, t := MendStep(x, p, t);
        ReadNode(store, root, p, t);
        ReadParent(store, root, p, t);
      }
      ZipUp(store, root, p, t);
      MendedWhole(p, t);
      ReadNode(store, root, Top, Plug(p, t));
      ReadParent(store, root, Top, Plug(p, t));
      Paint(root, Black, Top, Plug(p, t));
      tree := Painted(Plug(p, t), Black);
    }

    // The walk down from the root: to the node with this key, or to the place where it is missing.
    method Descend(key: int) returns (x: Ref, y: Ref, found: bool, ghost p: Place, ghost t: Tree)
      requires Valid()
      ensures Spells(store, root, p, t) && Plug(p, t) == tree && x == RootOf(t)
      ensures found ==> t.Node? && t.key == key
      ensures !found ==> t.Leaf? && y == ParentOf(p)
      ensures Between(p, key)
    {
      hide Spells, IsRedBlack;
      x, y, found := root, NIL, false;
      p, t := Top, tree;
      ReadParent(store, root, p, t);
      ReadNode(store, root, p, t);
      while x != NIL && !found
        invariant Spells(store, root, p, t) && Plug(p, t) == tree && x == RootOf(t)
        invariant found ==> t.Node? && t.key == key
        invariant !found ==> y == ParentOf(p)
        invariant (x == NIL <==> t.Leaf?) && x in store && (t.Node? ==> store[x].key == t.key)
        invariant Between(p, key)
        decreases t, !found
      {
        y := x;
        ReadNode(store, root, p, t);
        OrderPlug(p, t);
        if key < store[x].key {
          x := store[x].left;
          SplitLeft(p, t, key);
          p, t := LeftOf(t.ref, t.colour, t.key, t.right, p), t.left;
          Focus(store, root, p, t);
        } else if key > store[x].key {
          x := store[x].right;
          SplitRight(p, t, key);
          p, t := RightOf(t.ref, t.colour, t.key, t.left, p), t.right;
          Focus(store, root, p, t);
        } else {
          found := true;
        }
        ReadNode(store, root, p, t);
      }
    }

    // Adds the key, in a record at the address memory gives out, unless it is there already.
    method Insert(key: int, memory: Ref) returns (z: Ref)
      requires Valid() && memory !in store
      modifies this
      ensures Valid() && Keys(Contents()) == Keys(old(Contents())) + {key}
      ensures z in store && store[z].key == key && z != NIL
      ensures key in old(Contents()) ==> store == old(store) && root == old(root) && Contents() == old(Contents())
    {
      hide Spells;
      var x, y, found;
      ghost var p, t;
      x, y, found, p, t := Descend(key);
      OrderPlug(p, t);
      ReadNode(store, root, p, t);
      if found {
        KeyPresent(p, t);
        return x;
      }
      ReadParent(store, root, p, t);
      if !p.Top? {
        SideOf(p, key);
      }
      assert Before(p) + [] + After(p) == Before(p) + After(p);
      InsertedBetween(Before(p), key, After(p));
      z := memory;
      Attach(store, root, p, z, key);
      LeafMends(p, z, key);
      store := store[z := Cell(NIL, NIL, y, Red, key)];
      if y == NIL {
        root := z;
      } else if key < store[y].key {
        store := store[y := store[y].(left := z)];
      } else {
        store := store[y := store[y].(right := z)];
      }
      Mend(z, p, Node(z, Red, key, Leaf, Leaf));
    }

    // ---------------------------------------------------------- deletion

    // The link of x on one side.
    function Link(left: bool, x: Ref): Ref
      reads this
      requires x in store
    {
      if left then store[x].left else store[x].right
    }

    // Turns x down to the left, or to the right.
    method Rotate(left: bool, x: Ref, ghost p: Place, ghost t: Tree)
      requires Spells(store, root, p, t) && t.Node? && t.ref == x && Far(left, t).Node?
      modifies this`store, this`root
      ensures SameKeys(old(store), store)
      ensures Spells(store, root, p, if left then TurnedLeft(t) else TurnedRight(t))
    {
      if left {
        LeftRotate(x, p, t);
      } else {
        RightRotate(x, p, t);
      }
    }

    // What the fix-up loop reads around the short subtree.
    lemma ReadSibling(left: bool, r: Ref, c: Colour, k: int, w: Tree, a: Place, t: Tree)
      requires Spells(store, root, Spot(left, r, c, k, w, a), t) && w.Node?
      ensures NIL in store && r in store && r != NIL && Link(!left, r) == w.ref && store[r].colour == c
      ensures RootOf(t) in store && (t.Node? ==> store[t.ref].up == r)
      ensures RootOf(t) == Link(left, r) && RootOf(t) != w.ref && w.ref != NIL && w.ref in store
      ensures store[w.ref].colour == w.colour
      ensures Link(left, w.ref) == RootOf(Near(left, w)) && Link(!left, w.ref) == RootOf(Far(left, w))
      ensures RootOf(Near(left, w)) in store && (store[RootOf(Near(left, w))].colour.Red? <==> IsRed(Near(left, w)))
      ensures RootOf(Far(left, w)) in store && (store[RootOf(Far(left, w))].colour.Red? <==> IsRed(Far(left, w)))
      ensures Spells(store, root, Spot(!left, r, c, k, t, a), w)
    {
      var p := Spot(left, r, c, k, w, a);
      ReadNode(store, root, p, t);
      ReadParent(store, root, p, t);
      CrossOver(store, root, p, t);
      ReadNode(store, root, Across(p, t), w);
    }

    method CaseRedSibling(left: bool, up: Ref, w: Ref, ghost c: Colour, ghost k: int, ghost tw: Tree, ghost a: Place, ghost t: Tree)
      requires Spells(store, root, Spot(left, up, c, k, tw, a), t) && tw.Node? && tw.ref == w
      modifies this`store, this`root
      ensures SameKeys(old(store), store)
      ensures Spells(store, root, Spot(left, up, Red, k, Near(left, tw), Spot(left, w, Black, tw.key, Far(left, tw), a)), t)
    {
      hide Spells;
      ghost var p, b := Spot(left, up, c, k, tw, a), Painted(tw, Black);
      ReadSibling(left, up, c, k, tw, a, t);
      Paint(w, Black, Spot(!left, up, c, k, t, a), tw);
      Focus(store, root, Spot(!left, up, c, k, t, a), b);
      Paint(up, Red, a, Make(left, up, c, k, t, b));
      Rotate(left, up, a, Make(left, up, Red, k, t, b));
      ghost var q := Spot(left, w, Black, tw.key, Far(left, tw), a);
      Focus(store, root, q, Make(left, up, Red, k, t, Near(left, tw)));
      Focus(store, root, Spot(left, up, Red, k, Near(left, tw), q), t);
    }

    method CaseBlackFamily(left: bool, up: Ref, w: Ref, ghost c: Colour, ghost k: int, ghost tw: Tree, ghost a: Place, ghost t: Tree)
      requires Spells(store, root, Spot(left, up, c, k, tw, a), t) && tw.Node? && tw.ref == w
      modifies this`store
      ensures SameKeys(old(store), store)
      ensures Spells(store, root, a, Make(left, up, c, k, t, Painted(tw, Red)))
    {
      hide Spells;
      ReadSibling(left, up, c, k, tw, a, t);
      Paint(w, Red, Spot(!left, up, c, k, t, a), tw);
      Focus(store, root, Spot(!left, up, c, k, t, a), Painted(tw, Red));
    }

    method CaseRedNear(left: bool, up: Ref, w: Ref, ghost c: Colour, ghost k: int, ghost tw: Tree, ghost a: Place, ghost t: Tree)
      requires Spells(store, root, Spot(left, up, c, k, tw, a), t) && tw.Node? && tw.ref == w && Near(left, tw).Node?
      modifies this`store, this`root
      ensures SameKeys(old(store), store)
      ensures Spells(store, root, Spot(left, up, c, k, Leaned(left, tw), a), t)
    {
      hide Spells;
      ghost var n, at := Near(left, tw), Spot(!left, up, c, k, t, a);
      ReadSibling(left, up, c, k, tw, a, t);
      ghost var inner := Spot(left, w, tw.colour, tw.key, Far(left, tw), at);
      Focus(store, root, inner, n);
      Paint(Link(left, w), Black, inner, n);
      ghost var n' := Painted(n, Black);
      Focus(store, root, inner, n');
      Paint(w, Red, at, Make(left, w, tw.colour, tw.key, n', Far(left, tw)));
      Rotate(!left, w, at, Make(left, w, Red, tw.key, n', Far(left, tw)));
      CrossOver(store, root, at, Leaned(left, tw));
    }

    method CaseRedFar(left: bool, up: Ref, w: Ref, ghost c: Colour, ghost k: int, ghost tw: Tree, ghost a: Place, ghost t: Tree)
      requires Spells(store, root, Spot(left, up, c, k, tw, a), t) && tw.Node? && tw.ref == w && Far(left, tw).Node?
      modifies this`store, this`root
      ensures SameKeys(old(store), store)
      ensures Spells(store, root, a, Settled(left, up, c, k, tw, t))
    {
      hide Spells;
      ghost var f, at := Far(left, tw), Spot(!left, up, c, k, t, a);
      ReadSibling(left, up, c, k, tw, a, t);
      Paint(w, store[up].colour, at, tw);
      ghost var b := Painted(tw, c);
      Focus(store, root, at, b);
      Paint(up, Black, a, Make(left, up, c, k, t, b));
      ghost var at' := Spot(!left, up, Black, k, t, a);
      Focus(store, root, at', b);
      ghost var outer := Spot(!left, w, c, tw.key, Near(left, tw), at');
      Focus(store, root, outer, f);
      ReadNode(store, root, at', b);
      Paint(Link(!left, w), Black, outer, f);
      ghost var b' := Make(left, w, c, tw.key, Near(left, tw), Painted(f, Black));
      Focus(store, root, outer, Painted(f, Black));
      Focus(store, root, at', b');
      Rotate(left, up, a, Make(left, up, Black, k, t, b'));
    }

    // The sibling is black: one of the last three cases.
    method BlackSibling(x: Ref, left: bool, up: Ref, ghost c: Colour, ghost k: int, ghost tw: Tree, ghost a: Place, ghost t: Tree)
      returns (x': Ref, ghost p': Place, ghost t': Tree)
      requires Spells(store, root, Spot(left, up, c, k, tw, a), t) && Short(Spot(left, up, c, k, tw, a), t)
      requires !IsRed(t) && tw.Node? && !IsRed(tw) && x == RootOf(t)
      modifies this`store, this`root
      ensures SameKeys(old(store), store)
      ensures Spells(store, root, p', t') && Short(p', t') && x' == RootOf(t')
      ensures OrderAt(p', t') == OrderAt(Spot(left, up, c, k, tw, a), t)
      ensures p'.Top? || (p' == a && t'.Node? && t'.colour == c)
    {
      hide Spells, Short, OrderAt;
      ReadSibling(left, up, c, k, tw, a, t);
      var w := Link(!left, up);
      if store[Link(left, w)].colour.Black? && store[Link(!left, w)].colour.Black? {
        BlackFamily(left, up, c, k, tw, a, t);
        BlackFamilyOrder(left, up, c, k, tw, a, t);
        CaseBlackFamily(left, up, w, c, k, tw, a, t);
        x', p', t' := up, a, Make(left, up, c, k, t, Painted(tw, Red));
      } else {
        ghost var lean := tw;
        if store[Link(!left, w)].colour.Black? {
          RedNear(left, up, c, k, tw, a, t);
          RedNearOrder(left, up, c, k, tw, a, t);
          CaseRedNear(left, up, w, c, k, tw, a, t);
          lean := Leaned(left, tw);
          ReadSibling(left, up, c, k, lean, a, t);
          w := Link(!left, up);
        }
        RedFar(left, up, c, k, lean, a, t);
        RedFarOrder(left, up, c, k, lean, a, t);
        CaseRedFar(left, up, w, c, k, lean, a, t);
        p', t' := SettleAtRoot(a, Settled(left, up, c, k, lean, t));
        x' := root;
      }
    }

    // The whole tree in focus.
    lemma SettleAtRoot(a: Place, s: Tree) returns (p': Place, t': Tree)
      requires Spells(store, root, a, s) && IsRedBlack(Plug(a, s))
      ensures p' == Top && t' == Plug(a, s) && Spells(store, root, p', t') && Short(p', t') && root == RootOf(t')
      ensures OrderAt(p', t') == OrderAt(a, s)
    {
      p', t' := Top, Plug(a, s);
      ZipUp(store, root, a, s);
      OrderPlug(a, s);
    }

    // One turn of the deletion fix-up loop.
    method RestoreStep(x: Ref, ghost p: Place, ghost t: Tree) returns (x': Ref, ghost p': Place, ghost t': Tree)
      requires Spells(store, root, p, t) && Short(p, t) && !p.Top? && !IsRed(t)
      requires x == RootOf(t) && x in store && store[x].up == p.ref
      modifies this`store, this`root
      ensures SameKeys(old(store), store)
      ensures Spells(store, root, p', t') && Short(p', t') && x' == RootOf(t')
      ensures OrderAt(p', t') == OrderAt(p, t)
      ensures p'.Top? || (t'.Node? && (IsRed(t') || Depth(p') < Depth(p)))
    {
      hide Spells, Short, OrderAt;
      HasSibling(p, t);
      ghost var l, tw, a, c, k := p.LeftOf?, Sibling(p), p.above, p.colour, p.key;
      ReadSibling(l, p.ref, c, k, tw, a, t);
      ghost var q := a;
      var up := store[x].up;
      var left := x == store[up].left;
      var w := Link(!left, up);
      if store[w].colour.Red? {
        RedSibling(left, up, c, k, tw, a, t);
        RedSiblingOrder(left, up, c, k, tw, a, t);
        CaseRedSibling(left, up, w, c, k, tw, a, t);
        q := Spot(left, w, Black, tw.key, Far(left, tw), a);
        c, tw := Red, Near(left, tw);
        x', p', t' := BlackSibling(x, left, up, c, k, tw, q, t);
      } else {
        x', p', t' := BlackSibling(x, left, up, c, k, tw, q, t);
      }
    }

    // The deletion fix-up loop, and the last painting.
    method Restore(x0: Ref, ghost p0: Place, ghost t0: Tree)
      requires Spells(store, root, p0, t0) && Short(p0, t0)
      requires x0 == RootOf(t0) && x0 in store && store[x0].up == ParentOf(p0)
      modifies this`store, this`root, this`tree
      ensures Spells(store, root, Top, tree) && IsRedBlack(tree) && Order(tree) == OrderAt(p0, t0) && store.Keys == old(store.Keys)
    {
      hide Spells, OrderAt, IsRedBlack, Short;
      var x := x0;
      ghost var p, t := p0, t0;
      ReadNode(store, root, p, t);
      ReadParent(store, root, p, t);
      while x != root && store[x].colour.Black?
        invariant Spells(store, root, p, t) && Short(p, t) && OrderAt(p, t) == OrderAt(p0, t0) && store.Keys == old(store.Keys)
        invariant x == RootOf(t) && x in store && (!p.Top? ==> store[x].up == p.ref)
        invariant x != root && store[x].colour.Black? <==> !p.Top? && !IsRed(t)
        decreases if p.Top? || IsRed(t) then 0 else 1 + Depth(p)
      {
        x, p, t := RestoreStep(x, p, t);
        ReadNode(store, root, p, t);
        ReadParent(store, root, p, t);
      }
      ReadNode(store, root, p, t);
      PaintCures(p, t);
      PaintedOrderAt(p, t);
      if x != NIL {
        Paint(x, Black, p, t);
      }
      ZipUp(store, root, p, Painted(t, Black));
      tree := Plug(p, Painted(t, Black));
    }

    // ---------------------------------------------------------- walking

    // Keeps going left until there is no left child.
    method LeftEnd(y0: Ref, ghost q0: Place, ghost t0: Tree) returns (y: Ref, ghost q: Place, ghost t: Tree)
      requires Spells(store, root, q0, t0) && t0.Node? && t0.ref == y0
      ensures Spells(store, root, q, t) && t.Node? && t.ref == y && t.left.Leaf?
      ensures Spine(q, q0) && Plug(q, t) == Plug(q0, t0)
      ensures Order(t) + After(q) == Order(t0) + After(q0)
    {
      hide Spells;
      y, q, t := y0, q0, t0;
      ReadNode(store, root, q, t);
      while store[y].left != NIL
        invariant Spells(store, root, q, t) && t.Node? && t.ref == y && y in store && store[y].left == RootOf(t.left)
        invariant store[y].left == NIL <==> t.left.Leaf?
        invariant Spine(q, q0) && Plug(q, t) == Plug(q0, t0)
        invariant Order(t) + After(q) == Order(t0) + After(q0)
        decreases t
      {
        y := store[y].left;
        LeftmostFirst(t, After(q));
        q, t := LeftOf(t.ref, t.colour, t.key, t.right, q), t.left;
        Focus(store, root, q, t);
        ReadNode(store, root, q, t);
      }
    }

    // Takes out the node y, which has at most one child; x moves up.
    method Splice(y: Ref, ghost q: Place, ghost ty: Tree) returns (x: Ref, ghost tx: Tree)
      requires Spells(store, root, q, ty) && ty.Node? && ty.ref == y && (ty.left.Leaf? || ty.right.Leaf?)
      modifies this`store, this`root
      ensures Spells(store, root, q, tx) && x == RootOf(tx) && x in store && store[x].up == ParentOf(q)
      ensures (ty.left.Leaf? && tx == ty.right) || (ty.right.Leaf? && tx == ty.left)
      ensures y !in Refs(tx) && y !in RefsAround(q) && y in store && store[y] == old(store[y])
      ensures store.Keys == old(store.Keys) && forall r | r in old(store) :: store[r].key == old(store[r].key)
    {
      hide Spells;
      tx := if ty.left.Node? then ty.left else ty.right;
      ReadNode(store, root, q, ty);
      ReadParent(store, root, q, ty);
      Detach(store, root, q, ty, tx);
      SpliceApart(store, root, q, ty, tx);
      x := if store[y].left != NIL then store[y].left else store[y].right;
      var up := store[y].up;
      store := store[x := store[x].(up := up)];
      Rehang(y, x, up, q);
    }

    // Removes the key if it is there.  The record is freed before the fix-up, which never
    // touches it.
    method Delete(key: int) returns (found: bool)
      requires Valid()
      modifies this
      ensures Valid() && Keys(Contents()) == Keys(old(Contents())) - {key}
      ensures found <==> key in old(Contents())
      ensures !found ==> store == old(store) && root == old(root) && Contents() == old(Contents())
    {
      var z, y, f;
      ghost var p, t;
      z, y, f, p, t := Descend(key);
      found := f;
      OrderPlug(p, t);
      if !found {
        AbsentHere(p, key);
        return;
      }
      ReadNode(store, root, p, t);
      if store[z].left == NIL || store[z].right == NIL {
        DeleteHere(z, p, t);
      } else {
        DeleteSuccessor(z, p, t);
      }
      RemovedKey(old(Contents()), key, Contents());
    }

    // The node itself is taken out.
    method DeleteHere(z: Ref, ghost p: Place, ghost t: Tree)
      requires Spells(store, root, p, t) && Plug(p, t) == tree && IsRedBlack(tree)
      requires t.Node? && t.ref == z && (t.left.Leaf? || t.right.Leaf?)
      modifies this
      ensures Spells(store, root, Top, tree) && IsRedBlack(tree)
      ensures exists a, b :: OrderAt(p, t) == a + [t.key] + b && Order(tree) == a + b
      ensures |store.Keys| == |old(store.Keys)| - 1
    {
      hide Spells;
      ReadNode(store, root, p, t);
      var c := store[z].colour;
      var x;
      ghost var tx;
      x, tx := Splice(z, p, t);
      SpliceOrder(p, t, tx);
      ReadNode(store, root, p, tx);
      Free(store, root, p, tx, z);
      store := store - {z};
      if c.Black? {
        SpliceBlack(p, t, tx);
        Restore(x, p, tx);
      } else {
        SpliceRed(p, t, tx);
        ZipUp(store, root, p, tx);
        OrderPlug(p, tx);
        tree := Plug(p, tx);
      }
    }

    // The successor is taken out and its key moves up.
    method DeleteSuccessor(z: Ref, ghost p: Place, ghost t: Tree)
      requires Spells(store, root, p, t) && Plug(p, t) == tree && IsRedBlack(tree)
      requires t.Node? && t.ref == z && t.left.Node? && t.right.Node?
      modifies this
      ensures Spells(store, root, Top, tree) && IsRedBlack(tree)
      ensures exists a, b :: OrderAt(p, t) == a + [t.key] + b && Order(tree) == a + b
      ensures |store.Keys| == |old(store.Keys)| - 1
    {
      hide Spells, IsRedBlack, OrderAt, Order;
      ghost var base := RightOf(t.ref, t.colour, t.key, t.left, p);
      Focus(store, root, base, t.right);
      ReadNode(store, root, p, t);
      var y;
      ghost var q, ty;
      y, q, ty := LeftEnd(store[z].right, base, t.right);
      ReadNode(store, root, q, ty);
      var c, k := store[y].colour, store[y].key;
      var x;
      ghost var tx;
      x, tx := Splice(y, q, ty);
      ReadNode(store, root, q, tx);
      Free(store, root, q, tx, y);
      store := store - {y};
      RekeyedSpells(store, root, q, tx, base, k);
      store := store[z := store[z].(key := k)];
      assert t == Node(t.ref, t.colour, t.key, t.left, t.right);
      SamePlugSameOrder(p, t, q, ty);
      FinishSuccessor(x, c, q, base, ty, tx);
    }

    // The fix-up after the successor's record is gone.
    method FinishSuccessor(x: Ref, c: Colour, ghost q: Place, ghost base: Place, ghost ty: Tree, ghost tx: Tree)
      requires Spine(q, base) && base.RightOf? && ty.Node? && ty.left.Leaf? && tx == ty.right && ty.colour == c
      requires IsRedBlack(Plug(q, ty)) && Spells(store, root, Rekeyed(q, base, ty.key), tx)
      requires x == RootOf(tx) && x in store && store[x].up == ParentOf(q)
      modifies this
      ensures Spells(store, root, Top, tree) && IsRedBlack(tree)
      ensures exists a, b :: OrderAt(q, ty) == a + [base.key] + b && Order(tree) == a + b
      ensures store.Keys == old(store.Keys)
    {
      hide Spells;
      ghost var k := ty.key;
      ghost var q' := Rekeyed(q, base, k);
      SuccessorOrder(q, base, ty);
      SpineParent(q, base, k);
      if c.Black? {
        SpliceBlack(q, ty, tx);
        RekeyedShort(q, base, k, tx);
        Restore(x, q', tx);
      } else {
        SpliceRed(q, ty, tx);
        RekeyedRedBlack(q, base, k, tx);
        ZipUp(store, root, q', tx);
        OrderPlug(q', tx);
        tree := Plug(q', tx);
      }
    }

    // ---------------------------------------------------------- neighbours

    method RightEnd(y0: Ref, ghost q0: Place, ghost t0: Tree) returns (y: Ref, ghost q: Place, ghost t: Tree)
      requires Spells(store, root, q0, t0) && t0.Node? && t0.ref == y0
      ensures Spells(store, root, q, t) && t.Node? && t.ref == y && t.right.Leaf?
      ensures Plug(q, t) == Plug(q0, t0) && Before(q) + Order(t) == Before(q0) + Order(t0)
    {
      hide Spells;
      y, q, t := y0, q0, t0;
      ReadNode(store, root, q, t);
      while store[y].right != NIL
        invariant Spells(store, root, q, t) && t.Node? && t.ref == y && y in store && store[y].right == RootOf(t.right)
        invariant store[y].right == NIL <==> t.right.Leaf?
        invariant Plug(q, t) == Plug(q0, t0) && Before(q) + Order(t) == Before(q0) + Order(t0)
        decreases t
      {
        y := store[y].right;
        assert Before(q) + (Order(t.left) + [t.key] + Order(t.right)) == Before(q) + (Order(t.left) + [t.key]) + Order(t.right);
        q, t := RightOf(t.ref, t.colour, t.key, t.left, q), t.right;
        Focus(store, root, q, t);
        ReadNode(store, root, q, t);
      }
    }

    // The node with the next larger key, or none: its keys from there on are those after x's.
    method Successor(x: Ref, ghost p: Place, ghost t: Tree) returns (y: Ref, ghost q: Place, ghost u: Tree)
      requires Spells(store, root, p, t) && t.Node? && t.ref == x
      ensures y == NIL <==> Onward(p, t)[1..] == []
      ensures y != NIL ==> Spells(store, root, q, u) && u.Node? && u.ref == y && Plug(q, u) == Plug(p, t)
      ensures y != NIL ==> Onward(q, u) == Onward(p, t)[1..] && y in store && store[y].key == u.key
    {
      hide Spells;
      ReadNode(store, root, p, t);
      OnwardTail(p, t);
      if store[x].right != NIL {
        q, u := RightOf(t.ref, t.colour, t.key, t.left, p), t.right;
        Focus(store, root, q, u);
        y, q, u := LeftEnd(store[x].right, q, u);
        ReadNode(store, root, q, u);
        OnwardFromLeft(q, u);
      } else {
        y, q, u := ClimbRight(x, p, t);
      }
    }

    // Goes up until it comes from the left.
    method ClimbRight(x0: Ref, ghost p: Place, ghost t: Tree) returns (y: Ref, ghost q: Place, ghost u: Tree)
      requires Spells(store, root, p, t) && t.Node? && t.ref == x0
      ensures y == NIL <==> After(p) == []
      ensures y != NIL ==> Spells(store, root, q, u) && u.Node? && u.ref == y && Plug(q, u) == Plug(p, t)
      ensures y != NIL ==> Onward(q, u) == After(p) && y in store && store[y].key == u.key
    {
      hide Spells;
      var x := x0;
      q, u := p, t;
      ReadNode(store, root, q, u);
      ReadParent(store, root, q, u);
      y := store[x].up;
      while y != NIL && x == store[y].right
        invariant Spells(store, root, q, u) && u.Node? && u.ref == x && y == ParentOf(q) && (y == NIL || y in store)
        invariant (q.Top? <==> y == NIL) && (q.RightOf? ==> store[y].right == x) && (q.LeftOf? ==> store[y].right != x)
        invariant Plug(q, u) == Plug(p, t) && After(q) == After(p)
        decreases q
      {
        x := y;
        Focus(store, root, q, u);
        q, u := q.above, Joined(q, u);
        ReadNode(store, root, q, u);
        ReadParent(store, root, q, u);
        y := store[y].up;
      }
      if y != NIL {
        Focus(store, root, q, u);
        q, u := q.above, Joined(q, u);
        ReadNode(store, root, q, u);
      }
    }

    // The node with the next smaller key, or none.
    method Predecessor(x: Ref, ghost p: Place, ghost t: Tree) returns (y: Ref, ghost q: Place, ghost u: Tree)
      requires Spells(store, root, p, t) && t.Node? && t.ref == x
      ensures y == NIL <==> Before(p) + Order(t.left) == []
      ensures y != NIL ==> Spells(store, root, q, u) && u.Node? && u.ref == y && Plug(q, u) == Plug(p, t)
      ensures y != NIL ==> Upto(q, u) == Before(p) + Order(t.left) && y in store && store[y].key == u.key
    {
      hide Spells;
      ReadNode(store, root, p, t);
      if store[x].left != NIL {
        q, u := LeftOf(t.ref, t.colour, t.key, t.right, p), t.left;
        Focus(store, root, q, u);
        y, q, u := RightEnd(store[x].left, q, u);
        ReadNode(store, root, q, u);
        assert Order(u) == Order(u.left) + [u.key] + [];
        assert Upto(q, u) == Before(q) + Order(u);
      } else {
        assert Order(t.left) == [];
        assert Before(p) + Order(t.left) == Before(p);
        y, q, u := ClimbLeft(x, p, t);
      }
    }

    // Goes up until it comes from the right.
    method ClimbLeft(x0: Ref, ghost p: Place, ghost t: Tree) returns (y: Ref, ghost q: Place, ghost u: Tree)
      requires Spells(store, root, p, t) && t.Node? && t.ref == x0
      ensures y == NIL <==> Before(p) == []
      ensures y != NIL ==> Spells(store, root, q, u) && u.Node? && u.ref == y && Plug(q, u) == Plug(p, t)
      ensures y != NIL ==> Upto(q, u) == Before(p) && y in store && store[y].key == u.key
    {
      hide Spells;
      var x := x0;
      q, u := p, t;
      ReadNode(store, root, q, u);
      ReadParent(store, root, q, u);
      y := store[x].up;
      while y != NIL && x == store[y].left
        invariant Spells(store, root, q, u) && u.Node? && u.ref == x && y == ParentOf(q) && (y == NIL || y in store)
        invariant (q.Top? <==> y == NIL) && (q.LeftOf? ==> store[y].left == x) && (q.RightOf? ==> store[y].left != x)
        invariant Plug(q, u) == Plug(p, t) && Before(q) == Before(p)
        decreases q
      {
        x := y;
        Focus(store, root, q, u);
        q, u := q.above, Joined(q, u);
        ReadNode(store, root, q, u);
        ReadParent(store, root, q, u);
        y := store[y].up;
      }
      if y != NIL {
        Focus(store, root, q, u);
        q, u := q.above, Joined(q, u);
        ReadNode(store, root, q, u);
        assert Before(q) + (Order(u.left) + [u.key]) == Before(q) + Order(u.left) + [u.key];
      }
    }
  }

  // The keys from the focused node on.
  ghost function Onward(p: Place, t: Tree): seq<int>
    requires t.Node?
  {
    [t.key] + Order(t.right) + After(p)
  }

  lemma LeftmostFirst(t: Tree, after: seq<int>)
    requires t.Node?
    ensures Order(t) + after == Order(t.left) + ([t.key] + Order(t.right) + after)
  {
  }

  lemma OnwardTail(p: Place, t: Tree)
    requires t.Node?
    ensures Onward(p, t)[1..] == Order(t.right) + After(p)
    ensures t.right.Leaf? ==> Onward(p, t)[1..] == After(p)
  {
  }

  lemma OnwardFromLeft(p: Place, t: Tree)
    requires t.Node? && t.left.Leaf?
    ensures Onward(p, t) == Order(t) + After(p)
  {
    assert Order(t) == [t.key] + Order(t.right);
  }

  // The keys up to the focused node.
  ghost function Upto(p: Place, t: Tree): seq<int>
    requires t.Node?
  {
    Before(p) + Order(t.left) + [t.key]
  }

  // The removed node is not among those that stay.
  lemma SpliceApart(m: Store, root: Ref, q: Place, ty: Tree, tx: Tree)
    requires Spells(m, root, q, ty) && ty.Node? && (tx == ty.left || tx == ty.right)
    ensures ty.ref !in Refs(tx) && ty.ref !in RefsAround(q) && ty.ref != RootOf(tx)
    ensures !q.Top? ==> q.ref != RootOf(tx) && q.ref != ty.ref
  {
    assert Apart(tx) && Refs(tx) <= Refs(ty);
    RefsAroundNotNil(q);
    assert tx.Node? ==> tx.ref in Refs(tx);
  }

  lemma SpineParent(q: Place, base: Place, k: int)
    requires Spine(q, base) && base.RightOf?
    ensures ParentOf(Rekeyed(q, base, k)) == ParentOf(q)
  {
  }

  lemma RekeyedShort(q: Place, base: Place, k: int, t: Tree)
    requires Spine(q, base) && base.RightOf? && Short(q, t)
    ensures Short(Rekeyed(q, base, k), t)
  {
    RekeyedColours(q, base, k, Blacks(t) + 1);
  }

  lemma RekeyedRedBlack(q: Place, base: Place, k: int, t: Tree)
    requires Spine(q, base) && base.RightOf? && IsRedBlack(Plug(q, t))
    ensures IsRedBlack(Plug(Rekeyed(q, base, k), t))
  {
    var q' := Rekeyed(q, base, k);
    RekeyedColours(q, base, k, Blacks(t));
    NoRedRedPlug(q, t);
    EvenPlug(q, t);
    BlackTopPlug(q, t);
    NoRedRedPlug(q', t);
    EvenPlug(q', t);
    BlackTopPlug(q', t);
  }

  lemma AbsentHere(p: Place, key: int)
    requires Between(p, key)
    ensures key !in Before(p) + [] + After(p)
  {
  }

  lemma RemovedKey(s: seq<int>, key: int, r: seq<int>)
    requires Ascending(s) && exists a, b :: s == a + [key] + b && r == a + b
    ensures Ascending(r) && Keys(r) == Keys(s) - {key} && key in s
  {
    var a, b :| s == a + [key] + b && r == a + b;
    assert s[|a|] == key;
    assert forall i | 0 <= i < |r| :: r[i] == s[if i < |a| then i else i + 1];
    assert forall i | 0 <= i < |s| && i != |a| :: s[i] == r[if i < |a| then i else i - 1];
  }

  lemma PaintedOrderAt(p: Place, t: Tree)
    ensures Order(Plug(p, Painted(t, Black))) == OrderAt(p, t)
  {
    OrderPlug(p, Painted(t, Black));
    PaintedOrder(t, Black);
  }

  ghost function Keys(s: seq<int>): set<int> {
    set k | k in s
  }

  // Every key before the place is smaller, every key after it larger.
  ghost predicate Between(p: Place, key: int) {
    (forall k | k in Before(p) :: k < key) && (forall k | k in After(p) :: key < k)
  }

  lemma SplitLeft(p: Place, t: Tree, key: int)
    requires t.Node? && Between(p, key) && Ascending(Before(p) + Order(t) + After(p)) && key < t.key
    ensures Between(LeftOf(t.ref, t.colour, t.key, t.right, p), key)
  {
    var s, n := Before(p) + Order(t) + After(p), |Before(p)| + |Order(t.left)|;
    assert s[n] == t.key;
    forall k | k in Order(t.right) ensures key < k {
      var i :| 0 <= i < |Order(t.right)| && Order(t.right)[i] == k;
      assert s[n + 1 + i] == k;
    }
  }

  lemma SplitRight(p: Place, t: Tree, key: int)
    requires t.Node? && Between(p, key) && Ascending(Before(p) + Order(t) + After(p)) && t.key < key
    ensures Between(RightOf(t.ref, t.colour, t.key, t.left, p), key)
  {
    var s, n := Before(p) + Order(t) + After(p), |Before(p)|;
    assert s[n + |Order(t.left)|] == t.key;
    forall k | k in Order(t.left) ensures k < key {
      var i :| 0 <= i < |Order(t.left)| && Order(t.left)[i] == k;
      assert s[n + i] == k;
    }
  }

  // A new red leaf between its neighbours mends.
  lemma LeafMends(p: Place, z: Ref, key: int)
    requires IsRedBlack(Plug(p, Leaf))
    ensures Mending(p, Node(z, Red, key, Leaf, Leaf))
    ensures OrderAt(p, Node(z, Red, key, Leaf, Leaf)) == Before(p) + [key] + After(p)
  {
    NoRedRedPlug(p, Leaf);
    EvenPlug(p, Leaf);
    BlackTopPlug(p, Leaf);
    FreshLeafMends(p, z, key);
    assert Order(Leaf) == [] && Order(Node(z, Red, key, Leaf, Leaf)) == [key];
  }

  // On which side of its parent the missing key belongs.
  lemma SideOf(p: Place, key: int)
    requires Between(p, key) && !p.Top?
    ensures p.LeftOf? <==> key < p.key
  {
    if p.LeftOf? {
      assert p.key in After(p);
    } else {
      assert p.key in Before(p);
    }
  }

  lemma InsertedBetween(a: seq<int>, key: int, b: seq<int>)
    requires Ascending(a + b) && (forall k | k in a :: k < key) && (forall k | k in b :: key < k)
    ensures Ascending(a + [key] + b) && Keys(a + [key] + b) == Keys(a + b) + {key} && key !in a + b
  {
    var s, o := a + [key] + b, a + b;
    assert forall i | 0 <= i < |a| :: s[i] == o[i] && s[i] in a;
    assert forall i | |a| < i < |s| :: s[i] == o[i - 1] && s[i] in b;
  }

  lemma KeyPresent(p: Place, t: Tree)
    requires t.Node?
    ensures t.key in OrderAt(p, t) && Keys(OrderAt(p, t)) == Keys(OrderAt(p, t)) + {t.key}
  {
    assert OrderAt(p, t)[|Before(p)| + |Order(t.left)|] == t.key;
  }

  lemma {:induction false} ZipUp(m: Store, root: Ref, p: Place, t: Tree)
    ensures Spells(m, root, p, t) <==> Spells(m, root, Top, Plug(p, t))
    decreases p
  {
    if !p.Top? {
      Focus(m, root, p, t);
      ZipUp(m, root, p.above, Joined(p, t));
    }
  }

  lemma MendedWhole(p: Place, t: Tree)
    requires Mending(p, t) && !RedAbove(p)
    ensures Plug(p, t).Node?
    ensures IsRedBlack(Painted(Plug(p, t), Black)) && Order(Painted(Plug(p, t), Black)) == OrderAt(p, t)
  {
    MendedIsRedBlack(p, t);
    OrderPlug(p, t);
    PaintedOrder(Plug(p, t), Black);
    PlugIsNode(p, t);
  }

  lemma {:induction false} PlugIsNode(p: Place, t: Tree)
    requires t.Node?
    ensures Plug(p, t).Node?
    decreases p
  {
    if !p.Top? {
      PlugIsNode(p.above, Joined(p, t));
    }
  }

  ghost function Depth(p: Place): nat {
    if p.Top? then 0 else 1 + Depth(p.above)
  }

  lemma SamePlugSameOrder(p: Place, t: Tree, q: Place, u: Tree)
    requires Plug(p, t) == Plug(q, u)
    ensures OrderAt(p, t) == OrderAt(q, u)
  {
    OrderPlug(p, t);
    OrderPlug(q, u);
  }

  // A tree has as many records as keys.
  lemma {:induction false} RefsAreKeys(t: Tree)
    requires Apart(t)
    ensures |Refs(t)| == |Order(t)|
  {
    if t.Node? {
      RefsAreKeys(t.left);
      RefsAreKeys(t.right);
      assert |Refs(t.left) + Refs(t.right)| == |Refs(t.left)| + |Refs(t.right)|;
      assert Refs(t) == {t.ref} + (Refs(t.left) + Refs(t.right));
    }
  }

  lemma {:induction false} RefsAreHeld(m: Store, t: Tree, up: Ref)
    requires Holds(m, t, up)
    ensures Refs(t) <= m.Keys
  {
    if t.Node? {
      RefsAreHeld(m, t.left, t.ref);
      RefsAreHeld(m, t.right, t.ref);
    }
  }

  lemma SubsetOfSameSize(a: set<Ref>, b: set<Ref>)
    requires a <= b && |a| == |b|
    ensures a == b
  {
    assert |b - a| == |b| - |a|;
  }

  // The records in memory are those of the tree and the sentinel: none is leaked.
  lemma OneRecordEach(tree: RbTree)
    requires tree.Valid()
    ensures tree.store.Keys == Refs(tree.tree) + {NIL}
  {
    RefsAreKeys(tree.tree);
    RefsAreHeld(tree.store, tree.tree, NIL);
    RefsNotNil(tree.tree);
    SubsetOfSameSize(Refs(tree.tree) + {NIL}, tree.store.Keys);
  }
}
