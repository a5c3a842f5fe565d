/**
 * Inserting into a red-black tree: what each turn of the fix-up loop does to the tree.
 */
module RedBlackInsert {
  import opened RedBlackTrees
  import opened RedBlackStore

  // A red subtree whose parent may be red too; everything else is as it should be.
  ghost predicate Mending(p: Place, t: Tree) {
    && IsRed(t) && NoRedRed(t) && NoRedRedAround(p)
    && Even(t) && EvenAround(p, Blacks(t))
    && BlackTop(p)
  }

  ghost function OrderAt(p: Place, t: Tree): seq<int> {
    Before(p) + Order(t) + After(p)
  }

  lemma OrderJoined(p: Place, t: Tree)
    requires !p.Top?
    ensures OrderAt(p.above, Joined(p, t)) == OrderAt(p, t)
  {
    var a := p.above;
    if p.LeftOf? {
      RegroupAround(Before(a), Order(t), p.key, Order(p.right), After(a));
    } else {
      RegroupAround(Before(a), Order(p.left), p.key, Order(t), After(a));
    }
  }

  // A red parent is not the root.
  lemma Grandparent(p: Place, t: Tree)
    requires Mending(p, t) && RedAbove(p)
    ensures !p.above.Top? && p.above.colour.Black?
  {
  }

  // ------------------------------------------------------------ red uncle: push the red up

  // Parent and uncle painted black, grandparent red.
  ghost function Pushed(p: Place, t: Tree): Tree
    requires !p.Top? && !p.above.Top?
  {
    var g := p.above;
    var parent := Painted(Joined(p, t), Black);
    if g.LeftOf? then Node(g.ref, Red, g.key, parent, Painted(g.right, Black))
    else Node(g.ref, Red, g.key, Painted(g.left, Black), parent)
  }

  lemma PushKeeps(p: Place, t: Tree)
    requires Mending(p, t) && RedAbove(p) && !p.above.Top? && IsRed(Sibling(p.above))
    ensures Mending(p.above.above, Pushed(p, t))
  {
    var g, h := p.above, Blacks(t);
    assert NoRedRedAround(g) && EvenAround(g, h) && BlackTop(g) && g.colour.Black?;
    assert NoRedRedAround(g.above) && EvenAround(g.above, h + 1) && BlackTop(g.above);
  }

  lemma PushOrder(p: Place, t: Tree)
    requires !p.Top? && !p.above.Top?
    ensures OrderAt(p.above.above, Pushed(p, t)) == OrderAt(p, t)
  {
    OrderJoined(p, t);
    OrderJoined(p.above, Joined(p, t));
    assert Order(Pushed(p, t)) == Order(Joined(p.above, Joined(p, t)));
  }

  // ------------------------------------------------------------ black uncle: rotate

  // An inner grandchild becomes an outer one.
  ghost function Outward(p: Place, t: Tree): (Place, Tree)
    requires !p.Top? && t.Node?
  {
    if p.RightOf? then
      (LeftOf(t.ref, t.colour, t.key, t.right, p.above), Node(p.ref, p.colour, p.key, p.left, t.left))
    else
      (RightOf(t.ref, t.colour, t.key, t.left, p.above), Node(p.ref, p.colour, p.key, t.right, p.right))
  }

  lemma OutwardKeeps(p: Place, t: Tree)
    requires Mending(p, t) && RedAbove(p)
    ensures Mending(Outward(p, t).0, Outward(p, t).1) && RedAbove(Outward(p, t).0)
    ensures Outward(p, t).0.above == p.above
  {
  }

  lemma OutwardOrder(p: Place, t: Tree)
    requires !p.Top? && t.Node?
    ensures OrderAt(Outward(p, t).0, Outward(p, t).1) == OrderAt(p, t)
  {
    var o := Outward(p, t);
    OrderJoined(p, t);
    OrderJoined(o.0, o.1);
    if p.RightOf? {
      Regroup(Order(p.left), p.key, Order(t.left), t.key, Order(t.right));
    } else {
      Regroup(Order(t.left), t.key, Order(t.right), p.key, Order(p.right));
    }
  }

  // The parent, painted black, takes the grandparent's place; the grandparent, red, the
  // other side.
  ghost function Raised(p: Place): Place
    requires !p.Top? && !p.above.Top?
  {
    var g := p.above;
    if p.LeftOf? then LeftOf(p.ref, Black, p.key, Node(g.ref, Red, g.key, p.right, Sibling(g)), g.above)
    else RightOf(p.ref, Black, p.key, Node(g.ref, Red, g.key, Sibling(g), p.left), g.above)
  }

  ghost predicate SameSide(p: Place)
    requires !p.Top?
  {
    !p.above.Top? && (p.LeftOf? <==> p.above.LeftOf?)
  }

  lemma RaiseKeeps(p: Place, t: Tree)
    requires Mending(p, t) && RedAbove(p) && SameSide(p) && !IsRed(Sibling(p.above))
    ensures Mending(Raised(p), t) && !RedAbove(Raised(p))
  {
    var g, h := p.above, Blacks(t);
    assert NoRedRedAround(g) && EvenAround(g, h) && BlackTop(g) && g.colour.Black?;
    assert NoRedRedAround(g.above) && EvenAround(g.above, h + 1) && BlackTop(g.above);
  }

  lemma RaiseOrder(p: Place, t: Tree)
    requires !p.Top? && SameSide(p)
    ensures OrderAt(Raised(p), t) == OrderAt(p, t)
  {
    var g := p.above;
    OrderJoined(p, t);
    OrderJoined(g, Joined(p, t));
    OrderJoined(Raised(p), t);
    if p.LeftOf? {
      Regroup(Order(t), p.key, Order(p.right), g.key, Order(g.right));
    } else {
      Regroup(Order(g.left), g.key, Order(p.left), p.key, Order(t));
    }
  }

  // ------------------------------------------------------------ start and finish

  lemma FreshLeafMends(p: Place, z: Ref, k: int)
    requires NoRedRedAround(p) && EvenAround(p, 0) && BlackTop(p)
    ensures Mending(p, Node(z, Red, k, Leaf, Leaf))
  {
  }

  // With a black parent, or at the root once painted black, the tree is red-black again.
  lemma MendedIsRedBlack(p: Place, t: Tree)
    requires Mending(p, t) && !RedAbove(p)
    ensures IsRedBlack(Plug(p, if p.Top? then Painted(t, Black) else t))
  {
    NoRedRedPlug(p, t);
    EvenPlug(p, t);
    BlackTopPlug(p, t);
  }
}
