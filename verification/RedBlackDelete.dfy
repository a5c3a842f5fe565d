/**
 * Deleting from a red-black tree: what each turn of the fix-up loop does to the tree.
 * The two sides mirror each other; left says on which side the short subtree hangs.
 */
module RedBlackDelete {
  import opened RedBlackTrees
  import opened RedBlackStore
  import opened RedBlackInsert

  ghost function Make(left: bool, r: Ref, c: Colour, k: int, near: Tree, far: Tree): Tree {
    if left then Node(r, c, k, near, far) else Node(r, c, k, far, near)
  }

  ghost function Spot(left: bool, r: Ref, c: Colour, k: int, far: Tree, above: Place): Place {
    if left then LeftOf(r, c, k, far, above) else RightOf(r, c, k, far, above)
  }

  ghost function Near(left: bool, t: Tree): Tree
    requires t.Node?
  {
    if left then t.left else t.right
  }

  ghost function Far(left: bool, t: Tree): Tree
    requires t.Node?
  {
    if left then t.right else t.left
  }

  // The subtree t is one black short; everything else is as it should be, except that t
  // may be red where red is not allowed.
  ghost predicate Short(p: Place, t: Tree) {
    && NoRedRed(Painted(t, Black)) && NoRedRedAround(p)
    && Even(t) && EvenAround(p, Blacks(t) + 1)
    && BlackTop(p)
  }

  // A short subtree has a sibling.
  lemma HasSibling(p: Place, t: Tree)
    requires Short(p, t) && !p.Top?
    ensures Sibling(p).Node?
  {
  }

  // ------------------------------------------------------------ the four cases

  // Red sibling: turn the parent so that the sibling's near child is the new, black sibling.
  lemma RedSibling(left: bool, r: Ref, c: Colour, k: int, w: Tree, a: Place, t: Tree)
    requires Short(Spot(left, r, c, k, w, a), t) && !IsRed(t) && IsRed(w)
    ensures Short(Spot(left, r, Red, k, Near(left, w), Spot(left, w.ref, Black, w.key, Far(left, w), a)), t)
    ensures Near(left, w).Node? && !IsRed(Near(left, w))
  {
    assert c.Black?;
    assert EvenAround(a, Blacks(t) + 2) && NoRedRedAround(a) && BlackTop(a);
    var q := Spot(left, w.ref, Black, w.key, Far(left, w), a);
    assert BlackTop(q) && NoRedRedAround(q) && EvenAround(q, Blacks(t) + 1);
  }

  // Black sibling with black children: paint it red and move the shortage up.
  lemma BlackFamily(left: bool, r: Ref, c: Colour, k: int, w: Tree, a: Place, t: Tree)
    requires Short(Spot(left, r, c, k, w, a), t) && !IsRed(t) && w.Node? && !IsRed(w)
    requires !IsRed(w.left) && !IsRed(w.right)
    ensures Short(a, Make(left, r, c, k, t, Painted(w, Red)))
  {
    assert EvenAround(a, Blacks(t) + 1 + Step(c)) && NoRedRedAround(a) && BlackTop(a);
    assert NoRedRed(t);
  }

  // Black sibling whose far child is black and near child red.
  ghost function Leaned(left: bool, w: Tree): Tree
    requires w.Node? && Near(left, w).Node?
  {
    var n := Near(left, w);
    Make(left, n.ref, Black, n.key, Near(left, n), Make(left, w.ref, Red, w.key, Far(left, n), Far(left, w)))
  }

  lemma LeanedIsSound(left: bool, w: Tree)
    requires w.Node? && !IsRed(w) && IsRed(Near(left, w)) && !IsRed(Far(left, w))
    requires Even(w) && NoRedRed(w)
    ensures var v := Leaned(left, w);
      Even(v) && NoRedRed(v) && Blacks(v) == Blacks(w) && !IsRed(v) && IsRed(Far(left, v))
  {
    var n := Near(left, w);
    assert Even(n) && Even(Far(left, w)) && NoRedRed(n);
    var low := Make(left, w.ref, Red, w.key, Far(left, n), Far(left, w));
    assert Even(low) && NoRedRed(low);
  }

  lemma RedNear(left: bool, r: Ref, c: Colour, k: int, w: Tree, a: Place, t: Tree)
    requires Short(Spot(left, r, c, k, w, a), t) && w.Node? && !IsRed(w)
    requires IsRed(Near(left, w)) && !IsRed(Far(left, w))
    ensures Short(Spot(left, r, c, k, Leaned(left, w), a), t)
    ensures !IsRed(Leaned(left, w)) && IsRed(Far(left, Leaned(left, w)))
  {
    hide Even, NoRedRed, Leaned, Blacks;
    assert Even(w) && NoRedRed(w);
    LeanedIsSound(left, w);
  }

  // Black sibling whose far child is red: the last turn.
  ghost function Settled(left: bool, r: Ref, c: Colour, k: int, w: Tree, t: Tree): Tree
    requires w.Node?
  {
    Make(left, w.ref, c, w.key, Make(left, r, Black, k, t, Near(left, w)), Painted(Far(left, w), Black))
  }

  lemma RedFar(left: bool, r: Ref, c: Colour, k: int, w: Tree, a: Place, t: Tree)
    requires Short(Spot(left, r, c, k, w, a), t) && !IsRed(t) && w.Node? && !IsRed(w) && IsRed(Far(left, w))
    ensures IsRedBlack(Plug(a, Settled(left, r, c, k, w, t)))
  {
    var s := Settled(left, r, c, k, w, t);
    assert EvenAround(a, Blacks(t) + 1 + Step(c)) && NoRedRedAround(a) && BlackTop(a);
    var low := Make(left, r, Black, k, t, Near(left, w));
    assert NoRedRed(t) && Even(low) && NoRedRed(low);
    var far := Painted(Far(left, w), Black);
    assert Even(Far(left, w)) && NoRedRed(Far(left, w));
    assert Even(far) && NoRedRed(far) && Blacks(far) == Blacks(t) + 1 == Blacks(low);
    assert Even(s) && NoRedRed(s);
    NoRedRedPlug(a, s);
    EvenPlug(a, s);
    BlackTopPlug(a, s);
  }

  // A red subtree is cured by painting it black; at the root nothing is short.
  lemma PaintCures(p: Place, t: Tree)
    requires Short(p, t) && (p.Top? || IsRed(t))
    ensures IsRedBlack(Plug(p, Painted(t, Black)))
  {
    var s := Painted(t, Black);
    NoRedRedPlug(p, s);
    EvenPlug(p, s);
    BlackTopPlug(p, s);
  }

  // ------------------------------------------------------------ order

  lemma RedSiblingOrder(left: bool, r: Ref, c: Colour, k: int, w: Tree, a: Place, t: Tree)
    requires w.Node?
    ensures OrderAt(Spot(left, r, Red, k, Near(left, w), Spot(left, w.ref, Black, w.key, Far(left, w), a)), t)
         == OrderAt(Spot(left, r, c, k, w, a), t)
  {
    var p := Spot(left, r, c, k, w, a);
    var q := Spot(left, w.ref, Black, w.key, Far(left, w), a);
    var q' := Spot(left, r, Red, k, Near(left, w), q);
    OrderJoined(p, t);
    OrderJoined(q', t);
    OrderJoined(q, Joined(q', t));
    if left {
      Regroup(Order(t), k, Order(w.left), w.key, Order(w.right));
    } else {
      Regroup(Order(w.left), w.key, Order(w.right), k, Order(t));
    }
  }

  lemma BlackFamilyOrder(left: bool, r: Ref, c: Colour, k: int, w: Tree, a: Place, t: Tree)
    requires w.Node?
    ensures OrderAt(a, Make(left, r, c, k, t, Painted(w, Red))) == OrderAt(Spot(left, r, c, k, w, a), t)
  {
    OrderJoined(Spot(left, r, c, k, w, a), t);
    PaintedOrder(w, Red);
    assert Order(Make(left, r, c, k, t, Painted(w, Red))) == Order(Make(left, r, c, k, t, w));
  }

  lemma RedNearOrder(left: bool, r: Ref, c: Colour, k: int, w: Tree, a: Place, t: Tree)
    requires w.Node? && Near(left, w).Node?
    ensures OrderAt(Spot(left, r, c, k, Leaned(left, w), a), t) == OrderAt(Spot(left, r, c, k, w, a), t)
  {
    var n := Near(left, w);
    OrderJoined(Spot(left, r, c, k, w, a), t);
    OrderJoined(Spot(left, r, c, k, Leaned(left, w), a), t);
    if left {
      Regroup(Order(n.left), n.key, Order(n.right), w.key, Order(w.right));
    } else {
      Regroup(Order(w.left), w.key, Order(n.left), n.key, Order(n.right));
    }
    assert Order(Leaned(left, w)) == Order(w);
  }

  lemma PaintedOrder(t: Tree, c: Colour)
    ensures Order(Painted(t, c)) == Order(t)
  {
  }

  lemma RedFarOrder(left: bool, r: Ref, c: Colour, k: int, w: Tree, a: Place, t: Tree)
    requires w.Node?
    ensures OrderAt(a, Settled(left, r, c, k, w, t)) == OrderAt(Spot(left, r, c, k, w, a), t)
  {
    OrderJoined(Spot(left, r, c, k, w, a), t);
    PaintedOrder(Far(left, w), Black);
    var low, s := Make(left, r, Black, k, t, Near(left, w)), Settled(left, r, c, k, w, t);
    if left {
      Regroup(Order(t), k, Order(w.left), w.key, Order(w.right));
      assert Order(low) == Order(t) + [k] + Order(w.left);
      assert Order(s) == Order(low) + [w.key] + Order(w.right);
    } else {
      Regroup(Order(w.left), w.key, Order(w.right), k, Order(t));
      assert Order(low) == Order(w.right) + [k] + Order(t);
      assert Order(s) == Order(w.left) + [w.key] + Order(low);
    }
  }

  // ------------------------------------------------------------ taking a node out

  // A black node with at most one child leaves its place one black short.
  lemma SpliceBlack(p: Place, y: Tree, x: Tree)
    requires y.Node? && IsRedBlack(Plug(p, y)) && !IsRed(y)
    requires (y.left.Leaf? && x == y.right) || (y.right.Leaf? && x == y.left)
    ensures Short(p, x)
  {
    NoRedRedPlug(p, y);
    EvenPlug(p, y);
    BlackTopPlug(p, y);
  }

  // A red one leaves a red-black tree.
  lemma SpliceRed(p: Place, y: Tree, x: Tree)
    requires y.Node? && IsRedBlack(Plug(p, y)) && IsRed(y)
    requires (y.left.Leaf? && x == y.right) || (y.right.Leaf? && x == y.left)
    ensures IsRedBlack(Plug(p, x))
  {
    NoRedRedPlug(p, y);
    EvenPlug(p, y);
    BlackTopPlug(p, y);
    assert NoRedRed(x) && !IsRed(x) && Even(x) && Blacks(x) == Blacks(y);
    hide NoRedRed, Even, Plug;
    NoRedRedPlug(p, x);
    EvenPlug(p, x);
    BlackTopPlug(p, x);
  }

  lemma SpliceOrder(p: Place, y: Tree, x: Tree)
    requires y.Node?
    requires (y.left.Leaf? && x == y.right) || (y.right.Leaf? && x == y.left)
    ensures exists a, b :: OrderAt(p, y) == a + [y.key] + b && OrderAt(p, x) == a + b
  {
    var a, b := Before(p) + Order(y.left), Order(y.right) + After(p);
    assert OrderAt(p, y) == a + [y.key] + b;
    assert OrderAt(p, x) == a + b;
  }

  // ------------------------------------------------------------ the successor's key moves up

  // q leads down from base by left turns only.
  ghost predicate Spine(q: Place, base: Place) {
    q == base || (q.LeftOf? && Spine(q.above, base))
  }

  ghost function Rekeyed(q: Place, base: Place, k: int): Place
    requires Spine(q, base) && base.RightOf?
  {
    if q == base then RightOf(base.ref, base.colour, k, base.left, base.above)
    else LeftOf(q.ref, q.colour, q.key, q.right, Rekeyed(q.above, base, k))
  }

  lemma {:induction false} RekeyedColours(q: Place, base: Place, k: int, h: nat)
    requires Spine(q, base) && base.RightOf?
    ensures var q' := Rekeyed(q, base, k);
      && (NoRedRedAround(q') <==> NoRedRedAround(q))
      && (EvenAround(q', h) <==> EvenAround(q, h))
      && (BlackTop(q') <==> BlackTop(q))
      && (RedAbove(q') <==> RedAbove(q)) && (q'.Top? <==> q.Top?)
    decreases q
  {
    if q != base {
      RekeyedColours(q.above, base, k, h + Step(q.colour));
    }
  }

  lemma {:induction false} RekeyedOrder(q: Place, base: Place, k: int)
    requires Spine(q, base) && base.RightOf?
    ensures Before(q) == Before(base.above) + Order(base.left) + [base.key]
    ensures Before(Rekeyed(q, base, k)) == Before(base.above) + Order(base.left) + [k]
    ensures After(Rekeyed(q, base, k)) == After(q)
    decreases q
  {
    if q != base {
      RekeyedOrder(q.above, base, k);
    } else {
      assert Before(base.above) + (Order(base.left) + [base.key]) == Before(base.above) + Order(base.left) + [base.key];
      assert Before(base.above) + (Order(base.left) + [k]) == Before(base.above) + Order(base.left) + [k];
    }
  }

  // Taking out the successor y and giving its key to the base node removes the base's key.
  lemma SuccessorOrder(q: Place, base: Place, y: Tree)
    requires Spine(q, base) && base.RightOf? && y.Node? && y.left.Leaf?
    ensures exists a, b :: OrderAt(q, y) == a + [base.key] + b && OrderAt(Rekeyed(q, base, y.key), y.right) == a + b
  {
    RekeyedOrder(q, base, y.key);
    var a, b := Before(base.above) + Order(base.left), [y.key] + Order(y.right) + After(q);
    assert Order(y) == [y.key] + Order(y.right);
    Regrouped(a, base.key, y.key, Order(y.right), After(q));
  }

  lemma Regrouped(a: seq<int>, x: int, y: int, c: seq<int>, d: seq<int>)
    ensures a + [x] + ([y] + c) + d == a + [x] + ([y] + c + d)
    ensures a + [y] + c + d == a + ([y] + c + d)
  {
  }

  lemma {:induction false} RekeyedSpells(m: Store, root: Ref, q: Place, t: Tree, base: Place, k: int)
    requires Spells(m, root, q, t) && Spine(q, base) && base.RightOf?
    ensures base.ref in m
    ensures Spells(m[base.ref := m[base.ref].(key := k)], root, Rekeyed(q, base, k), t)
    decreases q
  {
    Focus(m, root, q, t);
    if q == base {
      Rewrite(m, root, q.above, Joined(q, t), q.colour, k);
      assert Joined(q, t).(colour := q.colour, key := k) == Joined(Rekeyed(q, base, k), t);
      assert m[base.ref].(colour := q.colour, key := k) == m[base.ref].(key := k);
    } else {
      RekeyedSpells(m, root, q.above, Joined(q, t), base, k);
      assert Joined(Rekeyed(q, base, k), t) == Joined(q, t);
    }
    Focus(m[base.ref := m[base.ref].(key := k)], root, Rekeyed(q, base, k), t);
  }
}
