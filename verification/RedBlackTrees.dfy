/**
 * Red-black trees as values, and places in them: the shapes that the node records of
 * redblack.c spell out, with the balance and order facts its fix-up loops keep.
 */
module RedBlackTrees {
  import opened Basics

  // A node record's address; 0 is the shared sentinel that stands for "no node".
  type Ref = nat

  const NIL: Ref := 0

  datatype Colour = Black | Red

  datatype Tree = Leaf | Node(ref: Ref, colour: Colour, key: int, left: Tree, right: Tree)

  // The way from a subtree up to the root: the subtree hangs left or right of each node.
  datatype Place =
    | Top
    | LeftOf(ref: Ref, colour: Colour, key: int, right: Tree, above: Place)
    | RightOf(ref: Ref, colour: Colour, key: int, left: Tree, above: Place)

  ghost function Plug(p: Place, t: Tree): Tree {
    match p
    case Top => t
    case LeftOf(r, c, k, rt, a) => Plug(a, Node(r, c, k, t, rt))
    case RightOf(r, c, k, lt, a) => Plug(a, Node(r, c, k, lt, t))
  }

  // ------------------------------------------------------------ search order

  ghost function Order(t: Tree): seq<int> {
    if t.Leaf? then [] else Order(t.left) + [t.key] + Order(t.right)
  }

  ghost function Before(p: Place): seq<int> {
    match p
    case Top => []
    case LeftOf(_, _, _, _, a) => Before(a)
    case RightOf(_, _, k, lt, a) => Before(a) + (Order(lt) + [k])
  }

  ghost function After(p: Place): seq<int> {
    match p
    case Top => []
    case LeftOf(_, _, k, rt, a) => ([k] + Order(rt)) + After(a)
    case RightOf(_, _, _, _, a) => After(a)
  }

  ghost predicate Ascending(s: seq<int>) {
    forall i, j | 0 <= i < j < |s| :: s[i] < s[j]
  }

  lemma Regroup(a: seq<int>, x: int, b: seq<int>, y: int, c: seq<int>)
    ensures a + [x] + (b + [y] + c) == (a + [x] + b) + [y] + c
  {
  }

  lemma RegroupAround(a: seq<int>, b: seq<int>, x: int, c: seq<int>, d: seq<int>)
    ensures a + (b + [x] + c) + d == a + b + ([x] + c + d)
    ensures a + (b + [x] + c) + d == (a + (b + [x])) + c + d
  {
  }

  lemma {:induction false} OrderPlug(p: Place, t: Tree)
    ensures Order(Plug(p, t)) == Before(p) + Order(t) + After(p)
    decreases p
  {
    match p
    case Top =>
    case LeftOf(r, c, k, rt, a) =>
      OrderPlug(a, Node(r, c, k, t, rt));
      RegroupAround(Before(a), Order(t), k, Order(rt), After(a));
    case RightOf(r, c, k, lt, a) =>
      OrderPlug(a, Node(r, c, k, lt, t));
      RegroupAround(Before(a), Order(lt), k, Order(t), After(a));
  }

  // ------------------------------------------------------------ colours and black heights

  predicate IsRed(t: Tree) {
    t.Node? && t.colour.Red?
  }

  predicate RedAbove(p: Place) {
    !p.Top? && p.colour.Red?
  }

  // No red node has a red child.
  ghost predicate NoRedRed(t: Tree) {
    t.Leaf? ||
    (NoRedRed(t.left) && NoRedRed(t.right) && (t.colour.Red? ==> !IsRed(t.left) && !IsRed(t.right)))
  }

  ghost predicate NoRedRedAround(p: Place) {
    match p
    case Top => true
    case LeftOf(_, c, _, rt, a) =>
      NoRedRed(rt) && NoRedRedAround(a) && (c.Red? ==> !IsRed(rt) && !RedAbove(a))
    case RightOf(_, c, _, lt, a) =>
      NoRedRed(lt) && NoRedRedAround(a) && (c.Red? ==> !IsRed(lt) && !RedAbove(a))
  }

  function Step(c: Colour): nat {
    if c.Black? then 1 else 0
  }

  // The black nodes on the leftmost way down; on every way down when Even.
  ghost function Blacks(t: Tree): nat {
    if t.Leaf? then 0 else Step(t.colour) + Blacks(t.left)
  }

  ghost predicate Even(t: Tree) {
    t.Leaf? || (Even(t.left) && Even(t.right) && Blacks(t.left) == Blacks(t.right))
  }

  // The surroundings are balanced around a subtree of black height h.
  ghost predicate EvenAround(p: Place, h: nat) {
    match p
    case Top => true
    case LeftOf(_, c, _, rt, a) => Even(rt) && Blacks(rt) == h && EvenAround(a, h + Step(c))
    case RightOf(_, c, _, lt, a) => Even(lt) && Blacks(lt) == h && EvenAround(a, h + Step(c))
  }

  lemma {:induction false} NoRedRedPlug(p: Place, t: Tree)
    ensures NoRedRed(Plug(p, t)) <==> NoRedRed(t) && NoRedRedAround(p) && !(IsRed(t) && RedAbove(p))
    decreases p
  {
    match p
    case Top =>
    case LeftOf(r, c, k, rt, a) => NoRedRedPlug(a, Node(r, c, k, t, rt));
    case RightOf(r, c, k, lt, a) => NoRedRedPlug(a, Node(r, c, k, lt, t));
  }

  lemma {:induction false} EvenPlug(p: Place, t: Tree)
    ensures Even(Plug(p, t)) <==> Even(t) && EvenAround(p, Blacks(t))
    decreases p
  {
    match p
    case Top =>
    case LeftOf(r, c, k, rt, a) => EvenPlug(a, Node(r, c, k, t, rt));
    case RightOf(r, c, k, lt, a) => EvenPlug(a, Node(r, c, k, lt, t));
  }

  // If there is a node above, the topmost is black.
  ghost predicate BlackTop(p: Place) {
    p.Top? || (if p.above.Top? then p.colour.Black? else BlackTop(p.above))
  }

  lemma {:induction false} BlackTopPlug(p: Place, t: Tree)
    ensures !IsRed(Plug(p, t)) <==> if p.Top? then !IsRed(t) else BlackTop(p)
    decreases p
  {
    match p
    case Top =>
    case LeftOf(r, c, k, rt, a) => BlackTopPlug(a, Node(r, c, k, t, rt));
    case RightOf(r, c, k, lt, a) => BlackTopPlug(a, Node(r, c, k, lt, t));
  }

  function Painted(t: Tree, c: Colour): Tree {
    if t.Leaf? then t else t.(colour := c)
  }

  // A red-black tree: black root, no red node with a red child, equal black counts.
  ghost predicate IsRedBlack(t: Tree) {
    !IsRed(t) && NoRedRed(t) && Even(t)
  }

  // ------------------------------------------------------------ height

  ghost function Size(t: Tree): nat {
    if t.Leaf? then 0 else Size(t.left) + 1 + Size(t.right)
  }

  function Max(a: nat, b: nat): nat {
    if a < b then b else a
  }

  ghost function Height(t: Tree): nat {
    if t.Leaf? then 0 else 1 + Max(Height(t.left), Height(t.right))
  }

  lemma {:induction false} EvenIsFull(t: Tree)
    requires Even(t)
    ensures Pow2(Blacks(t)) <= Size(t) + 1
  {
    if t.Node? {
      EvenIsFull(t.left);
      EvenIsFull(t.right);
    }
  }

  lemma {:induction false} HeightByBlacks(t: Tree)
    requires Even(t) && NoRedRed(t)
    ensures Height(t) <= 2 * Blacks(t) + (if IsRed(t) then 1 else 0)
  {
    if t.Node? {
      HeightByBlacks(t.left);
      HeightByBlacks(t.right);
    }
  }

  lemma {:induction false} Pow2Monotone(a: nat, b: nat)
    requires a <= b
    ensures Pow2(a) <= Pow2(b)
    decreases b
  {
    if a < b {
      Pow2Monotone(a, b - 1);
    }
  }

  // The height is at most twice the binary logarithm of the number of nodes plus one.
  lemma HeightIsLogarithmic(t: Tree)
    requires IsRedBlack(t)
    ensures Pow2((Height(t) + 1) / 2) <= Size(t) + 1
  {
    HeightByBlacks(t);
    EvenIsFull(t);
    Pow2Monotone((Height(t) + 1) / 2, Blacks(t));
  }
}
