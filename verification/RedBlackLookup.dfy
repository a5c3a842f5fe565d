/**
 * Ordered lookup in a red-black tree, and the list iterator.
 */
module RedBlackLookup {
  import opened Basics
  import opened RedBlackTrees
  import opened RedBlackStore
  import opened RedBlackInsert
  import opened RedBlackDelete
  import opened RedBlack

  datatype Mode = Equal | GreaterOrEqual | LessOrEqual | Less | Greater | Next | Previous | First | Last

  // The keys a mode may answer with.
  predicate Eligible(mode: Mode, key: int, present: bool, k: int) {
    match mode
    case Equal => k == key
    case GreaterOrEqual => k >= key
    case LessOrEqual => k <= key
    case Less => k < key
    case Greater => k > key
    case Next => present && k > key
    case Previous => present && k < key
    case First => true
    case Last => true
  }

  // Whether the mode asks for the largest eligible key or the smallest.
  predicate Largest(mode: Mode) {
    mode.LessOrEqual? || mode.Less? || mode.Previous? || mode.Last?
  }

  // The answer is the extreme eligible key among those stored, or none if none is eligible.
  ghost predicate Answers(mode: Mode, key: int, s: set<int>, r: Option<int>) {
    match r
    case None => forall k | k in s :: !Eligible(mode, key, key in s, k)
    case Some(k) =>
      && k in s && Eligible(mode, key, key in s, k)
      && forall j | j in s && Eligible(mode, key, key in s, j) :: if Largest(mode) then j <= k else k <= j
  }

  // The ends of an ascending sequence are its extremes.
  lemma Extremes(s: seq<int>)
    requires Ascending(s)
    ensures s != [] ==> s[0] in s && s[|s| - 1] in s
    ensures s != [] ==> forall k | k in s :: s[0] <= k <= s[|s| - 1]
  {
  }

  // The answer when a are the smaller keys, b the larger ones, and the key itself is missing.
  function MissingAnswer(mode: Mode, a: seq<int>, b: seq<int>): Option<int> {
    match mode
    case GreaterOrEqual | Greater => if b == [] then None else Some(b[0])
    case LessOrEqual | Less => if a == [] then None else Some(a[|a| - 1])
    case _ => None
  }

  // The answer when the key is there.
  function PresentAnswer(mode: Mode, key: int, a: seq<int>, b: seq<int>): Option<int> {
    match mode
    case Next | Greater => if b == [] then None else Some(b[0])
    case Previous | Less => if a == [] then None else Some(a[|a| - 1])
    case _ => Some(key)
  }

  lemma Halves(a: seq<int>, b: seq<int>)
    requires Ascending(a + b)
    ensures Ascending(a) && Ascending(b)
  {
    var s := a + b;
    assert forall i | 0 <= i < |a| :: a[i] == s[i];
    assert forall i | 0 <= i < |b| :: b[i] == s[|a| + i];
  }

  lemma KeysOfParts(a: seq<int>, b: seq<int>)
    ensures Keys(a + b) == Keys(a) + Keys(b)
  {
  }

  lemma MissingAnswers(mode: Mode, key: int, a: seq<int>, b: seq<int>)
    requires Ascending(a + b) && (forall k | k in a :: k < key) && (forall k | k in b :: key < k)
    requires !mode.First? && !mode.Last?
    ensures Answers(mode, key, Keys(a + b), MissingAnswer(mode, a, b))
  {
    hide Ascending;
    Halves(a, b);
    Extremes(a);
    Extremes(b);
    KeysOfParts(a, b);
  }

  lemma AroundKey(key: int, a: seq<int>, b: seq<int>)
    requires Ascending(a + [key] + b)
    ensures (forall k | k in a :: k < key) && (forall k | k in b :: key < k) && Ascending(a) && Ascending(b)
  {
    var s := a + [key] + b;
    assert s[|a|] == key;
    assert forall i | 0 <= i < |a| :: a[i] == s[i];
    assert forall i | 0 <= i < |b| :: b[i] == s[|a| + 1 + i];
  }

  lemma PresentAnswers(mode: Mode, key: int, a: seq<int>, b: seq<int>)
    requires Ascending(a + [key] + b) && !mode.First? && !mode.Last?
    ensures Answers(mode, key, Keys(a + [key] + b), PresentAnswer(mode, key, a, b))
  {
    hide Ascending;
    AroundKey(key, a, b);
    Extremes(a);
    Extremes(b);
    KeysOfParts(a + [key], b);
    KeysOfParts(a, [key]);
  }

  // ------------------------------------------------------------ the ends

  method FirstKey(tree: RbTree) returns (r: Option<int>)
    requires tree.Valid()
    ensures r == if tree.Contents() == [] then None else Some(tree.Contents()[0])
  {
    var y, x := NIL, tree.root;
    ghost var p, t := Top, tree.tree;
    ReadParent(tree.store, tree.root, p, t);
    ReadNode(tree.store, tree.root, p, t);
    if x == NIL {
      return None;
    }
    assert Order(t) + [] == Order(t);
    y, p, t := tree.LeftEnd(x, p, t);
    ReadNode(tree.store, tree.root, p, t);
    assert Order(t) == [t.key] + Order(t.right);
    assert tree.Contents() == Order(t) + After(p);
    return Some(tree.store[y].key);
  }

  method LastKey(tree: RbTree) returns (r: Option<int>)
    requires tree.Valid()
    ensures r == if tree.Contents() == [] then None else Some(tree.Contents()[|tree.Contents()| - 1])
  {
    var y, x := NIL, tree.root;
    ghost var p, t := Top, tree.tree;
    ReadParent(tree.store, tree.root, p, t);
    ReadNode(tree.store, tree.root, p, t);
    if x == NIL {
      return None;
    }
    y, p, t := tree.RightEnd(x, p, t);
    ReadNode(tree.store, tree.root, p, t);
    assert Before(p) + Order(t) == tree.Contents();
    assert Order(t) == Order(t.left) + [t.key];
    return Some(tree.store[y].key);
  }

  // ------------------------------------------------------------ rblookup

  method KeyAfter(tree: RbTree, x: Ref, ghost p: Place, ghost t: Tree) returns (r: Option<int>)
    requires Spells(tree.store, tree.root, p, t) && t.Node? && t.ref == x
    ensures var b := Order(t.right) + After(p); r == if b == [] then None else Some(b[0])
  {
    var y;
    ghost var q, u;
    y, q, u := tree.Successor(x, p, t);
    assert Onward(p, t)[1..] == Order(t.right) + After(p);
    if y == NIL {
      return None;
    }
    return Some(tree.store[y].key);
  }

  method KeyBefore(tree: RbTree, x: Ref, ghost p: Place, ghost t: Tree) returns (r: Option<int>)
    requires Spells(tree.store, tree.root, p, t) && t.Node? && t.ref == x
    ensures var a := Before(p) + Order(t.left); r == if a == [] then None else Some(a[|a| - 1])
  {
    var y;
    ghost var q, u;
    y, q, u := tree.Predecessor(x, p, t);
    if y == NIL {
      return None;
    }
    return Some(tree.store[y].key);
  }

  // The searching modes read the last comparison, which an empty tree never makes.
  method Lookup(mode: Mode, key: int, tree: RbTree) returns (r: Option<int>)
    requires tree.Valid()
    requires mode in {GreaterOrEqual, LessOrEqual, Less, Greater} ==> tree.Contents() != []
    ensures Answers(mode, key, Keys(tree.Contents()), r)
  {
    if mode.First? {
      r := FirstKey(tree);
      Extremes(tree.Contents());
      return;
    }
    if mode.Last? {
      r := LastKey(tree);
      Extremes(tree.Contents());
      return;
    }
    var x, y, found;
    ghost var p, t;
    x, y, found, p, t := tree.Descend(key);
    OrderPlug(p, t);
    if found {
      r := FoundLookup(mode, key, tree, x, p, t);
    } else {
      r := MissingLookup(mode, key, tree, y, p);
    }
  }

  method FoundLookup(mode: Mode, key: int, tree: RbTree, x: Ref, ghost p: Place, ghost t: Tree) returns (r: Option<int>)
    requires Spells(tree.store, tree.root, p, t) && t.Node? && t.ref == x && t.key == key
    requires Ascending(Before(p) + Order(t) + After(p)) && !mode.First? && !mode.Last?
    ensures Answers(mode, key, Keys(Before(p) + Order(t) + After(p)), r)
  {
    hide Spells, Answers, Ascending;
    ghost var a, b := Before(p) + Order(t.left), Order(t.right) + After(p);
    assert Before(p) + Order(t) + After(p) == a + [key] + b;
    PresentAnswers(mode, key, a, b);
    if mode.Equal? || mode.GreaterOrEqual? || mode.LessOrEqual? {
      r := Some(key);
    } else if mode.Next? || mode.Greater? {
      r := KeyAfter(tree, x, p, t);
    } else {
      r := KeyBefore(tree, x, p, t);
    }
  }

  method MissingLookup(mode: Mode, key: int, tree: RbTree, y: Ref, ghost p: Place) returns (r: Option<int>)
    requires Spells(tree.store, tree.root, p, Leaf) && y == ParentOf(p)
    requires Ascending(Before(p) + [] + After(p)) && Between(p, key) && !mode.First? && !mode.Last?
    requires mode in {GreaterOrEqual, LessOrEqual, Less, Greater} ==> !p.Top?
    ensures Answers(mode, key, Keys(Before(p) + [] + After(p)), r)
  {
    assert Before(p) + [] + After(p) == Before(p) + After(p);
    MissingAnswers(mode, key, Before(p), After(p));
    if mode.Equal? || mode.Next? || mode.Previous? {
      return None;
    }
    SideOf(p, key);
    ReadParent(tree.store, tree.root, p, Leaf);
    Focus(tree.store, tree.root, p, Leaf);
    hide Spells, Answers, Ascending;
    if mode.GreaterOrEqual? || mode.Greater? {
      if key > tree.store[y].key {
        r := KeyAfter(tree, y, p.above, Joined(p, Leaf));
        assert Order(Leaf) + After(p.above) == After(p);
      } else {
        r := Some(tree.store[y].key);
      }
    } else {
      if key < tree.store[y].key {
        r := KeyBefore(tree, y, p.above, Joined(p, Leaf));
        assert Before(p.above) + Order(Leaf) == Before(p);
      } else {
        r := Some(tree.store[y].key);
        assert Before(p) == Before(p.above) + (Order(p.left) + [p.key]);
      }
    }
  }

  // ------------------------------------------------------------ the list iterator

  class RbList {
    const tree: RbTree
    var next: Ref
    ghost var rest: seq<int>
    ghost var p: Place
    ghost var t: Tree

    // The keys still to be read are those from the next node on.
    ghost predicate Valid()
      reads this, tree
    {
      && tree.Valid()
      && (if next == NIL then rest == []
          else Spells(tree.store, tree.root, p, t) && t.Node? && t.ref == next && rest == Onward(p, t))
    }

    constructor (tree: RbTree)
      requires tree.Valid()
      ensures this.tree == tree && Valid() && rest == tree.Contents()
    {
      this.tree := tree;
      var x := tree.root;
      ghost var q, u := Top, tree.tree;
      ReadParent(tree.store, tree.root, q, u);
      ReadNode(tree.store, tree.root, q, u);
      if x != NIL {
        x, q, u := tree.LeftEnd(x, q, u);
        assert Order(u) == [u.key] + Order(u.right);
        assert Onward(q, u) == tree.Contents();
      }
      next, p, t := x, q, u;
      rest := tree.Contents();
    }

    // The next key in ascending order, or none at the end.
    method Read() returns (r: Option<int>)
      requires Valid()
      modifies this
      ensures Valid()
      ensures old(rest) == [] ==> r == None && rest == []
      ensures old(rest) != [] ==> r == Some(old(rest)[0]) && rest == old(rest)[1..]
    {
      if next == NIL {
        return None;
      }
      ReadNode(tree.store, tree.root, p, t);
      r := Some(tree.store[next].key);
      var y;
      ghost var q, u;
      y, q, u := tree.Successor(next, p, t);
      next, p, t, rest := y, q, u, rest[1..];
    }
  }

  // Reading to the end of an unchanged tree yields every key once, in ascending order.
  method ReadAll(tree: RbTree) returns (keys: seq<int>)
    requires tree.Valid()
    ensures keys == tree.Contents() && Ascending(keys)
  {
    hide Spells, IsRedBlack, Onward, Order;
    var list := new RbList(tree);
    keys := [];
    var k := list.Read();
    while k.Some?
      invariant list.Valid() && list.tree == tree && fresh(list)
      invariant keys + (if k.Some? then [k.value] else []) + list.rest == tree.Contents()
      invariant k.None? ==> list.rest == []
      decreases |list.rest|, k.Some?
    {
      keys := keys + [k.value];
      k := list.Read();
    }
  }
}
