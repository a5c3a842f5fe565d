/**
 * What an insertion into the wrong slot leads to, for every trie: one or two further insertions,
 * right by the stored prefixes, after which a lookup misses the longest match.
 */
module TrieHides {
  import opened Basics
  import opened Tries
  import opened TrieEdits
  import opened TrieSlots

  // ------------------------------------------------------------ walks through a place

  lemma JoinedParts(p: Place, t: Trie)
    requires p.Below? && t.Node?
    ensures var j := Joined(p, t);
      j.Node? && j.plen == p.plen && j.prefix == p.prefix && j.data == p.data
      && Child(j, p.b) == t && Child(j, !p.b) == p.other && Under(p.up, j, p.b) == p
  {
  }

  // The exact walk for a prefix that agrees with all frames comes to the focused node.
  lemma {:induction false} WalkThrough(p: Place, t: Trie, prefix: Addr, plen: Len)
    requires SoundAround(p) && t.Node? && FitsAt(p, t) && Passed(p, prefix, plen) && t.plen <= plen && Agree(t.prefix, prefix, 0, t.plen)
    ensures Plug(p, t).Node? && Plug(p, t).plen <= plen
    ensures Walk(Top, Plug(p, t), prefix, plen) == Walk(p, t, prefix, plen)
    decreases p
  {
    if p.Below? {
      var j := Joined(p, t);
      JoinedParts(p, t);
      WalkThrough(p.up, j, prefix, plen);
      assert !Descends(p.other, prefix, plen, p.plen);
      assert Descends(t, prefix, plen, p.plen);
    }
  }

  // So does a lookup.
  lemma {:induction false} FindThrough(p: Place, t: Trie, addr: Addr, plen: Len) returns (last: Data)
    requires SoundAround(p) && t.Node? && FitsAt(p, t) && Passed(p, addr, plen) && Agree(t.prefix, addr, 0, t.plen)
    ensures Plug(p, t).Node? && Find(Plug(p, t), addr, Null) == Find(t, addr, last)
    decreases p
  {
    last := Null;
    if p.Below? {
      var j := Joined(p, t);
      JoinedParts(p, t);
      var l := FindThrough(p.up, j, addr, plen);
      assert !Matches(p.other, addr, p.plen) && Matches(t, addr, p.plen);
      last := if p.data.Virtual? then l else p.data;
    }
  }

  lemma {:induction false} PassedSame(p: Place, a: Addr, b: Addr, n: Len, m: Len)
    requires Passed(p, a, n) && Agree(a, b, 0, n) && n <= m
    ensures Passed(p, b, m)
  {
    if p.Below? {
      PassedSame(p.up, a, b, n, m);
    }
  }

  lemma {:induction false} PlugKeepsHead(p: Place, t: Trie, t': Trie)
    requires t.Node? && t'.Node? && t'.plen == t.plen
    ensures Plug(p, t).Node? && Plug(p, t').Node? && Plug(p, t').plen == Plug(p, t).plen
    decreases p
  {
    if p.Below? {
      PlugKeepsHead(p.up, Joined(p, t), Joined(p, t'));
    }
  }

  // ------------------------------------------------------------ the misplaced child

  function Leaf(r: Ref, v: int, prefix: Addr, plen: Len): Trie {
    Node(r, Value(v), prefix, plen, Empty, Empty)
  }

  // At place p, the node for prefix/plen covers c, whose next bit is not the prefix's own.
  ghost predicate Misplaced(p: Place, prefix: Addr, plen: Len, c: Trie) {
    && SoundAround(p) && Passed(p, prefix, plen) && (p.Below? ==> p.plen < plen && Agree(p.prefix, prefix, 0, p.plen) && prefix[p.plen] == p.b)
    && c.Node? && Sound(c) && Canonical(c) && NoNull(c)
    && plen + 1 < c.plen && Agree(c.prefix, prefix, 0, plen) && c.prefix[plen] != prefix[plen]
  }

  // The node with the child in the slot of its own padding bit.
  function Covering(r: Ref, v: int, prefix: Addr, plen: Len, c: Trie): Trie
    requires plen < WIDTH
  {
    WithChild(Leaf(r, v, prefix, plen), prefix[plen], c)
  }

  // With the prefix one bit longer that covers the child beside it.
  function Beside(r: Ref, v: int, prefix: Addr, plen: Len, c: Trie, q: Ref, w: int): Trie
    requires plen + 1 < WIDTH && c.Node?
  {
    WithChild(Covering(r, v, prefix, plen, c), !prefix[plen], Leaf(q, w, c.prefix, plen + 1))
  }

  // It hangs in the free slot.
  lemma PutBeside(p: Place, prefix: Addr, plen: Len, c: Trie, r: Ref, v: int, q: Ref, f: Ref, w: int)
    requires Misplaced(p, prefix, plen, c)
    ensures var t := Plug(p, Covering(r, v, prefix, plen, c));
      t.Node? && t.plen <= plen + 1 && Insert(t, c.prefix, plen + 1, w, q, f) == Plug(p, Beside(r, v, prefix, plen, c, q, w))
  {
    hide Sound, Canonical, NoNull;
    var n := Covering(r, v, prefix, plen, c);
    PassedSame(p, prefix, c.prefix, plen, plen + 1);
    WalkThrough(p, n, c.prefix, plen + 1);
    assert Walk(p, n, c.prefix, plen + 1) == (p, n);
  }

  // The same length again, on the other side of the bit: a virtual node as long as its parent.
  function Doubled(r: Ref, v: int, prefix: Addr, plen: Len, c: Trie, q: Ref, w: int, q': Ref, f': Ref, w': int): Trie
    requires plen + 1 < WIDTH && c.Node? && !prefix[plen]
  {
    WithChild(Beside(r, v, prefix, plen, c, q, w), false, Node(f', Virtual, prefix, plen, Leaf(q', w', prefix, plen + 1), c))
  }

  lemma PutDoubled(p: Place, prefix: Addr, plen: Len, c: Trie, r: Ref, v: int, q: Ref, w: int, q': Ref, f': Ref, w': int)
    requires Misplaced(p, prefix, plen, c) && !prefix[plen]
    ensures var t := Plug(p, Beside(r, v, prefix, plen, c, q, w));
      t.Node? && t.plen <= plen + 1
      && Insert(t, prefix, plen + 1, w', q', f') == Plug(p, Doubled(r, v, prefix, plen, c, q, w, q', f', w'))
  {
    hide Sound, Canonical, NoNull;
    var n := Beside(r, v, prefix, plen, c, q, w);
    PassedSame(p, prefix, prefix, plen, plen + 1);
    WalkThrough(p, n, prefix, plen + 1);
    assert Walk(p, n, prefix, plen + 1) == (p, n);
    assert CommonLen(c.prefix, prefix, plen + 1) == plen;
  }

  // ------------------------------------------------------------ lookups

  // Slot one: the shorter prefix in slot zero is found first.
  lemma ShorterIsFound(p: Place, prefix: Addr, plen: Len, c: Trie, r: Ref, v: int, q: Ref, w: int, addr: Addr)
    requires Misplaced(p, prefix, plen, c) && prefix[plen] && Agree(c.prefix, addr, 0, c.plen)
    ensures var t := Plug(p, Beside(r, v, prefix, plen, c, q, w)); t.Node? && Find(t, addr, Null) == Value(w)
  {
    hide Sound, Canonical, NoNull;
    var n := Beside(r, v, prefix, plen, c, q, w);
    PassedSame(p, prefix, addr, plen, plen);
    var last := FindThrough(p, n, addr, plen);
    assert Matches(n.zero, addr, plen);
  }

  // Slot zero: the virtual node hides the prefix in slot one.
  lemma NothingIsFound(p: Place, prefix: Addr, plen: Len, c: Trie, r: Ref, v: int, q: Ref, w: int, q': Ref, f': Ref, w': int, addr: Addr)
    requires Misplaced(p, prefix, plen, c) && !prefix[plen] && Agree(c.prefix, addr, 0, plen + 1) && addr[plen + 1] != c.prefix[plen + 1]
    ensures var t := Plug(p, Doubled(r, v, prefix, plen, c, q, w, q', f', w')); t.Node? && Find(t, addr, Null) == Value(v)
  {
    hide Sound, Canonical, NoNull;
    var n := Doubled(r, v, prefix, plen, c, q, w, q', f', w');
    PassedSame(p, prefix, addr, plen, plen);
    var last := FindThrough(p, n, addr, plen);
    assert Matches(n.zero, addr, plen) && !Matches(n.zero.zero, addr, plen) && !Matches(n.zero.one, addr, plen);
  }

  // ------------------------------------------------------------ contents

  // The child an insertion displaces.
  ghost function Met(t: Trie, prefix: Addr, plen: Len): Trie
    requires t.Node? && t.plen <= plen
  {
    var s := Walk(Top, t, prefix, plen).1;
    if s.plen < plen then Child(s, prefix[s.plen]) else Empty
  }

  // The stored prefixes that continue this one are those below the child.
  lemma ContinuedInMet(t: Trie, prefix: Addr, plen: Len, j: Bits)
    requires Good(t) && plen < WIDTH && j in Entries(t) && |j| > plen && Covers(prefix[..plen], j) && Met(t, prefix, plen).Node?
    ensures j in Entries(Met(t, prefix, plen))
  {
    hide Sound, Canonical, Entries, IsHead, Stops, Passed;
    GoodIsSound(t);
    WalkStops(Top, t, prefix, plen) by { AtHead(t, prefix, plen); }
    var (p, s) := Walk(Top, t, prefix, plen);
    SoundPlug(p, s);
    EntriesPlug(p, s);
    ContinuedAround(p, prefix, plen, j);
    ContinuedBelow(s, prefix, plen, j);
  }

  lemma GoodIsSound(t: Trie)
    requires Good(t)
    ensures Sound(t) && Canonical(t) && IsHead(t) && t.Node? && t.plen == 0
  {
  }

  lemma AtHead(t: Trie, prefix: Addr, plen: Len)
    requires t.Node? && t.plen == 0
    ensures Agree(t.prefix, prefix, 0, t.plen) && Passed(Top, prefix, plen)
  {
  }

  // The trie after the bad insertion, and where its node is.
  lemma BadInsert(t: Trie, prefix: Addr, plen: Len, v: int, node: Ref, fork: Ref) returns (p: Place)
    requires Good(t) && !InsertFits(t, prefix, plen)
    ensures plen < WIDTH
    ensures var c := Met(t, prefix, plen);
      && c.Node? && c.prefix[plen] != prefix[plen] && plen < c.plen
      && (plen + 1 < c.plen ==> Misplaced(p, prefix, plen, c))
      && Insert(t, prefix, plen, v, node, fork) == Plug(p, Covering(node, v, prefix, plen, c))
  {
    hide Entries, IsHead, Canonical;
    GoodIsSound(t);
    WalkStops(Top, t, prefix, plen) by { AtHead(t, prefix, plen); }
    var (p0, s) := Walk(Top, t, prefix, plen);
    SoundPlug(p0, s);
    CanonicalPlug(p0, s);
    NoNullParts(p0, s);
    StopsBlocks(s, prefix, plen);
    var b := prefix[s.plen];
    var c := Child(s, b);
    SharedIsBetween(c, prefix, plen, s.plen);
    p := Under(p0, s, b);
    assert Canonical(c) by { CanonicalChild(s, b); }
    PlugUnder(p0, s, b, Covering(node, v, prefix, plen, c));
    assert SoundAround(p) && Passed(p, prefix, plen);
  }

  lemma CanonicalChild(t: Trie, b: bool)
    requires t.Node? && Canonical(t)
    ensures Canonical(Child(t, b))
  {
  }

  lemma PlugUnder(p: Place, t: Trie, b: bool, c: Trie)
    requires t.Node?
    ensures Plug(Under(p, t, b), c) == Plug(p, WithChild(t, b, c))
  {
  }

  // ------------------------------------------------------------ the theorem

  // A value that is not stored.
  lemma {:induction false} Unused(m: map<Bits, int>) returns (w: int)
    ensures forall j | j in m :: m[j] < w
    decreases |m.Keys|
  {
    w := 0;
    if m.Keys != {} {
      var k :| k in m.Keys;
      var rest := m - {k};
      assert rest.Keys == m.Keys - {k};
      w := Unused(rest);
      assert forall j | j in m :: j == k || (j in rest && rest[j] == m[j]);
      w := if m[k] < w then w else m[k] + 1;
    }
  }

  // The prefix one bit longer on the child's side may be inserted, by the stored prefixes.
  lemma BesideFits(t: Trie, prefix: Addr, plen: Len, v: int, k: Bits)
    requires t.Node? && t.plen <= plen && plen + 1 < WIDTH && Met(t, prefix, plen).Node?
    requires k in Entries(t) && |k| > plen + 1 && Covers(Met(t, prefix, plen).prefix[..plen + 2], k)
    ensures FitsContents(Entries(t)[prefix[..plen] := v], Met(t, prefix, plen).prefix, plen + 1)
  {
    hide Entries, Walk;
    var a := Met(t, prefix, plen).prefix;
    var m := Entries(t)[prefix[..plen] := v];
    assert k in m;
    assert k[plen + 1] == a[..plen + 2][plen + 1];
    assert Continues(k, a[..plen + 1], a[plen + 1]);
  }

  // And so may the one on the other side.
  lemma DoubledFits(t: Trie, prefix: Addr, plen: Len, v: int, w: int)
    requires Good(t) && plen + 1 < WIDTH && Met(t, prefix, plen).Node? && Met(t, prefix, plen).plen > plen
    requires Met(t, prefix, plen).prefix[plen] != prefix[plen] && Sound(Met(t, prefix, plen))
    ensures FitsContents(Entries(t)[prefix[..plen] := v][Met(t, prefix, plen).prefix[..plen + 1] := w], prefix, plen + 1)
  {
    hide Entries, Sound, Canonical, Walk;
    var c := Met(t, prefix, plen);
    var m := Entries(t)[prefix[..plen] := v][c.prefix[..plen + 1] := w];
    var q := prefix[..plen + 1];
    forall j, b | j in m && Continues(j, q, b)
      ensures false
    {
      if j in Entries(t) {
        assert j[plen] == q[plen];
        assert Covers(prefix[..plen], j);
        ContinuedInMet(t, prefix, plen, j);
        EntryExtends(c, j);
      }
    }
  }

  // The stored prefixes of an address on the child's side, but not below the child, are short.
  lemma ShortOnly(t: Trie, prefix: Addr, plen: Len, addr: Addr, j: Bits)
    requires Good(t) && plen + 1 < WIDTH && Met(t, prefix, plen).Node? && Sound(Met(t, prefix, plen)) && plen + 1 < Met(t, prefix, plen).plen
    requires Agree(prefix, addr, 0, plen) && addr[plen + 1] != Met(t, prefix, plen).prefix[plen + 1]
    requires j in Entries(t) && Covers(j, addr)
    ensures |j| <= plen + 1
  {
    hide Entries, Sound, Canonical, Walk;
    if |j| > plen + 1 {
      assert Covers(prefix[..plen], j);
      ContinuedInMet(t, prefix, plen, j);
      EntryExtends(Met(t, prefix, plen), j);
    }
  }

  // A stored prefix below the child.
  lemma BelowMet(t: Trie, prefix: Addr, plen: Len, p: Place) returns (k: Bits)
    requires Good(t) && Misplaced(p, prefix, plen, Met(t, prefix, plen))
    ensures k in Entries(t) && |k| <= WIDTH && Met(t, prefix, plen).plen <= |k| && Agree(k, Met(t, prefix, plen).prefix, 0, Met(t, prefix, plen).plen)
  {
    hide Entries, IsHead, Canonical, Sound, NoNull;
    GoodIsSound(t);
    var c := Met(t, prefix, plen);
    k := SomeEntry(c);
    EntryExtends(c, k);
    WalkStops(Top, t, prefix, plen) by { AtHead(t, prefix, plen); }
    var (p0, s) := Walk(Top, t, prefix, plen);
    SoundPlug(p0, s);
    EntriesPlug(p0, s);
    EntryWhere(s, k);
  }

  // The value at a key of the map that no later insertion touched.
  lemma OldValue(m: map<Bits, int>, a: Bits, v: int, q: Bits, w: int, addr: Bits, k: Bits)
    requires k in m && Covers(k, addr) && |a| < |k| && |q| < |k| && forall j | j in m :: m[j] != w
    ensures !LongestMatch(m[a := v][q := w], addr, Some(w))
  {
    var m' := m[a := v][q := w];
    forall j | Longest(m', addr, j)
      ensures m'[j] != w
    {
      assert k in m' && |j| >= |k|;
    }
  }

  lemma HiddenValue(m: map<Bits, int>, a: Bits, v: int, q: Bits, w: int, q': Bits, w': int, addr: Bits)
    requires Covers(q, addr) && q' != q && |q'| == |q| && |a| < |q| && w != v
    requires forall j | j in m && Covers(j, addr) :: |j| <= |q|
    ensures !LongestMatch(m[a := v][q := w][q' := w'], addr, Some(v))
  {
    var m' := m[a := v][q := w][q' := w'];
    forall j | Longest(m', addr, j)
      ensures m'[j] != v
    {
      assert q in m' && |j| >= |q|;
      assert |j| == |q|;
      assert j == q;
    }
  }

  // The address in the displaced child, whose first plen + 1 bits are the next prefix to insert.
  ghost function NextTo(t: Trie, prefix: Addr, plen: Len): Addr
    requires t.Node? && t.plen <= plen && Met(t, prefix, plen).Node?
  {
    Met(t, prefix, plen).prefix
  }

  lemma SidesDiffer(p: Place, prefix: Addr, plen: Len, c: Trie)
    requires Misplaced(p, prefix, plen, c)
    ensures Agree(prefix, c.prefix, 0, plen) && prefix[..plen + 1] != c.prefix[..plen + 1]
  {
    assert prefix[..plen + 1][plen] != c.prefix[..plen + 1][plen];
  }

  // After an insertion that puts a child more than one bit longer into slot one instead of zero, a
  // further insertion, right by the prefixes then stored, makes a lookup return another value than
  // that of the longest match.
  lemma OneInsertHides(t: Trie, prefix: Addr, plen: Len, v: int, node: Ref, fork: Ref, q: Ref, f: Ref)
    returns (w: int, addr: Addr)
    requires Good(t) && !InsertFits(t, prefix, plen) && Met(t, prefix, plen).Node? && plen + 1 < Met(t, prefix, plen).plen
    requires prefix[plen]
    ensures var a, t1, m1 := NextTo(t, prefix, plen), Insert(t, prefix, plen, v, node, fork), Entries(t)[prefix[..plen] := v];
      && t1.Node? && t1.plen <= plen + 1 && FitsContents(m1, a, plen + 1)
      && var t2 := Insert(t1, a, plen + 1, w, q, f);
      t2.Node? && !LongestMatch(m1[a[..plen + 1] := w], addr, ValueOf(Find(t2, addr, Null)))
  {
    GoodIsSound(t);
    hide Insert, Entries, Good, Sound, Met, LongestMatch, FitsContents, Find, Plug, Beside, Covering, Canonical, SoundAround, Passed, NoNull;
    var c, m := Met(t, prefix, plen), Entries(t);
    var p := BadInsert(t, prefix, plen, v, node, fork);
    var k := BelowMet(t, prefix, plen, p);
    w := Unused(m);
    PutBeside(p, prefix, plen, c, node, v, q, f, w);
    BesideFits(t, prefix, plen, v, k);
    addr := Padded(k);
    ShorterIsFound(p, prefix, plen, c, node, v, q, w, addr);
    OldValue(m, prefix[..plen], v, c.prefix[..plen + 1], w, addr, k);
  }

  // Slot zero instead of one: two further insertions do it.
  lemma TwoInsertsHide(t: Trie, prefix: Addr, plen: Len, v: int, node: Ref, fork: Ref, q: Ref, f: Ref, q': Ref, f': Ref)
    returns (w: int, addr: Addr)
    requires Good(t) && !InsertFits(t, prefix, plen) && Met(t, prefix, plen).Node? && plen + 1 < Met(t, prefix, plen).plen
    requires !prefix[plen]
    ensures var a, t1, m1 := NextTo(t, prefix, plen), Insert(t, prefix, plen, v, node, fork), Entries(t)[prefix[..plen] := v];
      && t1.Node? && t1.plen <= plen + 1 && FitsContents(m1, a, plen + 1)
      && var t2, m2 := Insert(t1, a, plen + 1, w, q, f), m1[a[..plen + 1] := w];
      && t2.Node? && t2.plen <= plen + 1 && FitsContents(m2, prefix, plen + 1)
      && var t3 := Insert(t2, prefix, plen + 1, w, q', f');
      t3.Node? && !LongestMatch(m2[prefix[..plen + 1] := w], addr, ValueOf(Find(t3, addr, Null)))
  {
    GoodIsSound(t);
    hide Insert, Entries, Good, Sound, Met, LongestMatch, FitsContents, Find, Plug, Beside, Doubled, Covering, Canonical, SoundAround, Passed, NoNull;
    var c, m := Met(t, prefix, plen), Entries(t);
    var p := BadInsert(t, prefix, plen, v, node, fork);
    var k := BelowMet(t, prefix, plen, p);
    w := v + 1;
    PutBeside(p, prefix, plen, c, node, v, q, f, w);
    BesideFits(t, prefix, plen, v, k);
    addr := c.prefix[plen + 1 := !c.prefix[plen + 1]];
    PutDoubled(p, prefix, plen, c, node, v, q, w, q', f', w);
    DoubledFits(t, prefix, plen, v, w);
    NothingIsFound(p, prefix, plen, c, node, v, q, w, q', f', w, addr);
    SidesDiffer(p, prefix, plen, c);
    forall j | j in m && Covers(j, addr)
      ensures |j| <= plen + 1
    {
      ShortOnly(t, prefix, plen, addr, j);
    }
    HiddenValue(m, prefix[..plen], v, c.prefix[..plen + 1], w, prefix[..plen + 1], w, addr);
  }
}
