/**
 * Why insertion needs its condition: a covered child in the wrong slot hides a longer match.
 */
module TrieSlots {
  import opened Basics
  import opened Tries
  import opened TrieEdits

  function Padded(bits: Bits): Addr
    requires |bits| <= WIDTH
  {
    bits + seq(WIDTH - |bits|, _ => false)
  }

  const HEAD: Trie := Node(1, Null, Padded([]), 0, Empty, Empty)

  const P11000: Addr := Padded([true, true, false, false, false])
  const P11011: Addr := Padded([true, true, false, true, true])
  const P1: Addr := Padded([true])
  const P11: Addr := Padded([true, true])
  const SOUGHT: Addr := Padded([true, true, false, false, true])

  // The trie after 11000/5 and 11011/5: a virtual node 110/3 with both below.
  function Forked(): Trie {
    Node(1, Null, Padded([]), 0, Empty,
         Node(4, Virtual, P11011, 3, Node(2, Value(10), P11000, 5, Empty, Empty), Node(3, Value(20), P11011, 5, Empty, Empty)))
  }

  lemma FirstTwo()
    ensures Good(HEAD)
    ensures Insert(Insert(HEAD, P11000, 5, 10, 2, 0), P11011, 5, 20, 3, 4) == Forked()
  {
    var t1 := Node(1, Null, Padded([]), 0, Empty, Node(2, Value(10), P11000, 5, Empty, Empty));
    assert Walk(Top, HEAD, P11000, 5) == (Top, HEAD);
    assert Insert(HEAD, P11000, 5, 10, 2, 0) == t1;
    assert P11000[3] != P11011[3];
    assert Walk(Top, t1, P11011, 5) == (Top, t1);
    assert CommonLen(P11000, P11011, 5) == 3;
  }

  // After 1/1: the fork's next bit is 1, yet it hangs in slot 0.
  function Covered(): Trie {
    Node(1, Null, Padded([]), 0, Empty, Node(5, Value(30), P1, 1, Forked().one, Empty))
  }

  // After 11/2, which finds slot 1 free.
  function Shadowed(): Trie {
    Node(1, Null, Padded([]), 0, Empty, Node(5, Value(30), P1, 1, Forked().one, Node(6, Value(40), P11, 2, Empty, Empty)))
  }

  lemma NextTwo()
    ensures Insert(Forked(), P1, 1, 30, 5, 0) == Covered()
    ensures Insert(Covered(), P11, 2, 40, 6, 0) == Shadowed()
  {
    assert CommonLen(P11011, P1, 1) == 1;
    assert Walk(Top, Forked(), P1, 1) == (Top, Forked());
    var c := Covered();
    assert Walk(Under(Top, c, true), c.one, P11, 2) == (Under(Top, c, true), c.one);
    assert Walk(Top, c, P11, 2) == (Under(Top, c, true), c.one);
  }

  // Four insertions into an empty trie after which the lookup of an address under 11/2
  // returns the value of 1/1: the third insertion breaks the slot condition.
  lemma WrongSlotHidesMatch()
    ensures var t2 := Insert(Insert(HEAD, P11000, 5, 10, 2, 0), P11011, 5, 20, 3, 4);
      var t4 := Insert(Insert(t2, P1, 1, 30, 5, 0), P11, 2, 40, 6, 0);
      && !InsertFits(t2, P1, 1)
      && ValueOf(Find(t4, SOUGHT, Null)) == Some(30)
      && P11[..2] in Entries(t4) && Entries(t4)[P11[..2]] == 40 && Covers(P11[..2], SOUGHT)
      && !LongestMatch(Entries(t4), SOUGHT, Some(30))
  {
    FirstTwo();
    NextTwo();
    var t4 := Shadowed();
    var f := t4.one.zero;
    assert Walk(Top, Forked(), P1, 1) == (Top, Forked());
    assert CommonLen(P11011, P1, 1) == 1 && P11011[1] != P1[1];
    assert P11000[4] != SOUGHT[4] && P11011[3] != SOUGHT[3];
    assert Find(f, SOUGHT, Value(30)) == Value(30);
    assert Find(t4.one, SOUGHT, Null) == Value(30);
    assert Find(t4, SOUGHT, Null) == Value(30);
    ShadowedEntries();
  }

  lemma LeafEntries(r: Ref, v: int, prefix: Addr, plen: Len)
    ensures Entries(Node(r, Value(v), prefix, plen, Empty, Empty)) == map[prefix[..plen] := v]
  {
    assert Entries(Empty) == map[];
  }

  lemma NodeEntries(t: Trie, m0: map<Bits, int>, m1: map<Bits, int>)
    requires t.Node? && Entries(t.zero) == m0 && Entries(t.one) == m1
    ensures Entries(t) == Own(t) + m0 + m1
  {
  }

  lemma ShadowedContents()
    ensures Entries(Shadowed()) == map[] + map[] + (map[P1[..1] := 30] + (map[] + map[P11000[..5] := 10] + map[P11011[..5] := 20]) + map[P11[..2] := 40])
  {
    hide Entries;
    var t4 := Shadowed();
    LeafEntries(2, 10, P11000, 5);
    LeafEntries(3, 20, P11011, 5);
    LeafEntries(6, 40, P11, 2);
    NodeEntries(t4.one.zero, map[P11000[..5] := 10], map[P11011[..5] := 20]);
    NodeEntries(t4.one, map[] + map[P11000[..5] := 10] + map[P11011[..5] := 20], map[P11[..2] := 40]);
    EmptyEntries();
    NodeEntries(t4, map[], map[P1[..1] := 30] + (map[] + map[P11000[..5] := 10] + map[P11011[..5] := 20]) + map[P11[..2] := 40]);
  }

  lemma EmptyEntries()
    ensures Entries(Empty) == map[]
  {
  }

  lemma ShadowedEntries()
    ensures P11[..2] in Entries(Shadowed()) && Entries(Shadowed())[P11[..2]] == 40 && Covers(P11[..2], SOUGHT)
    ensures !LongestMatch(Entries(Shadowed()), SOUGHT, Some(30))
  {
    hide Entries;
    ShadowedContents();
    var m := Entries(Shadowed());
    assert forall k | k in m :: m[k] == 30 ==> k == P1[..1];
    assert |P1[..1]| == 1 && |P11[..2]| == 2;
  }

  // ------------------------------------------------------------ the condition, read off the contents

  // j continues k with bit b.
  ghost predicate Continues(j: Bits, k: Bits, b: bool) {
    |k| < |j| && Covers(k, j) && j[|k|] == b
  }

  ghost predicate Occurs(m: map<Bits, int>, k: Bits, b: bool) {
    exists j :: j in m && Continues(j, k, b)
  }

  // The prefix is stored already, or no stored prefix continues it with another bit than the
  // one that follows it in the address, or one continues it with that very bit.
  ghost predicate FitsContents(m: map<Bits, int>, prefix: Addr, plen: Len) {
    plen == 0 || plen == WIDTH || prefix[..plen] in m
    || !Occurs(m, prefix[..plen], !prefix[plen]) || Occurs(m, prefix[..plen], prefix[plen])
  }

  // Every node of a good trie has a stored prefix at or below it.
  lemma {:induction false} SomeEntry(t: Trie) returns (k: Bits)
    requires t.Node? && Canonical(t) && NoNull(t) && Sound(t)
    ensures k in Entries(t)
  {
    if t.data.Value? {
      k := Key(t);
    } else {
      k := SomeEntry(t.zero);
    }
    EntryWhere(t, k);
  }

  // A stored prefix below child b continues the node's own with b.
  lemma ChildContinues(t: Trie, b: bool)
    requires t.Node? && Sound(t) && Canonical(t) && NoNull(t) && Child(t, b).Node?
    ensures Occurs(Entries(t), Key(t), b)
  {
    var j := SomeEntry(Child(t, b));
    EntryInChild(t, b, j);
    EntryWhere(t, j);
    assert Continues(j, Key(t), b);
  }

  // Where the continuations of a prefix that the walk passed by are stored.
  lemma {:induction false} ContinuedAround(p: Place, prefix: Addr, plen: Len, j: Bits)
    requires SoundAround(p) && Passed(p, prefix, plen) && Covers(prefix[..plen], j)
    ensures j !in EntriesAround(p)
  {
    if p.Below? {
      ContinuedAround(p.up, prefix, plen, j);
      var f := Joined(p, Empty);
      assert Child(f, !p.b) == p.other && Sound(f);
      assert j[p.plen] == prefix[p.plen];
      if j in Entries(p.other) {
        EntryInChild(f, !p.b, j);
      }
    }
  }

  lemma ContinuedBelow(t: Trie, prefix: Addr, plen: Len, j: Bits)
    requires Sound(t) && t.Node? && t.plen < plen && j in Entries(t) && Covers(prefix[..plen], j)
    ensures j in Entries(Child(t, prefix[t.plen]))
  {
    EntryWhere(t, j);
    assert j[t.plen] == prefix[t.plen];
    if j in Entries(Child(t, !prefix[t.plen])) {
      EntryInChild(t, !prefix[t.plen], j);
    }
  }

  // At a blocked child, the continuations are the child's whole contents or nothing.
  lemma ContinuedInChild(c: Trie, prefix: Addr, plen: Len, from: Len, j: Bits)
    requires Blocks(c, prefix, plen, from) && Sound(c) && j in Entries(c) && plen < WIDTH
    ensures c.Node?
    ensures Covers(prefix[..plen], j) <==> CommonLen(c.prefix, prefix, plen) == plen
    ensures CommonLen(c.prefix, prefix, plen) == plen ==> Continues(j, prefix[..plen], c.prefix[plen])
  {
    EntryExtends(c, j);
    SharedIsBetween(c, prefix, plen, from);
    var n := CommonLen(c.prefix, prefix, plen);
    if n < plen {
      assert prefix[..plen][n] != j[n];
    }
  }

  // The continuations of the prefix stored in the whole trie are those in the child the walk stops before.
  lemma ContinuedHere(p: Place, t: Trie, prefix: Addr, plen: Len, b: bool)
    requires Sound(Plug(p, t)) && t.Node? && t.plen < plen < WIDTH && Passed(p, prefix, plen)
    ensures Occurs(Entries(Plug(p, t)), prefix[..plen], b) <==> Occurs(Entries(Child(t, prefix[t.plen])), prefix[..plen], b)
  {
    hide Sound, Plug, Entries, Passed;
    SoundPlug(p, t);
    EntriesPlug(p, t);
    var k, c := prefix[..plen], Child(t, prefix[t.plen]);
    forall j | Continues(j, k, b)
      ensures j in Entries(Plug(p, t)) <==> j in Entries(c)
    {
      ContinuedAround(p, prefix, plen, j);
      EntryWhere(t, j);
      if j in Entries(t) {
        ContinuedBelow(t, prefix, plen, j);
      }
    }
  }

  lemma FitsBelow(c: Trie, prefix: Addr, plen: Len, from: Len)
    requires Blocks(c, prefix, plen, from) && Sound(c) && Canonical(c) && NoNull(c) && plen < WIDTH
    ensures var (m, k) := (Entries(c), prefix[..plen]);
      SlotRight(c, prefix, plen) <==> !Occurs(m, k, !prefix[plen]) || Occurs(m, k, prefix[plen])
  {
    hide Sound, Canonical, NoNull, Entries, Blocks;
    var m, k := Entries(c), prefix[..plen];
    forall j | j in m
      ensures c.Node? && forall b :: Continues(j, k, b) <==> CommonLen(c.prefix, prefix, plen) == plen && c.prefix[plen] == b
    {
      ContinuedInChild(c, prefix, plen, from, j);
    }
    if c.Node? {
      var j := SomeEntry(c);
    }
  }

  // Below a virtual node both bits occur.
  lemma ForkContinues(p: Place, t: Trie, b: bool)
    requires Good(Plug(p, t)) && t.Node? && t.data.Virtual?
    ensures t.plen < WIDTH && Occurs(Entries(Plug(p, t)), Key(t), b)
  {
    SoundPlug(p, t);
    CanonicalPlug(p, t);
    HeadPlug(p, t);
    EntriesPlug(p, t);
    ChildContinues(t, b);
  }

  // The slot condition in terms of the stored prefixes.
  lemma FitsByContents(t: Trie, prefix: Addr, plen: Len)
    requires Good(t)
    ensures InsertFits(t, prefix, plen) <==> FitsContents(Entries(t), prefix, plen)
  {
    WalkStops(Top, t, prefix, plen);
    var (p, s) := Walk(Top, t, prefix, plen);
    SoundPlug(p, s);
    CanonicalPlug(p, s);
    HeadPlug(p, s);
    hide Canonical, Entries, Walk, Plug, NoNull;
    StoredWhere(p, s, prefix, plen);
    if s.plen == plen {
      if 0 < plen && s.data.Virtual? {
        ForkContinues(p, s, prefix[plen]);
      }
    } else if plen < WIDTH {
      StopsBlocks(s, prefix, plen);
      FitsBelow(Child(s, prefix[s.plen]), prefix, plen, s.plen);
      ContinuedHere(p, s, prefix, plen, true);
      ContinuedHere(p, s, prefix, plen, false);
    }
  }
}
