/**
 * Insertion into and deletion from longest-prefix-match tries, at the node where the exact
 * walk stops: what they do to the contents, the slots and the canonical form.
 */
module TrieEdits {
  import opened Tries

  // ------------------------------------------------------------ places

  // A trie with a hole in slot b of the node described, whose other child is other.
  datatype Place = Top | Below(ref: Ref, data: Data, prefix: Addr, plen: Len, b: bool, other: Trie, up: Place)

  function Joined(p: Place, t: Trie): Trie
    requires p.Below?
  {
    if p.b then Node(p.ref, p.data, p.prefix, p.plen, p.other, t) else Node(p.ref, p.data, p.prefix, p.plen, t, p.other)
  }

  function Plug(p: Place, t: Trie): Trie {
    if p.Top? then t else Plug(p.up, Joined(p, t))
  }

  // The place of child b of the focused node.
  function Under(p: Place, t: Trie, b: bool): Place
    requires t.Node?
  {
    Below(t.ref, t.data, t.prefix, t.plen, b, Child(t, !b), p)
  }

  lemma UnderJoins(p: Place, t: Trie, b: bool)
    requires t.Node?
    ensures Joined(Under(p, t, b), Child(t, b)) == t
    ensures Plug(Under(p, t, b), Child(t, b)) == Plug(p, t)
  {
  }

  ghost predicate FitsAt(p: Place, t: Trie) {
    p.Top? || Fits(p.prefix, p.plen, p.b, t)
  }

  ghost predicate SoundAround(p: Place) {
    p.Top? ||
    (Fits(p.prefix, p.plen, !p.b, p.other) && Sound(p.other) && FitsAt(p.up, Joined(p, Empty)) && SoundAround(p.up))
  }

  lemma {:induction false} SoundPlug(p: Place, t: Trie)
    ensures Sound(Plug(p, t)) <==> SoundAround(p) && Sound(t) && FitsAt(p, t)
    decreases p
  {
    if p.Below? {
      SoundPlug(p.up, Joined(p, t));
    }
  }

  // Canonical but possibly for the focused node.
  ghost predicate CanonicalAround(p: Place) {
    p.Top? || ((p.data.Virtual? ==> p.other.Node?) && Canonical(p.other) && CanonicalAround(p.up))
  }

  lemma {:induction false} CanonicalPlug(p: Place, t: Trie)
    requires t.Node?
    ensures Canonical(Plug(p, t)) <==> CanonicalAround(p) && Canonical(t)
    decreases p
  {
    if p.Below? {
      CanonicalPlug(p.up, Joined(p, t));
    }
  }

  // The outermost node is a head and no other node lacks its data.
  ghost predicate HeadAround(p: Place) {
    p.Top? ||
    (NoNull(p.other) && HeadAround(p.up)
     && if p.up.Top? then p.plen == 0 && !p.data.Virtual? else !p.data.Null?)
  }

  lemma {:induction false} HeadPlug(p: Place, t: Trie)
    ensures IsHead(Plug(p, t)) <==> HeadAround(p) && if p.Top? then IsHead(t) else NoNull(t)
    decreases p
  {
    if p.Below? {
      HeadPlug(p.up, Joined(p, t));
    }
  }

  ghost function EntriesAround(p: Place): map<Bits, int> {
    if p.Top? then map[] else EntriesAround(p.up) + Own(Joined(p, Empty)) + Entries(p.other)
  }

  lemma EntriesJoined(p: Place, t: Trie)
    requires p.Below? && Sound(Joined(p, t))
    ensures Entries(Joined(p, t)) == Own(Joined(p, Empty)) + Entries(p.other) + Entries(t)
    ensures (Own(Joined(p, Empty)) + Entries(p.other)).Keys !! Entries(t).Keys
  {
    var j := Joined(p, t);
    EntriesApart(j);
    assert Own(j) == Own(Joined(p, Empty));
    assert Entries(j) == Own(j) + Entries(j.zero) + Entries(j.one);
    hide Entries, Own, Sound;
    SwapLast(Own(j), Entries(t), Entries(p.other));
  }

  lemma SwapLast(a: map<Bits, int>, b: map<Bits, int>, c: map<Bits, int>)
    requires b.Keys !! c.Keys
    ensures a + b + c == a + c + b
  {
  }

  lemma {:induction false} EntriesPlug(p: Place, t: Trie)
    requires Sound(Plug(p, t))
    ensures Entries(Plug(p, t)) == EntriesAround(p) + Entries(t)
    ensures EntriesAround(p).Keys !! Entries(t).Keys
    decreases p
  {
    hide Sound, Entries, Own;
    if p.Below? {
      SoundPlug(p.up, Joined(p, t));
      EntriesPlug(p.up, Joined(p, t));
      EntriesJoined(p, t);
    }
  }

  // ------------------------------------------------------------ the exact walk

  // The exact walk goes on into this child.
  predicate Descends(c: Trie, prefix: Addr, plen: Len, from: Len) {
    c.Node? && c.plen <= plen && Agree(c.prefix, prefix, from, c.plen)
  }

  // The node stands for a prefix of the one looked for, and neither child does.
  ghost predicate Stops(t: Trie, prefix: Addr, plen: Len) {
    && t.Node? && t.plen <= plen && Agree(t.prefix, prefix, 0, t.plen)
    && !Descends(t.zero, prefix, plen, t.plen) && !Descends(t.one, prefix, plen, t.plen)
  }

  // The prefix is stored only if the walk stops at it.
  lemma StoredOnlyHere(t: Trie, prefix: Addr, plen: Len)
    requires Sound(t) && Stops(t, prefix, plen)
    ensures prefix[..plen] in Entries(t) <==> t.plen == plen && t.data.Value?
    ensures t.plen == plen ==> Key(t) == prefix[..plen]
  {
    var k := prefix[..plen];
    EntryWhere(t, k);
    assert t.plen == plen ==> Key(t) == k;
    if k in Entries(t.zero) {
      EntryInChild(t, false, k);
      EntryExtends(t.zero, k);
    }
    if k in Entries(t.one) {
      EntryInChild(t, true, k);
      EntryExtends(t.one, k);
    }
  }

  // The frames passed on the way down, each agreeing with the prefix on all its bits and shorter.
  ghost predicate Passed(p: Place, prefix: Addr, plen: Len) {
    p.Top? || (p.plen < plen && Agree(p.prefix, prefix, 0, p.plen) && prefix[p.plen] == p.b && Passed(p.up, prefix, plen))
  }

  lemma {:induction false} NotStoredAround(p: Place, prefix: Addr, plen: Len)
    requires SoundAround(p) && Passed(p, prefix, plen)
    ensures prefix[..plen] !in EntriesAround(p)
  {
    if p.Below? {
      NotStoredAround(p.up, prefix, plen);
      var j := Joined(p, Empty);
      assert Child(j, !p.b) == p.other && Sound(j);
      if prefix[..plen] in Entries(p.other) {
        EntryInChild(j, !p.b, prefix[..plen]);
      }
    }
  }

  // ------------------------------------------------------------ insertion

  // The number of leading bits, up to max, in which the two agree.
  function CommonLen(a: Addr, b: Addr, max: Len, i: nat := 0): (r: Len)
    requires i <= max && Agree(a, b, 0, i)
    ensures i <= r <= max && Agree(a, b, 0, r) && (r < max ==> a[r] != b[r])
    decreases max - i
  {
    if i < max && a[i] == b[i] then CommonLen(a, b, max, i + 1) else i
  }

  // The slot the code picks: one past the last bit counts as 1.
  predicate SlotBit(prefix: Addr, i: Len) {
    i < WIDTH ==> prefix[i]
  }

  // What takes the place of child c when prefix/plen is inserted there, in fresh records at node and fork.
  function Displaced(c: Trie, prefix: Addr, plen: Len, v: int, node: Ref, fork: Ref): Trie {
    var n := Node(node, Value(v), prefix, plen, Empty, Empty);
    if c.Empty? then n
    else
      var cplen := CommonLen(c.prefix, prefix, plen);
      var s := SlotBit(prefix, cplen);
      if cplen == plen then WithChild(n, s, c)
      else if s then Node(fork, Virtual, prefix, cplen, c, n)
      else Node(fork, Virtual, prefix, cplen, n, c)
  }

  // The focused node after the insertion of prefix/plen.
  function InsertAt(t: Trie, prefix: Addr, plen: Len, v: int, node: Ref, fork: Ref): Trie
    requires t.Node? && t.plen <= plen
  {
    if t.plen == plen then t.(data := Value(v))
    else
      var b := prefix[t.plen];
      WithChild(t, b, Displaced(Child(t, b), prefix, plen, v, node, fork))
  }

  // A child that the new prefix covers goes into the slot of the new prefix's own next bit.
  ghost predicate SlotRight(c: Trie, prefix: Addr, plen: Len) {
    c.Node? && plen < WIDTH && CommonLen(c.prefix, prefix, plen) == plen ==> c.prefix[plen] == prefix[plen]
  }

  // Every child the insertion displaces lands in the slot of its own bit.
  ghost predicate InsertRight(t: Trie, prefix: Addr, plen: Len)
    requires t.Node?
  {
    t.plen < plen ==> SlotRight(Child(t, prefix[t.plen]), prefix, plen)
  }

  // A child the exact walk does not enter, in the slot the new prefix belongs to.
  ghost predicate Blocks(c: Trie, prefix: Addr, plen: Len, from: Len) {
    from < plen && !Descends(c, prefix, plen, from) && Fits(prefix, from, prefix[from], c)
  }

  lemma StopsBlocks(t: Trie, prefix: Addr, plen: Len)
    requires Sound(t) && Stops(t, prefix, plen) && t.plen < plen
    ensures Blocks(Child(t, prefix[t.plen]), prefix, plen, t.plen)
  {
  }

  // The displaced child is longer than what it shares with the new prefix, which is more than the parent.
  lemma SharedIsBetween(c: Trie, prefix: Addr, plen: Len, from: Len)
    requires Blocks(c, prefix, plen, from) && c.Node?
    ensures from < CommonLen(c.prefix, prefix, plen) < c.plen
  {
  }

  lemma DisplacedSound(c: Trie, prefix: Addr, plen: Len, from: Len, v: int, node: Ref, fork: Ref)
    requires Blocks(c, prefix, plen, from) && Sound(c)
    ensures var d := Displaced(c, prefix, plen, v, node, fork);
      (Sound(d) <==> SlotRight(c, prefix, plen)) && Fits(prefix, from, prefix[from], d)
  {
    var n := Node(node, Value(v), prefix, plen, Empty, Empty);
    assert Sound(Empty) && Sound(n);
    if c.Node? {
      SharedIsBetween(c, prefix, plen, from);
      var cplen := CommonLen(c.prefix, prefix, plen);
      assert Fits(prefix, cplen, c.prefix[cplen], c);
      if cplen < plen {
        assert Fits(prefix, cplen, prefix[cplen], n);
      }
    }
  }

  lemma FitsSame(a: Addr, a': Addr, plen: Len, b: bool, c: Trie)
    requires Agree(a, a', 0, plen)
    ensures Fits(a, plen, b, c) <==> Fits(a', plen, b, c)
  {
  }

  // The insertion keeps every child in its slot exactly when it displaces none into the wrong one.
  lemma InsertSound(t: Trie, prefix: Addr, plen: Len, v: int, node: Ref, fork: Ref)
    requires Sound(t) && Stops(t, prefix, plen)
    ensures Sound(InsertAt(t, prefix, plen, v, node, fork)) <==> InsertRight(t, prefix, plen)
  {
    if t.plen < plen {
      var b := prefix[t.plen];
      StopsBlocks(t, prefix, plen);
      DisplacedSound(Child(t, b), prefix, plen, t.plen, v, node, fork);
      FitsSame(t.prefix, prefix, t.plen, b, Displaced(Child(t, b), prefix, plen, v, node, fork));
      hide Displaced, SlotRight, Fits, Blocks, Stops, Descends;
    }
  }

  lemma DisplacedCanonical(c: Trie, prefix: Addr, plen: Len, v: int, node: Ref, fork: Ref)
    requires Canonical(c) && NoNull(c)
    ensures var d := Displaced(c, prefix, plen, v, node, fork); d.Node? && Canonical(d) && NoNull(d)
  {
  }

  lemma InsertCanonical(t: Trie, prefix: Addr, plen: Len, v: int, node: Ref, fork: Ref)
    requires t.Node? && t.plen <= plen && Canonical(t) && NoNull(t.zero) && NoNull(t.one)
    ensures var t' := InsertAt(t, prefix, plen, v, node, fork);
      t'.Node? && Canonical(t') && (NoNull(t) ==> NoNull(t')) && (IsHead(t) ==> IsHead(t'))
  {
    if t.plen < plen {
      DisplacedCanonical(Child(t, prefix[t.plen]), prefix, plen, v, node, fork);
      hide Displaced;
    }
  }

  lemma DisplacedEntries(c: Trie, prefix: Addr, plen: Len, from: Len, v: int, node: Ref, fork: Ref)
    requires Blocks(c, prefix, plen, from) && Sound(c)
    ensures Entries(Displaced(c, prefix, plen, v, node, fork)) == Entries(c)[prefix[..plen] := v]
  {
    var n := Node(node, Value(v), prefix, plen, Empty, Empty);
    var key := prefix[..plen];
    assert Entries(n) == map[key := v] && Own(n) == map[key := v];
    if c.Node? {
      SharedIsBetween(c, prefix, plen, from);
      var cplen := CommonLen(c.prefix, prefix, plen);
      if key in Entries(c) {
        EntryExtends(c, key);
      }
      var d := Displaced(c, prefix, plen, v, node, fork);
      assert Entries(d) == Own(d) + Entries(d.zero) + Entries(d.one);
      assert Entries(Empty) == map[];
      hide Entries, Sound, Fits, Agree, Descends;
      PutFirst(Entries(c), key, v);
    }
  }

  lemma PutFirst(m: map<Bits, int>, k: Bits, v: int)
    requires k !in m
    ensures map[k := v] + m == m[k := v] == m + map[k := v]
    ensures map[k := v] + map[] + m == m[k := v] == map[k := v] + m + map[]
    ensures map[] + map[k := v] + m == m[k := v] == map[] + m + map[k := v]
  {
  }

  // A child's contents changed at one key.
  lemma EntriesWithChild(t: Trie, b: bool, c: Trie, k: Bits, v: int)
    requires t.Node? && Sound(t) && Sound(WithChild(t, b, c))
    requires Entries(c) == Entries(Child(t, b))[k := v]
    ensures Entries(WithChild(t, b, c)) == Entries(t)[k := v]
  {
    var t' := WithChild(t, b, c);
    EntriesApart(t);
    EntriesApart(t');
    assert Own(t') == Own(t);
    assert Entries(t) == Own(t) + Entries(t.zero) + Entries(t.one);
    assert Entries(t') == Own(t) + Entries(t'.zero) + Entries(t'.one);
    hide Entries, Own, Sound;
    if b {
      UpdateLast(Own(t) + Entries(t.zero), Entries(t.one), k, v);
    } else {
      UpdateMiddle(Own(t), Entries(t.zero), Entries(t.one), k, v);
    }
  }

  lemma UpdateLast(a: map<Bits, int>, b: map<Bits, int>, k: Bits, v: int)
    ensures a + b[k := v] == (a + b)[k := v]
  {
  }

  lemma UpdateMiddle(a: map<Bits, int>, b: map<Bits, int>, c: map<Bits, int>, k: Bits, v: int)
    requires k !in c
    ensures a + b[k := v] + c == (a + b + c)[k := v]
  {
  }

  lemma InsertEntries(t: Trie, prefix: Addr, plen: Len, v: int, node: Ref, fork: Ref)
    requires Sound(t) && Stops(t, prefix, plen) && InsertRight(t, prefix, plen)
    ensures Entries(InsertAt(t, prefix, plen, v, node, fork)) == Entries(t)[prefix[..plen] := v]
  {
    InsertSound(t, prefix, plen, v, node, fork);
    if t.plen < plen {
      var b := prefix[t.plen];
      StopsBlocks(t, prefix, plen);
      DisplacedEntries(Child(t, b), prefix, plen, t.plen, v, node, fork);
      hide Displaced, Entries, SlotRight, InsertRight;
      EntriesWithChild(t, b, Displaced(Child(t, b), prefix, plen, v, node, fork), prefix[..plen], v);
    } else {
      EntriesRelabelled(t, Value(v));
      StoredOnlyHere(t, prefix, plen);
    }
  }

  // Changing the data of the focused node.
  lemma EntriesRelabelled(t: Trie, d: Data)
    requires Sound(t) && t.Node?
    ensures d.Value? ==> Entries(t.(data := d)) == Entries(t)[Key(t) := d.v]
    ensures !d.Value? ==> Entries(t.(data := d)) == Entries(t) - {Key(t)}
  {
    var t0, t' := t.(data := Value(0)), t.(data := d);
    EntriesApart(t0);
    assert Key(t) in Own(t0);
    assert Entries(t) == Own(t) + Entries(t.zero) + Entries(t.one);
    assert Entries(t') == Own(t') + Entries(t.zero) + Entries(t.one);
    hide Entries, Sound;
    Relabel(Own(t), Own(t'), Entries(t.zero), Entries(t.one), Key(t));
  }

  lemma Relabel(a: map<Bits, int>, a': map<Bits, int>, b: map<Bits, int>, c: map<Bits, int>, k: Bits)
    requires a.Keys <= {k} && a'.Keys <= {k} && k !in b && k !in c
    ensures k in a' ==> a' + b + c == (a + b + c)[k := a'[k]]
    ensures k !in a' ==> a' + b + c == a + b + c - {k}
  {
  }

  // ------------------------------------------------------------ whole tries

  ghost predicate Good(t: Trie) {
    Sound(t) && Canonical(t) && IsHead(t)
  }

  // Where the exact walk for prefix/plen ends.
  function Walk(p: Place, t: Trie, prefix: Addr, plen: Len): (r: (Place, Trie))
    requires t.Node? && t.plen <= plen
    ensures r.1.Node? && r.1.plen <= plen && Plug(r.0, r.1) == Plug(p, t)
    decreases t
  {
    if Agree(t.prefix, prefix, 0, t.plen) && t.plen == plen && !t.data.Virtual? then (p, t)
    else if Descends(t.zero, prefix, plen, t.plen) then Walk(Under(p, t, false), t.zero, prefix, plen)
    else if Descends(t.one, prefix, plen, t.plen) then Walk(Under(p, t, true), t.one, prefix, plen)
    else (p, t)
  }

  lemma PassOn(p: Place, t: Trie, b: bool, prefix: Addr, plen: Len)
    requires t.Node? && Sound(t) && Passed(p, prefix, plen) && Agree(t.prefix, prefix, 0, t.plen)
    requires Descends(Child(t, b), prefix, plen, t.plen)
    ensures Passed(Under(p, t, b), prefix, plen) && Agree(Child(t, b).prefix, prefix, 0, Child(t, b).plen)
    ensures Sound(Child(t, b))
  {
  }

  lemma {:induction false} WalkStops(p: Place, t: Trie, prefix: Addr, plen: Len)
    requires t.Node? && Sound(t) && t.plen <= plen && Agree(t.prefix, prefix, 0, t.plen) && Passed(p, prefix, plen)
    ensures var (p', t') := Walk(p, t, prefix, plen);
      Sound(t') && Stops(t', prefix, plen) && Passed(p', prefix, plen)
    decreases t
  {
    hide Sound, Passed, Agree;
    if t.plen == plen && !t.data.Virtual? {
      FullStops(t, prefix);
    } else if Descends(t.zero, prefix, plen, t.plen) {
      PassOn(p, t, false, prefix, plen);
      WalkStops(Under(p, t, false), t.zero, prefix, plen);
    } else if Descends(t.one, prefix, plen, t.plen) {
      PassOn(p, t, true, prefix, plen);
      WalkStops(Under(p, t, true), t.one, prefix, plen);
    }
  }

  lemma FullStops(t: Trie, prefix: Addr)
    requires t.Node? && Sound(t) && Agree(t.prefix, prefix, 0, t.plen)
    ensures Stops(t, prefix, t.plen)
  {
  }

  function Insert(t: Trie, prefix: Addr, plen: Len, v: int, node: Ref, fork: Ref): Trie
    requires t.Node? && t.plen <= plen
  {
    var (p, s) := Walk(Top, t, prefix, plen);
    Plug(p, InsertAt(s, prefix, plen, v, node, fork))
  }

  // The condition under which the insertion is right, read off the trie before the call.
  ghost predicate InsertFits(t: Trie, prefix: Addr, plen: Len)
    requires t.Node? && t.plen <= plen
  {
    InsertRight(Walk(Top, t, prefix, plen).1, prefix, plen)
  }

  lemma InsertThere(p: Place, t: Trie, t': Trie, k: Bits, v: int)
    requires t.Node? && t'.Node? && t'.prefix == t.prefix && t'.plen == t.plen
    requires Good(Plug(p, t)) && Sound(t') && Canonical(t') && (NoNull(t) ==> NoNull(t')) && (IsHead(t) ==> IsHead(t'))
    requires Entries(t') == Entries(t)[k := v]
    ensures Good(Plug(p, t')) && Entries(Plug(p, t')) == Entries(Plug(p, t))[k := v]
  {
    hide Sound, Canonical, IsHead, Entries, NoNull;
    SoundPlug(p, t);
    SoundPlug(p, t');
    CanonicalPlug(p, t);
    CanonicalPlug(p, t');
    HeadPlug(p, t);
    HeadPlug(p, t');
    EntriesPlug(p, t);
    EntriesPlug(p, t');
  }

  lemma NoNullParts(p: Place, t: Trie)
    requires IsHead(Plug(p, t)) && t.Node?
    ensures NoNull(t.zero) && NoNull(t.one)
  {
    HeadPlug(p, t);
  }

  // Inserting a prefix into a good trie sets its value and keeps the trie good, slots and
  // canonical form included, exactly when no covered child is put into the wrong slot.
  lemma InsertRefinesMap(t: Trie, prefix: Addr, plen: Len, v: int, node: Ref, fork: Ref)
    requires Good(t)
    ensures Good(Insert(t, prefix, plen, v, node, fork)) <==> InsertFits(t, prefix, plen)
    ensures InsertFits(t, prefix, plen) ==>
      Entries(Insert(t, prefix, plen, v, node, fork)) == Entries(t)[prefix[..plen] := v]
  {
    WalkStops(Top, t, prefix, plen);
    var (p, s) := Walk(Top, t, prefix, plen);
    var s' := InsertAt(s, prefix, plen, v, node, fork);
    hide Walk, InsertRight, InsertAt, Stops, Sound, Canonical, IsHead, Entries;
    InsertSound(s, prefix, plen, v, node, fork);
    if InsertRight(s, prefix, plen) {
      CanonicalPlug(p, s);
      NoNullParts(p, s);
      InsertCanonical(s, prefix, plen, v, node, fork);
      InsertEntries(s, prefix, plen, v, node, fork);
      InsertKeepsKey(s, prefix, plen, v, node, fork);
      InsertThere(p, s, s', prefix[..plen], v);
    } else {
      SoundPlug(p, s');
    }
  }

  lemma InsertKeepsKey(t: Trie, prefix: Addr, plen: Len, v: int, node: Ref, fork: Ref)
    requires t.Node? && t.plen <= plen
    ensures var t' := InsertAt(t, prefix, plen, v, node, fork);
      t'.Node? && t'.prefix == t.prefix && t'.plen == t.plen && t'.ref == t.ref
  {
  }

  // What the walk for a prefix tells about the contents.
  lemma StoredWhere(p: Place, t: Trie, prefix: Addr, plen: Len)
    requires Good(Plug(p, t)) && Stops(t, prefix, plen) && Passed(p, prefix, plen)
    ensures prefix[..plen] in Entries(Plug(p, t)) <==> t.plen == plen && t.data.Value?
    ensures t.plen == plen ==> Key(t) == prefix[..plen]
    ensures t.plen == plen && t.data.Value? ==> Entries(Plug(p, t))[prefix[..plen]] == t.data.v
    ensures t.plen == plen > 0 ==> p.Below?
  {
    SoundPlug(p, t);
    StoredOnlyHere(t, prefix, plen);
    NotStoredAround(p, prefix, plen);
    EntriesPlug(p, t);
    EntryWhere(t, prefix[..plen]);
  }
}
