/**
 * Longest-prefix-match tries as values: what they store, the slot and canonical-form
 * invariants, and what a lookup in a sound trie returns.
 */
module Tries {
  import opened Basics

  type Ref = nat

  const NONE: Ref := 0

  const WIDTH: nat := 128

  // Bits of an address or of a prefix, most significant first.
  type Bits = seq<bool>

  type Addr = a: Bits | |a| == WIDTH witness seq(WIDTH, _ => false)

  type Len = n: nat | n <= WIDTH

  // A node's data field: never set, the marker of a virtual node, or a stored value.
  datatype Data = Null | Virtual | Value(v: int)

  datatype Trie = Empty | Node(ref: Ref, data: Data, prefix: Addr, plen: Len, zero: Trie, one: Trie)

  function Child(t: Trie, b: bool): Trie
    requires t.Node?
  {
    if b then t.one else t.zero
  }

  function WithChild(t: Trie, b: bool, c: Trie): Trie
    requires t.Node?
  {
    if b then t.(one := c) else t.(zero := c)
  }

  // The bits a node stands for.
  function Key(t: Trie): Bits
    requires t.Node?
  {
    t.prefix[..t.plen]
  }

  // The two agree on the bits from lo up to hi.
  predicate Agree(a: Bits, b: Bits, lo: nat, hi: nat) {
    hi <= |a| && hi <= |b| && forall i | lo <= i < hi :: a[i] == b[i]
  }

  predicate Covers(k: Bits, a: Bits) {
    Agree(k, a, 0, |k|)
  }

  // ------------------------------------------------------------ invariants

  // The child c belongs in slot b below a node with this prefix and length.
  ghost predicate Fits(prefix: Addr, plen: Len, b: bool, c: Trie) {
    c.Empty? || (plen < c.plen && Agree(c.prefix, prefix, 0, plen) && c.prefix[plen] == b)
  }

  // Every child agrees with its parent and differs from its sibling in the bit of its slot.
  ghost predicate Sound(t: Trie) {
    t.Empty? ||
    (Fits(t.prefix, t.plen, false, t.zero) && Fits(t.prefix, t.plen, true, t.one)
     && Sound(t.zero) && Sound(t.one))
  }

  // Every virtual node has two children.
  ghost predicate Canonical(t: Trie) {
    t.Empty? ||
    ((t.data.Virtual? ==> t.zero.Node? && t.one.Node?) && Canonical(t.zero) && Canonical(t.one))
  }

  // Only the head may lack both a value and the virtual mark.
  ghost predicate NoNull(t: Trie) {
    t.Empty? || (!t.data.Null? && NoNull(t.zero) && NoNull(t.one))
  }

  // ------------------------------------------------------------ contents

  ghost function Own(t: Trie): map<Bits, int>
    requires t.Node?
  {
    if t.data.Value? then map[Key(t) := t.data.v] else map[]
  }

  // The stored prefixes and their values.
  ghost function Entries(t: Trie): map<Bits, int> {
    if t.Empty? then map[] else Own(t) + Entries(t.zero) + Entries(t.one)
  }

  // Stored prefixes extend the node's own.
  lemma {:induction false} EntryExtends(t: Trie, k: Bits)
    requires Sound(t) && k in Entries(t)
    ensures t.Node? && t.plen <= |k| <= WIDTH && Agree(k, t.prefix, 0, t.plen)
    decreases t, 1
  {
    if k in Entries(t.zero) {
      EntryInChild(t, false, k);
    } else if k in Entries(t.one) {
      EntryInChild(t, true, k);
    }
  }

  // One stored below a child extends it by the bit of the slot.
  lemma {:induction false} EntryInChild(t: Trie, b: bool, k: Bits)
    requires Sound(t) && t.Node? && k in Entries(Child(t, b))
    ensures Child(t, b).Node?
    ensures t.plen < |k| <= WIDTH && Agree(k, t.prefix, 0, t.plen) && k[t.plen] == b
    decreases t, 0
  {
    EntryExtends(Child(t, b), k);
  }

  // Where a stored prefix is found.
  lemma EntryWhere(t: Trie, k: Bits)
    requires Sound(t) && t.Node?
    ensures k in Entries(t) <==> k in Own(t) || k in Entries(t.zero) || k in Entries(t.one)
    ensures k in Own(t) ==> k !in Entries(t.zero) && k !in Entries(t.one) && Entries(t)[k] == Own(t)[k]
    ensures k in Entries(t.zero) ==> k !in Entries(t.one) && Entries(t)[k] == Entries(t.zero)[k]
    ensures k in Entries(t.one) ==> Entries(t)[k] == Entries(t.one)[k]
  {
    if k in Entries(t.zero) { EntryInChild(t, false, k); }
    if k in Entries(t.one) { EntryInChild(t, true, k); }
  }

  // The three parts of the contents do not overlap.
  lemma EntriesApart(t: Trie)
    requires Sound(t) && t.Node?
    ensures Own(t).Keys !! Entries(t.zero).Keys !! Entries(t.one).Keys
  {
    hide Entries;
    forall k
      ensures !(k in Own(t) && k in Entries(t.zero)) && !(k in Own(t) && k in Entries(t.one))
      ensures !(k in Entries(t.zero) && k in Entries(t.one))
    {
      EntryWhere(t, k);
    }
  }

  // ------------------------------------------------------------ lookup

  // Every stored prefix of addr is at most this long.
  ghost predicate AllWithin(m: map<Bits, int>, addr: Bits, n: int) {
    forall j | j in m && Covers(j, addr) :: |j| <= n
  }

  // k is the longest stored prefix of addr.
  ghost predicate Longest(m: map<Bits, int>, addr: Bits, k: Bits) {
    k in m && Covers(k, addr) && AllWithin(m, addr, |k|)
  }

  // The value of the longest stored prefix of addr.
  ghost predicate LongestMatch(m: map<Bits, int>, addr: Bits, r: Option<int>) {
    match r
    case None => AllWithin(m, addr, -1)
    case Some(v) => exists k :: Longest(m, addr, k) && m[k] == v
  }

  // The child is there and its bits beyond the parent's are those of addr.
  predicate Matches(c: Trie, addr: Addr, from: Len) {
    c.Node? && Agree(c.prefix, addr, from, c.plen)
  }

  // What the walk down from t returns, given the data of the last real node above.
  function Find(t: Trie, addr: Addr, last: Data): Data
    requires t.Node?
  {
    var last' := if t.data.Virtual? then last else t.data;
    if Matches(t.zero, addr, t.plen) then Find(t.zero, addr, last')
    else if Matches(t.one, addr, t.plen) then Find(t.one, addr, last')
    else last'
  }

  function ValueOf(d: Data): Option<int> {
    if d.Value? then Some(d.v) else None
  }

  // The result is the best match below, or what came from above when nothing below matches.
  ghost predicate BestBelow(m: map<Bits, int>, addr: Bits, last: Data, r: Data) {
    (r == last && AllWithin(m, addr, -1)) || (r.Value? && LongestMatch(m, addr, Some(r.v)))
  }

  // A child that holds a match is the one the walk takes.
  lemma MatchInChild(t: Trie, addr: Addr, b: bool, k: Bits)
    requires Sound(t) && t.Node? && k in Entries(Child(t, b)) && Covers(k, addr)
    ensures Matches(Child(t, b), addr, t.plen)
    ensures !Matches(Child(t, !b), addr, t.plen)
  {
    hide Entries;
    EntryInChild(t, b, k);
    EntryExtends(Child(t, b), k);
    assert addr[t.plen] == b;
  }

  // Beside the node's own, the stored prefixes of addr are below the child the walk takes.
  lemma CoversWhere(t: Trie, addr: Addr, b: bool, k: Bits)
    requires Sound(t) && t.Node? && Matches(Child(t, b), addr, t.plen)
    requires k in Entries(t) && Covers(k, addr)
    ensures k in Own(t) || k in Entries(Child(t, b))
  {
    EntryWhere(t, k);
    if k in Entries(Child(t, !b)) {
      MatchInChild(t, addr, !b, k);
    }
  }

  lemma WithinFromChild(t: Trie, addr: Addr, b: bool, n: int)
    requires Sound(t) && t.Node? && Matches(Child(t, b), addr, t.plen)
    requires AllWithin(Entries(Child(t, b)), addr, n) && (t.data.Value? ==> t.plen <= n)
    ensures AllWithin(Entries(t), addr, n)
  {
    forall k | k in Entries(t) && Covers(k, addr)
      ensures |k| <= n
    {
      CoversWhere(t, addr, b, k);
    }
  }

  lemma WithinHere(t: Trie, addr: Addr, n: int)
    requires Sound(t) && t.Node? && !Matches(t.zero, addr, t.plen) && !Matches(t.one, addr, t.plen)
    requires t.data.Value? ==> t.plen <= n
    ensures AllWithin(Entries(t), addr, n)
  {
    forall k | k in Entries(t) && Covers(k, addr)
      ensures |k| <= n
    {
      EntryWhere(t, k);
      if k in Entries(t.zero) { MatchInChild(t, addr, false, k); }
      if k in Entries(t.one) { MatchInChild(t, addr, true, k); }
    }
  }

  // The node's own prefix is the best match when no longer one is below.
  lemma OwnIsBest(t: Trie, addr: Addr)
    requires Sound(t) && t.Node? && t.data.Value? && Covers(Key(t), addr)
    requires AllWithin(Entries(t), addr, t.plen)
    ensures LongestMatch(Entries(t), addr, Some(t.data.v))
  {
    EntryWhere(t, Key(t));
    assert Longest(Entries(t), addr, Key(t));
  }

  lemma BestFromChild(t: Trie, addr: Addr, b: bool, last: Data, r: Data)
    requires Sound(t) && t.Node? && Covers(Key(t), addr) && (t.data.Null? ==> last.Null?)
    requires Matches(Child(t, b), addr, t.plen)
    requires BestBelow(Entries(Child(t, b)), addr, if t.data.Virtual? then last else t.data, r)
    ensures BestBelow(Entries(t), addr, last, r)
  {
    hide Sound, Entries, Covers, Matches, AllWithin;
    var m := Entries(Child(t, b));
    if AllWithin(m, addr, -1) {
      NothingWithin(m, addr, t.plen);
      WithinFromChild(t, addr, b, if t.data.Value? then t.plen else -1);
      if t.data.Value? { OwnIsBest(t, addr); }
    } else {
      var k :| Longest(m, addr, k) && m[k] == r.v;
      EntryInChild(t, b, k);
      EntryWhere(t, k);
      WithinFromChild(t, addr, b, |k|);
      assert Longest(Entries(t), addr, k);
    }
  }

  lemma NothingWithin(m: map<Bits, int>, addr: Bits, n: int)
    requires AllWithin(m, addr, -1)
    ensures -1 <= n ==> AllWithin(m, addr, n)
    ensures forall k :: !Longest(m, addr, k)
  {
  }

  lemma BestHere(t: Trie, addr: Addr, last: Data)
    requires Sound(t) && t.Node? && Covers(Key(t), addr) && (t.data.Null? ==> last.Null?)
    requires !Matches(t.zero, addr, t.plen) && !Matches(t.one, addr, t.plen)
    ensures BestBelow(Entries(t), addr, last, if t.data.Virtual? then last else t.data)
  {
    hide Sound, Entries, Covers, Matches, AllWithin;
    WithinHere(t, addr, if t.data.Value? then t.plen else -1);
    if t.data.Value? { OwnIsBest(t, addr); }
  }

  lemma {:induction false} FindIsBest(t: Trie, addr: Addr, last: Data)
    requires Sound(t) && t.Node? && Covers(Key(t), addr)
    requires NoNull(t.zero) && NoNull(t.one) && (t.data.Null? ==> last.Null?)
    ensures BestBelow(Entries(t), addr, last, Find(t, addr, last))
  {
    hide Entries, BestBelow;
    var last' := if t.data.Virtual? then last else t.data;
    if Matches(t.zero, addr, t.plen) {
      FindIsBest(t.zero, addr, last');
      BestFromChild(t, addr, false, last, Find(t.zero, addr, last'));
    } else if Matches(t.one, addr, t.plen) {
      FindIsBest(t.one, addr, last');
      BestFromChild(t, addr, true, last, Find(t.one, addr, last'));
    } else {
      BestHere(t, addr, last);
    }
  }

  // A head stands for the empty prefix and is never virtual.
  ghost predicate IsHead(t: Trie) {
    t.Node? && t.plen == 0 && !t.data.Virtual? && NoNull(t.zero) && NoNull(t.one)
  }

  // The walk from the head finds the longest stored prefix of the address.
  lemma LookupIsLongestMatch(t: Trie, addr: Addr)
    requires Sound(t) && IsHead(t)
    ensures LongestMatch(Entries(t), addr, ValueOf(Find(t, addr, Null)))
  {
    hide Sound, Find, Entries;
    FindIsBest(t, addr, Null);
  }
}
