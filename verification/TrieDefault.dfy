/**
 * Deleting the empty prefix: the head itself becomes virtual, and with a single child it takes
 * that child over. When lookups are still right after that.
 */
module TrieDefault {
  import opened Tries
  import opened TrieEdits
  import opened TrieDelete
  import opened TrieSlots

  // The trie after the head, which has a child, was made virtual and optimized.
  function AfterDefaultDelete(t: Trie): Trie
    requires t.Node? && (t.zero.Node? || t.one.Node?)
  {
    var h := t.(data := Virtual);
    if t.zero.Node? && t.one.Node? then h else Merged(h, Child(t, t.one.Node?))
  }

  // Every lookup returns the longest match among the prefixes of m.
  ghost predicate Serves(t: Trie, m: map<Bits, int>)
    requires t.Node?
  {
    forall addr: Addr :: LongestMatch(m, addr, ValueOf(Find(t, addr, Null)))
  }

  lemma AfterDefaultParts(t: Trie)
    requires Good(t) && (t.zero.Node? || t.one.Node?)
    ensures var t' := AfterDefaultDelete(t);
      && Sound(t') && NoNull(t') && Entries(t') == Entries(t) - {[]}
      && (t.zero.Node? && t.one.Node? ==> t'.plen == 0)
      && (!(t.zero.Node? && t.one.Node?) ==> 0 < t'.plen && t'.prefix[0] == t.one.Node? && Canonical(t'))
  {
    EntriesRelabelled(t, Virtual);
    assert Key(t) == [];
    if !(t.zero.Node? && t.one.Node?) {
      MergedLocal(t.(data := Virtual), t.one.Node?);
      assert Canonical(Child(t, t.one.Node?));
    }
  }

  // With both children the head still stands for no bits.
  lemma ForkServes(t: Trie)
    requires Sound(t) && NoNull(t) && t.Node? && t.plen == 0
    ensures Serves(t, Entries(t))
  {
    forall addr: Addr
      ensures LongestMatch(Entries(t), addr, ValueOf(Find(t, addr, Null)))
    {
      hide Sound, Find, Entries;
      FindIsBest(t, addr, Null);
    }
  }

  // The walk never looks at the bits its first node stands for.
  lemma {:induction false} FindSkipsBits(t: Trie, a: Addr, b: Addr, from: Len, last: Data)
    requires t.Node? && from <= t.plen && Sound(t) && (forall i | from <= i < WIDTH :: a[i] == b[i])
    ensures Find(t, a, last) == Find(t, b, last)
  {
    var last' := if t.data.Virtual? then last else t.data;
    assert forall c | c == t.zero || c == t.one :: Matches(c, a, t.plen) <==> Matches(c, b, t.plen);
    if t.zero.Node? { FindSkipsBits(t.zero, a, b, from, last'); }
    if t.one.Node? { FindSkipsBits(t.one, a, b, from, last'); }
  }

  // A head that stands for some bits answers for an address that differs in the first of them.
  lemma LongHeadMisroutes(t: Trie) returns (addr: Addr)
    requires t.Node? && 0 < t.plen && Sound(t) && NoNull(t) && Canonical(t)
    ensures AllWithin(Entries(t), addr, -1) && Find(t, addr, Null).Value?
  {
    hide Sound, Find, Entries, Canonical;
    var k := SomeEntry(t);
    EntryExtends(t, k);
    var right := Padded(k);
    addr := right[0 := !right[0]];
    FindIsBest(t, right, Null);
    assert Covers(k, right) && Find(t, right, Null).Value?;
    FindSkipsBits(t, addr, right, 1, Null);
    forall j | j in Entries(t)
      ensures !Covers(j, addr)
    {
      EntryExtends(t, j);
    }
  }

  // After the empty prefix is deleted from a trie that has more, every lookup returns the longest
  // match among the others if and only if the head had both children.
  lemma DefaultDeleteServes(t: Trie)
    requires Good(t) && (t.zero.Node? || t.one.Node?)
    ensures Entries(AfterDefaultDelete(t)) == Entries(t) - {[]}
    ensures Serves(AfterDefaultDelete(t), Entries(t) - {[]}) <==> t.zero.Node? && t.one.Node?
  {
    var t' := AfterDefaultDelete(t);
    AfterDefaultParts(t);
    hide AfterDefaultDelete, Good, Entries, Find;
    if t.zero.Node? && t.one.Node? {
      ForkServes(t');
    } else {
      var addr := LongHeadMisroutes(t');
      assert !LongestMatch(Entries(t'), addr, ValueOf(Find(t', addr, Null)));
    }
  }

  // In terms of contents: lookups stay right if and only if the other prefixes begin with both bits.
  lemma DefaultDeleteByContents(t: Trie)
    requires Good(t) && (t.zero.Node? || t.one.Node?)
    ensures Serves(AfterDefaultDelete(t), Entries(t) - {[]}) <==> Occurs(Entries(t), [], false) && Occurs(Entries(t), [], true)
  {
    DefaultDeleteServes(t);
    ChildOccurs(t, false);
    ChildOccurs(t, true);
  }

  lemma ChildOccurs(t: Trie, b: bool)
    requires Good(t)
    ensures Child(t, b).Node? <==> Occurs(Entries(t), [], b)
  {
    if Child(t, b).Node? {
      var j := SomeEntry(Child(t, b));
      EntryInChild(t, b, j);
      EntryWhere(t, j);
      assert Continues(j, [], b);
    }
    if Occurs(Entries(t), [], b) {
      var j :| j in Entries(t) && Continues(j, [], b);
      EntryWhere(t, j);
      if j in Entries(Child(t, !b)) { EntryInChild(t, !b, j); }
    }
  }
}
