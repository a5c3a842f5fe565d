/**
 * Taking a prefix out of a trie: the node becomes virtual, and virtual nodes with fewer than
 * two children are merged away or dropped.
 */
module TrieDelete {
  import opened Tries
  import opened TrieEdits

  // Good but for the focused node, which may be virtual with fewer than two children.
  ghost predicate Almost(p: Place, t: Trie) {
    && t.Node? && Sound(Plug(p, t)) && IsHead(Plug(p, t))
    && CanonicalAround(p) && Canonical(t.zero) && Canonical(t.one)
  }

  lemma AlmostDone(p: Place, t: Trie)
    requires Almost(p, t) && (t.data.Virtual? ==> t.zero.Node? && t.one.Node?)
    ensures Good(Plug(p, t))
  {
    CanonicalPlug(p, t);
  }

  // A virtual node is never the head.
  lemma VirtualIsBelow(p: Place, t: Trie)
    requires Almost(p, t) && t.data.Virtual?
    ensures p.Below? && NoNull(t)
  {
    HeadPlug(p, t);
  }

  // The node whose prefix is taken out.
  lemma MarkStep(p: Place, t: Trie)
    requires Good(Plug(p, t)) && t.Node? && p.Below?
    ensures var t' := t.(data := Virtual);
      Almost(p, t') && Entries(Plug(p, t')) == Entries(Plug(p, t)) - {Key(t)}
  {
    var t' := t.(data := Virtual);
    SoundPlug(p, t);
    SoundPlug(p, t');
    CanonicalPlug(p, t);
    HeadPlug(p, t);
    HeadPlug(p, t');
    EntriesRelabelled(t, Virtual);
    EntriesPlug(p, t);
    EntriesPlug(p, t');
    KeyNotAround(p, t);
    hide Plug, Sound, Entries, EntriesAround, Key;
    RemoveLast(EntriesAround(p), Entries(t), Key(t));
  }

  lemma RemoveLast(a: map<Bits, int>, b: map<Bits, int>, k: Bits)
    requires k !in a
    ensures a + (b - {k}) == a + b - {k}
  {
  }

  // No other node stands for the same bits.
  lemma KeyNotAround(p: Place, t: Trie)
    requires Sound(Plug(p, t)) && t.Node?
    ensures Key(t) !in EntriesAround(p)
  {
    var t0 := t.(data := Value(0));
    SoundPlug(p, t);
    SoundPlug(p, t0);
    EntriesPlug(p, t0);
    EntryWhere(t0, Key(t));
    assert Key(t) in Own(t0);
  }

  // The node taking over everything from its only child.
  function Merged(t: Trie, c: Trie): Trie
    requires t.Node? && c.Node?
  {
    Node(t.ref, c.data, c.prefix, c.plen, c.zero, c.one)
  }

  lemma MergedLocal(t: Trie, b: bool)
    requires t.Node? && t.data.Virtual? && Child(t, b).Node? && Child(t, !b).Empty? && Sound(t) && NoNull(t)
    ensures var c := Merged(t, Child(t, b));
      && Sound(c) && NoNull(c) && Entries(c) == Entries(t)
      && forall prefix, plen, s :: Fits(prefix, plen, s, t) ==> Fits(prefix, plen, s, c)
  {
    var c := Child(t, b);
    assert Entries(Merged(t, c)) == Entries(c) by {
      assert Own(Merged(t, c)) == Own(c);
    }
    assert Entries(t) == Entries(c);
  }

  lemma MergeStep(p: Place, t: Trie, b: bool)
    requires Almost(p, t) && t.data.Virtual? && Child(t, b).Node? && Child(t, !b).Empty?
    ensures var t' := Merged(t, Child(t, b));
      Almost(p, t') && Canonical(t') && Entries(Plug(p, t')) == Entries(Plug(p, t))
  {
    var t' := Merged(t, Child(t, b));
    VirtualIsBelow(p, t);
    SoundPlug(p, t);
    MergedLocal(t, b);
    SoundPlug(p, t');
    HeadPlug(p, t);
    HeadPlug(p, t');
    EntriesPlug(p, t);
    EntriesPlug(p, t');
  }

  // A virtual node without children goes, and its parent is looked at next.
  lemma DropStep(p: Place, t: Trie)
    requires Almost(p, t) && t.data.Virtual? && t.zero.Empty? && t.one.Empty?
    ensures p.Below? && Almost(p.up, Joined(p, Empty))
    ensures Entries(Plug(p.up, Joined(p, Empty))) == Entries(Plug(p, t))
  {
    VirtualIsBelow(p, t);
    SoundPlug(p, t);
    SoundPlug(p, Empty);
    HeadPlug(p, t);
    HeadPlug(p, Empty);
    assert Entries(t) == map[] == Entries(Empty);
    EntriesPlug(p, t);
    EntriesPlug(p, Empty);
  }

  // The children of a node part right after the node's own bits.
  lemma ForkIsTight(t: Trie)
    requires Sound(t) && t.Node? && t.zero.Node? && t.one.Node?
    ensures CommonLen(t.zero.prefix, t.one.prefix, if t.zero.plen < t.one.plen then t.zero.plen else t.one.plen) == t.plen
  {
  }
}
