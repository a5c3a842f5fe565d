/**
 * The growing hash map of hashmap.c: entries in memory, each in a bucket list and in the list of
 * keys, against an association list in the order of first insertion.
 */
module HashMap {
  import opened Basics
  import opened RingMask

  // ------------------------------------------------------------ association lists

  // The position of the first pair whose key compares equal, or the length.
  function IndexOf<K, V>(ps: seq<(K, V)>, same: (K, K) -> bool, k: K): (i: nat)
    ensures i <= |ps| && (i < |ps| ==> same(ps[i].0, k)) && forall j | 0 <= j < i :: !same(ps[j].0, k)
  {
    if ps == [] || same(ps[0].0, k) then 0
    else
      var i := IndexOf(ps[1..], same, k);
      assert forall j | 0 < j < i + 1 :: ps[j] == ps[1..][j - 1];
      i + 1
  }

  function Find<K, V>(ps: seq<(K, V)>, same: (K, K) -> bool, k: K): Option<V> {
    var i := IndexOf(ps, same, k);
    if i < |ps| then Some(ps[i].1) else None
  }

  // An existing key keeps its place, a new one goes to the end.
  function Put<K, V>(ps: seq<(K, V)>, same: (K, K) -> bool, k: K, v: V): seq<(K, V)> {
    var i := IndexOf(ps, same, k);
    if i < |ps| then ps[i := (ps[i].0, v)] else ps + [(k, v)]
  }

  function Drop<K, V>(ps: seq<(K, V)>, same: (K, K) -> bool, k: K): seq<(K, V)> {
    var i := IndexOf(ps, same, k);
    if i < |ps| then ps[..i] + ps[i + 1..] else ps
  }

  ghost predicate Equivalence<K(!new)>(same: (K, K) -> bool) {
    && (forall a :: same(a, a))
    && (forall a, b :: same(a, b) ==> same(b, a))
    && (forall a, b, c :: same(a, b) && same(b, c) ==> same(a, c))
  }

  ghost predicate Distinct<K, V>(ps: seq<(K, V)>, same: (K, K) -> bool) {
    forall i, j | 0 <= i < j < |ps| :: !same(ps[i].0, ps[j].0)
  }

  lemma IndexIs<K, V>(ps: seq<(K, V)>, same: (K, K) -> bool, k: K, i: nat)
    requires i <= |ps| && (i < |ps| ==> same(ps[i].0, k)) && forall j | 0 <= j < i :: !same(ps[j].0, k)
    ensures IndexOf(ps, same, k) == i
  {
  }

  // Setting a key is seen by that key alone, and keeps the keys distinct and in their places.
  lemma FindAfterPut<K(!new), V>(ps: seq<(K, V)>, same: (K, K) -> bool, k: K, v: V, j: K)
    requires Equivalence(same) && Distinct(ps, same)
    ensures Distinct(Put(ps, same, k, v), same)
    ensures Find(Put(ps, same, k, v), same, j) == if same(k, j) then Some(v) else Find(ps, same, j)
    ensures |Put(ps, same, k, v)| == |ps| + if Find(ps, same, k).Some? then 0 else 1
    ensures forall i | 0 <= i < |ps| :: Put(ps, same, k, v)[i].0 == ps[i].0
  {
    var ps' := Put(ps, same, k, v);
    var i, n := IndexOf(ps, same, k), IndexOf(ps, same, j);
    if same(k, j) {
      IndexIs(ps', same, j, i);
    } else if n < |ps| {
      IndexIs(ps', same, j, n);
    } else {
      IndexIs(ps', same, j, |ps'|);
    }
  }

  // Deleting a key is seen by that key alone.
  lemma FindAfterDrop<K(!new), V>(ps: seq<(K, V)>, same: (K, K) -> bool, k: K, j: K)
    requires Equivalence(same) && Distinct(ps, same)
    ensures Distinct(Drop(ps, same, k), same)
    ensures Find(Drop(ps, same, k), same, j) == if same(k, j) then None else Find(ps, same, j)
  {
    var ps' := Drop(ps, same, k);
    var i, n := IndexOf(ps, same, k), IndexOf(ps, same, j);
    if same(k, j) || n == |ps| {
      IndexIs(ps', same, j, |ps'|);
    } else {
      IndexIs(ps', same, j, if n < i then n else n - 1);
    }
  }

  // ------------------------------------------------------------ entries and buckets

  type Ref = nat

  datatype Entry<K, V> = Entry(key: K, elem: V)

  ghost predicate Hashes<K(!new)>(hash: K -> nat, same: (K, K) -> bool) {
    forall a, b :: same(a, b) ==> hash(a) == hash(b)
  }

  // The bucket of a key in a table of the size.
  function BucketIndex<K>(hash: K -> nat, size: nat, k: K): (b: nat)
    requires size > 0
    ensures b < size
  {
    AndBound(hash(k), size - 1);
    And(hash(k), size - 1)
  }

  ghost predicate Stored<K, V>(keys: seq<Ref>, store: map<Ref, Entry<K, V>>) {
    forall r | r in keys :: r in store
  }

  ghost function Pairs<K, V>(keys: seq<Ref>, store: map<Ref, Entry<K, V>>): (ps: seq<(K, V)>)
    requires Stored(keys, store)
    ensures |ps| == |keys|
    ensures forall i | 0 <= i < |keys| :: ps[i] == (store[keys[i]].key, store[keys[i]].elem)
  {
    if keys == [] then []
    else
      var r := keys[|keys| - 1];
      assert r in keys && Stored(keys[..|keys| - 1], store);
      Pairs(keys[..|keys| - 1], store) + [(store[r].key, store[r].elem)]
  }

  // The entries of bucket b, in the order of the keys.
  ghost function Bucket<K, V>(keys: seq<Ref>, store: map<Ref, Entry<K, V>>, hash: K -> nat, size: nat, b: nat): seq<Ref>
    requires Stored(keys, store) && size > 0
  {
    if keys == [] then []
    else
      var r := keys[|keys| - 1];
      assert r in keys && Stored(keys[..|keys| - 1], store);
      var rest := Bucket(keys[..|keys| - 1], store, hash, size, b);
      if BucketIndex(hash, size, store[r].key) == b then rest + [r] else rest
  }

  lemma {:induction false} InBucket<K, V>(keys: seq<Ref>, store: map<Ref, Entry<K, V>>, hash: K -> nat, size: nat, b: nat, r: Ref)
    requires Stored(keys, store) && size > 0
    ensures r in Bucket(keys, store, hash, size, b) <==> r in keys && BucketIndex(hash, size, store[r].key) == b
  {
    if keys != [] {
      var init, last := keys[..|keys| - 1], keys[|keys| - 1];
      assert keys == init + [last];
      InBucket(init, store, hash, size, b, r);
    }
  }

  lemma BucketSnoc<K, V>(keys: seq<Ref>, store: map<Ref, Entry<K, V>>, hash: K -> nat, size: nat, b: nat, r: Ref)
    requires Stored(keys, store) && size > 0 && r in store
    ensures Stored(keys + [r], store)
    ensures Bucket(keys + [r], store, hash, size, b)
         == Bucket(keys, store, hash, size, b) + if BucketIndex(hash, size, store[r].key) == b then [r] else []
  {
    assert (keys + [r])[..|keys|] == keys;
  }

  // Buckets depend on the keys of the entries alone.
  lemma {:induction false} BucketSame<K, V>(keys: seq<Ref>, m: map<Ref, Entry<K, V>>, m': map<Ref, Entry<K, V>>, hash: K -> nat, size: nat, b: nat)
    requires Stored(keys, m) && Stored(keys, m') && size > 0
    requires forall r | r in keys :: m'[r].key == m[r].key
    ensures Bucket(keys, m', hash, size, b) == Bucket(keys, m, hash, size, b)
  {
    if keys != [] {
      assert keys[|keys| - 1] in keys;
      BucketSame(keys[..|keys| - 1], m, m', hash, size, b);
    }
  }

  // The list without a member.
  function Minus(s: seq<Ref>, r: Ref): seq<Ref> {
    if s == [] then []
    else if s[|s| - 1] == r then s[..|s| - 1]
    else Minus(s[..|s| - 1], r) + [s[|s| - 1]]
  }

  lemma {:induction false} MinusAt(s: seq<Ref>, i: nat)
    requires NoDup(s) && i < |s|
    ensures Minus(s, s[i]) == s[..i] + s[i + 1..]
  {
    var n := |s| - 1;
    if i < n {
      MinusAt(s[..n], i);
      assert s[..n][..i] == s[..i] && s[..n][i + 1..] + [s[n]] == s[i + 1..];
    } else {
      assert s[..i] + s[i + 1..] == s[..n];
    }
  }

  lemma {:induction false} MinusAbsent(s: seq<Ref>, r: Ref)
    requires r !in s
    ensures Minus(s, r) == s
  {
    if s != [] {
      MinusAbsent(s[..|s| - 1], r);
    }
  }

  lemma {:induction false} BucketMinus<K, V>(keys: seq<Ref>, store: map<Ref, Entry<K, V>>, hash: K -> nat, size: nat, b: nat, r: Ref)
    requires Stored(keys, store) && size > 0 && NoDup(keys) && r in store
    ensures Stored(Minus(keys, r), store)
    ensures Bucket(Minus(keys, r), store, hash, size, b) == Minus(Bucket(keys, store, hash, size, b), r)
  {
    if keys != [] {
      var n := |keys| - 1;
      var init, last := keys[..n], keys[n];
      assert last in keys && last !in init;
      if last == r {
        InBucket(init, store, hash, size, b, r);
        MinusAbsent(Bucket(init, store, hash, size, b), r);
      } else {
        BucketMinus(init, store, hash, size, b, r);
        BucketSnoc(Minus(init, r), store, hash, size, b, last);
      }
    }
  }

  // ------------------------------------------------------------ the table

  const DEFAULT_SIZE: nat := 16

  ghost function Members(s: seq<Ref>): set<Ref> {
    set r | r in s
  }

  ghost predicate KeysOf<K, V>(keys: seq<Ref>, store: map<Ref, Entry<K, V>>) {
    NoDup(keys) && store.Keys == Members(keys) && Stored(keys, store)
  }

  // The buckets of a table of the size.
  ghost predicate Filled<K, V>(buckets: seq<seq<Ref>>, keys: seq<Ref>, store: map<Ref, Entry<K, V>>, hash: K -> nat, size: nat)
    requires Stored(keys, store)
  {
    size > 0 && |buckets| == size && forall b | 0 <= b < size :: buckets[b] == Bucket(keys, store, hash, size, b)
  }

  class HashMap<K(!new), V> {
    const hash: K -> nat
    const same: (K, K) -> bool
    var size: nat
    var elems: nat
    var store: map<Ref, Entry<K, V>>
    var buckets: seq<seq<Ref>>
    var keys: seq<Ref>

    // The keys are the entries in memory, each once, and each entry is in the bucket its hash names.
    ghost predicate Linked()
      reads this
    {
      && KeysOf(keys, store) && elems == |keys|
      && Filled(buckets, keys, store, hash, size)
      && Equivalence(same) && Hashes(hash, same) && size > 0 && size % 4 == 0
    }

    ghost predicate Valid()
      reads this
    {
      Linked() && Distinct(Pairs(keys, store), same) && elems <= size / 4 * 3 + 1
    }

    // The pairs in the order in which their keys were first set.
    ghost function Contents(): seq<(K, V)>
      reads this
      requires Stored(keys, store)
    {
      Pairs(keys, store)
    }

    constructor (hash: K -> nat, same: (K, K) -> bool)
      requires Equivalence(same) && Hashes(hash, same)
      ensures Valid() && Contents() == [] && this.hash == hash && this.same == same
    {
      this.hash, this.same := hash, same;
      size, elems := DEFAULT_SIZE, 0;
      store, keys := map[], [];
      buckets := seq(DEFAULT_SIZE, _ => []);
    }

    predicate MustGrow()
      reads this
    {
      elems > size / 4 * 3
    }

    // The entry whose key compares equal, if there is one.
    method FindEntry(k: K) returns (found: Option<Ref>, ghost i: nat)
      requires Valid()
      ensures i == IndexOf(Contents(), same, k)
      ensures if i < |keys| then found == Some(keys[i]) else found == None
    {
      hide Distinct, Equivalence, Hashes;
      var idx := BucketIndex(hash, size, k);
      var bucket := buckets[idx];
      for j := 0 to |bucket|
        invariant forall l | 0 <= l < j :: bucket[l] in store && !same(store[bucket[l]].key, k)
      {
        InBucket(keys, store, hash, size, idx, bucket[j]);
        assert bucket[j] in keys;
        if same(store[bucket[j]].key, k) {
          i :| 0 <= i < |keys| && keys[i] == bucket[j];
          FoundAt(Contents(), same, k, i);
          return Some(bucket[j]), i;
        }
      }
      i := |keys|;
      found := None;
      forall l | 0 <= l < |keys|
        ensures !same(Contents()[l].0, k)
      {
        InBucket(keys, store, hash, size, idx, keys[l]);
        SameBucket(hash, same, size, store[keys[l]].key, k);
      }
      IndexIs(Contents(), same, k, |keys|);
    }

    method Get(k: K) returns (r: Option<V>)
      requires Valid()
      ensures r == Find(Contents(), same, k)
    {
      var found;
      ghost var i;
      found, i := FindEntry(k);
      r := if found.Some? then Some(store[found.value].elem) else None;
    }

    // A table of the new size, filled in the order of the keys.
    method Grow(newSize: nat)
      requires Valid() && newSize > 0 && newSize % 4 == 0
      modifies this`size, this`buckets
      ensures size == newSize && Linked()
    {
      hide Distinct, Equivalence, Hashes;
      var table: seq<seq<Ref>> := seq(newSize, _ => []);
      for i := 0 to |keys|
        invariant |table| == newSize && Stored(keys, store) && Stored(keys[..i], store)
        invariant forall b | 0 <= b < newSize :: table[b] == Bucket(keys[..i], store, hash, newSize, b)
      {
        var r := keys[i];
        var idx := BucketIndex(hash, newSize, store[r].key);
        table := table[idx := table[idx] + [r]];
        assert keys[..i + 1] == keys[..i] + [r];
        forall b | 0 <= b < newSize
          ensures table[b] == Bucket(keys[..i + 1], store, hash, newSize, b)
        {
          BucketSnoc(keys[..i], store, hash, newSize, b, r);
        }
      }
      assert keys[..|keys|] == keys;
      size, buckets := newSize, table;
    }

    // Sets the value of a key, in an entry at the address memory gives out if it is new.
    method Set(k: K, v: V, memory: Ref)
      requires Valid() && memory !in store
      modifies this
      ensures Valid() && Contents() == Put(old(Contents()), same, k, v)
      ensures store.Keys == old(store.Keys) + if IndexOf(old(Contents()), same, k) < |old(keys)| then {} else {memory}
    {
      hide Distinct, Equivalence, Hashes, Filled, NoDup, Members;
      var found;
      ghost var i;
      found, i := FindEntry(k);
      PutDistinct(Contents(), same, k, v);
      if found.Some? {
        Overwrite(found.value, v, i);
        return;
      }
      if MustGrow() {
        GrownRoom(size, elems);
        Grow(size * 2);
      }
      Append(k, v, memory);
    }

    // The entry's value is replaced where it is.
    method Overwrite(r: Ref, v: V, ghost i: nat)
      requires Valid() && i < |keys| && keys[i] == r && Distinct(Contents()[i := (Contents()[i].0, v)], same)
      modifies this`store
      ensures Valid() && Contents() == old(Contents()[i := (Contents()[i].0, v)]) && store.Keys == old(store.Keys)
    {
      hide Distinct, Filled, Equivalence, Hashes;
      ghost var was, m := Contents(), store;
      FilledSame(buckets, keys, store, store[r := store[r].(elem := v)], hash, size);
      store := store[r := store[r].(elem := v)];
      assert Contents() == was[i := (was[i].0, v)];
    }

    // A new entry at the end of its bucket and of the keys.
    method Append(k: K, v: V, memory: Ref)
      requires Linked()
      requires memory !in store && elems <= size / 4 * 3 && Distinct(Contents() + [(k, v)], same)
      modifies this
      ensures Valid() && Contents() == old(Contents()) + [(k, v)] && store.Keys == old(store.Keys) + {memory}
    {
      ghost var was := Contents();
      FilledMore(buckets, keys, store, hash, size, memory, k, v);
      KeysMore(keys, memory);
      hide Distinct, Filled, NoDup, Members, Equivalence, Hashes;
      var idx := BucketIndex(hash, size, k);
      store := store[memory := Entry(k, v)];
      buckets := buckets[idx := buckets[idx] + [memory]];
      keys := keys + [memory];
      elems := elems + 1;
      assert Contents() == was + [(k, v)];
    }

    // Takes the key out, if it is there.
    method Delete(k: K)
      requires Valid()
      modifies this
      ensures Valid() && Contents() == Drop(old(Contents()), same, k)
    {
      hide Distinct, Equivalence, Hashes, Filled;
      var found;
      ghost var i;
      found, i := FindEntry(k);
      if found.Some? {
        DropDistinct(Contents(), same, i);
        Unlink(found.value, i);
      }
    }

    // The entry leaves its bucket and the keys, and is freed.
    method Unlink(r: Ref, ghost i: nat)
      requires Valid() && i < |keys| && keys[i] == r && Distinct(Contents()[..i] + Contents()[i + 1..], same)
      modifies this
      ensures Valid() && Contents() == old(Contents()[..i] + Contents()[i + 1..]) && |keys| == |old(keys)| - 1 && size == old(size)
    {
      hide Distinct, NoDup, Members, Minus, Pairs, Equivalence, Hashes, Filled, Bucket;
      assert |buckets| == size by { FilledLength(buckets, keys, store, hash, size); }
      FilledLess(buckets, keys, store, hash, size, r);
      KeysWithout(keys, i);
      MinusAt(keys, i);
      PairsWithout(keys, store, i);
      var idx := BucketIndex(hash, size, store[r].key);
      buckets := buckets[idx := Minus(buckets[idx], r)];
      keys := Minus(keys, r);
      elems := elems - 1;
      store := store - {r};
    }

    // Empties the table.
    method Flush()
      requires Valid()
      modifies this
      ensures Valid() && Contents() == [] && store == map[] && size == old(size) && elems == 0
    {
      hide Distinct, Equivalence, Hashes, Filled;
      while keys != []
        invariant Valid() && size == old(size)
        decreases |keys|
      {
        DropDistinct(Contents(), same, 0);
        Unlink(keys[0], 0);
      }
    }
  }

  // Twice the size has room for another entry.
  lemma GrownRoom(size: nat, elems: nat)
    requires size > 0 && size % 4 == 0 && elems <= size / 4 * 3 + 1
    ensures size * 2 > 0 && size * 2 % 4 == 0 && elems <= size * 2 / 4 * 3
  {
    assert size * 2 / 4 == size / 4 + size / 4;
  }

  lemma PutDistinct<K(!new), V>(ps: seq<(K, V)>, same: (K, K) -> bool, k: K, v: V)
    requires Equivalence(same) && Distinct(ps, same)
    ensures Distinct(Put(ps, same, k, v), same)
  {
    FindAfterPut(ps, same, k, v, k);
  }

  lemma DropDistinct<K, V>(ps: seq<(K, V)>, same: (K, K) -> bool, i: nat)
    requires Distinct(ps, same) && i < |ps|
    ensures Distinct(ps[..i] + ps[i + 1..], same)
  {
  }

  lemma KeysWithout(keys: seq<Ref>, i: nat)
    requires NoDup(keys) && i < |keys|
    ensures NoDup(keys[..i] + keys[i + 1..])
    ensures Members(keys[..i] + keys[i + 1..]) == Members(keys) - {keys[i]}
  {
    var ks := keys[..i] + keys[i + 1..];
    forall r | r in keys && r != keys[i]
      ensures r in ks
    {
      var j :| 0 <= j < |keys| && keys[j] == r;
      assert ks[if j < i then j else j - 1] == r;
    }
  }

  lemma PairsWithout<K, V>(keys: seq<Ref>, store: map<Ref, Entry<K, V>>, i: nat)
    requires Stored(keys, store) && NoDup(keys) && i < |keys|
    ensures Stored(keys[..i] + keys[i + 1..], store - {keys[i]})
    ensures Pairs(keys[..i] + keys[i + 1..], store - {keys[i]}) == Pairs(keys, store)[..i] + Pairs(keys, store)[i + 1..]
  {
    hide Pairs;
    var ks := keys[..i] + keys[i + 1..];
    assert forall j | 0 <= j < |ks| :: ks[j] == keys[if j < i then j else j + 1];
  }

  lemma KeysMore(keys: seq<Ref>, r: Ref)
    requires NoDup(keys) && r !in Members(keys)
    ensures NoDup(keys + [r]) && Members(keys + [r]) == Members(keys) + {r}
  {
    assert r !in keys;
  }

  lemma FilledSame<K, V>(buckets: seq<seq<Ref>>, keys: seq<Ref>, m: map<Ref, Entry<K, V>>, m': map<Ref, Entry<K, V>>, hash: K -> nat, size: nat)
    requires Stored(keys, m) && Stored(keys, m') && Filled(buckets, keys, m, hash, size)
    requires forall r | r in keys :: m'[r].key == m[r].key
    ensures Filled(buckets, keys, m', hash, size)
  {
    forall b | 0 <= b < size
      ensures buckets[b] == Bucket(keys, m', hash, size, b)
    {
      BucketSame(keys, m, m', hash, size, b);
    }
  }

  // A new entry at the end of its bucket and of the keys.
  lemma FilledMore<K, V>(buckets: seq<seq<Ref>>, keys: seq<Ref>, m: map<Ref, Entry<K, V>>, hash: K -> nat, size: nat, r: Ref, k: K, v: V)
    requires Stored(keys, m) && Filled(buckets, keys, m, hash, size) && r !in m
    ensures Stored(keys + [r], m[r := Entry(k, v)])
    ensures var idx := BucketIndex(hash, size, k);
      Filled(buckets[idx := buckets[idx] + [r]], keys + [r], m[r := Entry(k, v)], hash, size)
  {
    var m' := m[r := Entry(k, v)];
    forall b | 0 <= b < size
      ensures Bucket(keys + [r], m', hash, size, b) == buckets[b] + if BucketIndex(hash, size, k) == b then [r] else []
    {
      BucketSame(keys, m, m', hash, size, b);
      BucketSnoc(keys, m', hash, size, b, r);
    }
  }

  // The entry is gone: its bucket loses it, the others are as they were.
  lemma FilledLess<K, V>(buckets: seq<seq<Ref>>, keys: seq<Ref>, m: map<Ref, Entry<K, V>>, hash: K -> nat, size: nat, r: Ref)
    requires Stored(keys, m) && Filled(buckets, keys, m, hash, size) && NoDup(keys) && r in keys
    ensures Stored(Minus(keys, r), m - {r})
    ensures var idx := BucketIndex(hash, size, m[r].key);
      Filled(buckets[idx := Minus(buckets[idx], r)], Minus(keys, r), m - {r}, hash, size)
  {
    hide Bucket, Minus;
    MinusKeys(keys, r);
    forall b | 0 <= b < size
      ensures Bucket(Minus(keys, r), m - {r}, hash, size, b)
           == if BucketIndex(hash, size, m[r].key) == b then Minus(buckets[b], r) else buckets[b]
    {
      BucketLess(keys, m, hash, size, b, r);
    }
  }

  lemma MinusKeys(keys: seq<Ref>, r: Ref)
    requires NoDup(keys) && r in keys
    ensures forall q | q in Minus(keys, r) :: q in keys && q != r
  {
    var i :| 0 <= i < |keys| && keys[i] == r;
    MinusAt(keys, i);
  }

  lemma BucketLess<K, V>(keys: seq<Ref>, m: map<Ref, Entry<K, V>>, hash: K -> nat, size: nat, b: nat, r: Ref)
    requires Stored(keys, m) && size > 0 && NoDup(keys) && r in keys
    ensures Stored(Minus(keys, r), m - {r})
    ensures var was := Bucket(keys, m, hash, size, b);
      Bucket(Minus(keys, r), m - {r}, hash, size, b) == if BucketIndex(hash, size, m[r].key) == b then Minus(was, r) else was
  {
    hide Bucket, Minus, NoDup;
    MinusKeys(keys, r);
    BucketMinus(keys, m, hash, size, b, r);
    BucketSame(Minus(keys, r), m, m - {r}, hash, size, b);
    InBucket(keys, m, hash, size, b, r);
    if b != BucketIndex(hash, size, m[r].key) {
      MinusAbsent(Bucket(keys, m, hash, size, b), r);
    }
  }

  lemma FilledLength<K, V>(buckets: seq<seq<Ref>>, keys: seq<Ref>, store: map<Ref, Entry<K, V>>, hash: K -> nat, size: nat)
    requires Stored(keys, store) && Filled(buckets, keys, store, hash, size)
    ensures |buckets| == size
  {
  }

  lemma SameBucket<K(!new)>(hash: K -> nat, same: (K, K) -> bool, size: nat, a: K, b: K)
    requires Hashes(hash, same) && size > 0
    ensures same(a, b) ==> BucketIndex(hash, size, a) == BucketIndex(hash, size, b)
  {
  }

  // With distinct keys any pair that compares equal is the first.
  lemma FoundAt<K(!new), V>(ps: seq<(K, V)>, same: (K, K) -> bool, k: K, i: nat)
    requires Equivalence(same) && Distinct(ps, same) && i < |ps| && same(ps[i].0, k)
    ensures IndexOf(ps, same, k) == i
  {
    assert same(k, ps[i].0);
    forall j | 0 <= j < i
      ensures !same(ps[j].0, k)
    {
      assert !same(ps[j].0, ps[i].0);
    }
    IndexIs(ps, same, k, i);
  }
}
