/**
 * Whole runs of a hash map against the history of its operations.
 */
module HashMapRuns {
  import opened Basics
  import opened HashMap
  import opened Memory

  datatype Op<K, V> = Store(key: K, value: V) | Fetch(key: K) | Forget(key: K) | Clear

  // The value last stored under an equal key and not forgotten or cleared since.
  ghost function Latest<K, V>(ops: seq<Op<K, V>>, same: (K, K) -> bool, k: K): Option<V> {
    if ops == [] then None
    else
      var op, before := ops[|ops| - 1], Latest(ops[..|ops| - 1], same, k);
      match op
      case Store(j, v) => if same(j, k) then Some(v) else before
      case Fetch(_) => before
      case Forget(j) => if same(j, k) then None else before
      case Clear => None
  }

  lemma LatestNext<K, V>(ops: seq<Op<K, V>>, op: Op<K, V>, same: (K, K) -> bool, k: K)
    ensures var before := Latest(ops, same, k);
      Latest(ops + [op], same, k)
      == if (op.Store? || op.Forget?) && same(op.key, k) then (if op.Store? then Some(op.value) else None)
         else if op.Clear? then None else before
  {
    assert (ops + [op])[..|ops|] == ops;
  }

  // Every key finds its latest value.
  ghost predicate Follows<K(!new), V>(ps: seq<(K, V)>, same: (K, K) -> bool, past: seq<Op<K, V>>) {
    forall k :: Find(ps, same, k) == Latest(past, same, k)
  }

  ghost predicate Serving<K(!new), V>(h: HashMap<K, V>, same: (K, K) -> bool, past: seq<Op<K, V>>)
    reads h
  {
    h.Valid() && h.same == same && Follows(h.Contents(), same, past)
  }

  method Serve<K(!new), V>(h: HashMap<K, V>, same: (K, K) -> bool, ghost past: seq<Op<K, V>>, op: Op<K, V>) returns (answer: Option<V>)
    requires Serving(h, same, past)
    modifies h
    ensures Serving(h, same, past + [op])
    ensures op.Fetch? ==> answer == Latest(past, same, op.key)
  {
    hide Find, Put, Drop, Latest, Pairs, Follows, Distinct, Equivalence, Hashes, Filled;
    ghost var was := h.Contents();
    answer := None;
    match op
    case Store(k, v) =>
      var memory := Allocate(h.store.Keys, 0);
      StoreServes(was, same, past, k, v);
      h.Set(k, v, memory);
    case Fetch(k) =>
      FetchServes(was, same, past, k);
      answer := h.Get(k);
      FollowsAt(was, same, past, k);
    case Forget(k) =>
      ForgetServes(was, same, past, k);
      h.Delete(k);
    case Clear =>
      ClearServes(same, past);
      h.Flush();
  }

  lemma FollowsAt<K(!new), V>(ps: seq<(K, V)>, same: (K, K) -> bool, past: seq<Op<K, V>>, k: K)
    requires Follows(ps, same, past)
    ensures Find(ps, same, k) == Latest(past, same, k)
  {
  }

  lemma StoreServes<K(!new), V>(ps: seq<(K, V)>, same: (K, K) -> bool, past: seq<Op<K, V>>, k: K, v: V)
    requires Equivalence(same) && Distinct(ps, same) && Follows(ps, same, past)
    ensures Follows(Put(ps, same, k, v), same, past + [Store(k, v)])
  {
    forall j
      ensures Find(Put(ps, same, k, v), same, j) == Latest(past + [Store(k, v)], same, j)
    {
      FindAfterPut(ps, same, k, v, j);
      LatestNext(past, Store(k, v), same, j);
    }
  }

  lemma FetchServes<K(!new), V>(ps: seq<(K, V)>, same: (K, K) -> bool, past: seq<Op<K, V>>, k: K)
    requires Follows(ps, same, past)
    ensures Follows(ps, same, past + [Fetch(k)])
  {
    forall j
      ensures Find(ps, same, j) == Latest(past + [Fetch(k)], same, j)
    {
      LatestNext(past, Fetch(k), same, j);
    }
  }

  lemma ForgetServes<K(!new), V>(ps: seq<(K, V)>, same: (K, K) -> bool, past: seq<Op<K, V>>, k: K)
    requires Equivalence(same) && Distinct(ps, same) && Follows(ps, same, past)
    ensures Follows(Drop(ps, same, k), same, past + [Forget(k)])
  {
    forall j
      ensures Find(Drop(ps, same, k), same, j) == Latest(past + [Forget(k)], same, j)
    {
      FindAfterDrop(ps, same, k, j);
      LatestNext(past, Forget(k), same, j);
    }
  }

  lemma ClearServes<K(!new), V>(same: (K, K) -> bool, past: seq<Op<K, V>>)
    ensures Follows([], same, past + [Clear])
  {
    forall j
      ensures Find<K, V>([], same, j) == Latest(past + [Clear], same, j)
    {
      LatestNext(past, Clear, same, j);
    }
  }

  // In every run of sets, gets, deletions and flushes on an empty map, each get returns the value
  // last set under an equal key since that key was last deleted.
  method Replay<K(!new), V>(hash: K -> nat, same: (K, K) -> bool, ops: seq<Op<K, V>>) returns (answers: seq<Option<V>>)
    requires Equivalence(same) && Hashes(hash, same)
    ensures |answers| == |ops|
    ensures forall i | 0 <= i < |ops| && ops[i].Fetch? :: answers[i] == Latest(ops[..i], same, ops[i].key)
  {
    hide Latest, Serving, Equivalence, Hashes;
    var h := Start<K, V>(hash, same);
    assert ops[..0] == [];
    answers := [];
    for i := 0 to |ops|
      invariant fresh(h) && Serving(h, same, ops[..i]) && |answers| == i
      invariant forall n | 0 <= n < i && ops[n].Fetch? :: answers[n] == Latest(ops[..n], same, ops[n].key)
    {
      var answer := Serve(h, same, ops[..i], ops[i]);
      assert ops[..i + 1] == ops[..i] + [ops[i]];
      answers := answers + [answer];
    }
  }

  method Start<K(!new), V>(hash: K -> nat, same: (K, K) -> bool) returns (h: HashMap<K, V>)
    requires Equivalence(same) && Hashes(hash, same)
    ensures fresh(h) && Serving(h, same, [])
  {
    h := new HashMap(hash, same);
  }
}
