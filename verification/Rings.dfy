/**
 * The ring buffer of sbuf.c as a value, between its critical sections: a masked array with two
 * 64-bit counters and the number of values to be read.
 */
module Rings {
  import opened Basics
  import opened RingMask

  datatype Ring<T> = Ring(data: seq<T>, read: nat, write: nat, full: nat)

  ghost predicate RingOk<T>(r: Ring<T>) {
    |r.data| > 0 && r.full <= |r.data| && r.write == (r.read + r.full) % WORD
  }

  predicate HasRoom<T>(r: Ring<T>) {
    r.full < |r.data|
  }

  function Pushed<T>(r: Ring<T>, x: T): (r': Ring<T>)
    requires HasRoom(r)
    ensures |r'.data| == |r.data|
  {
    Ring(r.data[Slot(|r.data|, r.write) := x], r.read, (r.write + 1) % WORD, r.full + 1)
  }

  // The value the next pop returns.
  function Front<T>(r: Ring<T>): T
    requires |r.data| > 0
  {
    r.data[Slot(|r.data|, r.read)]
  }

  function Popped<T>(r: Ring<T>): (r': Ring<T>)
    requires r.full > 0
    ensures |r'.data| == |r.data|
  {
    r.(read := (r.read + 1) % WORD, full := r.full - 1)
  }

  // What the ring would hand out without further pushes.
  ghost function Items<T>(r: Ring<T>): (q: seq<T>)
    ensures |q| == if |r.data| > 0 then r.full else 0
  {
    if |r.data| == 0 then [] else seq(r.full, i requires 0 <= i < r.full => r.data[Slot(|r.data|, r.read + i)])
  }

  // ------------------------------------------------------------ counters

  lemma ModAdd(a: nat, b: nat)
    ensures (a % WORD + b) % WORD == (a + b) % WORD
  {
    DivUnique(a + b, WORD, a / WORD + (a % WORD + b) / WORD, (a % WORD + b) % WORD);
  }

  lemma SlotWraps(c: nat, a: nat, b: nat)
    requires c > 0
    ensures Slot(c, a % WORD + b) == Slot(c, a + b)
  {
    ModAdd(a, b);
  }

  // ------------------------------------------------------------ powers of two

  lemma PushedOk<T>(r: Ring<T>, x: T)
    requires RingOk(r) && HasRoom(r)
    ensures RingOk(Pushed(r, x)) && Slot(|r.data|, r.write) == Slot(|r.data|, r.read + r.full)
  {
    SlotWraps(|r.data|, r.read + r.full, 0);
    ModAdd(r.read + r.full, 1);
  }

  lemma SlotsApart(c: nat, a: nat, i: nat, n: nat)
    requires 0 < c <= WORD && IsPow2(c) && i < n < c
    ensures Slot(c, a + i) != Slot(c, a + n)
  {
    hide Slot, IsPow2;
    MaskNeedsPowerOfTwo(c);
  }

  // The ring is a queue.
  lemma PushAppends<T>(r: Ring<T>, x: T)
    requires RingOk(r) && HasRoom(r) && IsPow2(|r.data|) && |r.data| <= WORD
    ensures RingOk(Pushed(r, x)) && Items(Pushed(r, x)) == Items(r) + [x]
  {
    hide Slot, IsPow2, RingOk, Pow2;
    var c, r' := |r.data|, Pushed(r, x);
    PushedOk(r, x);
    forall i | 0 <= i <= r.full
      ensures Items(r')[i] == (Items(r) + [x])[i]
    {
      if i < r.full {
        SlotsApart(c, r.read, i, r.full);
      }
    }
  }

  lemma PopDrops<T>(r: Ring<T>)
    requires RingOk(r) && r.full > 0
    ensures RingOk(Popped(r)) && Front(r) == Items(r)[0] && Items(Popped(r)) == Items(r)[1..]
  {
    hide Slot;
    var c, r' := |r.data|, Popped(r);
    ModAdd(r.read + 1, r.full - 1);
    forall i | 0 <= i < r'.full
      ensures Items(r')[i] == Items(r)[i + 1]
    {
      SlotWraps(c, r.read + 1, i);
    }
  }

  // ------------------------------------------------------------ other capacities

  // The array after the values were stored from count zero on.
  ghost function Stored<T>(data: seq<T>, xs: seq<T>): (d: seq<T>)
    requires |data| > 0
    ensures |d| == |data|
  {
    if xs == [] then data
    else
      var n := |xs| - 1;
      Stored(data, xs[..n])[Slot(|data|, n) := xs[n]]
  }

  lemma StoredNext<T>(data: seq<T>, xs: seq<T>, x: T)
    requires |data| > 0
    ensures Stored(data, xs + [x]) == Stored(data, xs)[Slot(|data|, |xs|) := x]
  {
    assert (xs + [x])[..|xs|] == xs;
  }

  // Values with slots of their own are found there.
  lemma {:induction false} StoredApart<T>(data: seq<T>, xs: seq<T>, k: nat)
    requires k < |xs| <= |data| && forall i | 0 <= i < |xs| :: Slot(|data|, i) == i
    ensures Stored(data, xs)[k] == xs[k]
    decreases |xs|
  {
    var n := |xs| - 1;
    if k < n {
      StoredApart(data, xs[..n], k);
    }
  }

  // The first count reads the last value, and so does the last; those between read their own.
  lemma StoredWraps<T>(data: seq<T>, xs: seq<T>, k: nat)
    requires k < |xs| && Wraps(|data|, |xs|)
    ensures Stored(data, xs)[Slot(|data|, k)] == if k == 0 then xs[|xs| - 1] else xs[k]
  {
    var n := |xs| - 1;
    if 0 < k < n {
      StoredApart(data, xs[..n], k);
    }
  }
}
