/**
 * What several parts of the model share.
 */
module Basics {

  datatype Option<+T> = None | Some(value: T)

  ghost predicate NoDup<T>(s: seq<T>) {
    forall i, j | 0 <= i < j < |s| :: s[i] != s[j]
  }

  // The sequence without its element at k.
  function Without<T>(s: seq<T>, k: nat): seq<T>
    requires k < |s|
  {
    s[..k] + s[k + 1..]
  }

  function Pow2(k: nat): (p: nat)
    ensures p > 0
  {
    if k == 0 then 1 else 2 * Pow2(k - 1)
  }

  function One(b: bool): nat {
    if b then 1 else 0
  }

  // How often x occurs.
  function CountOf<T(==)>(s: seq<T>, x: T): nat {
    multiset(s)[x]
  }

  lemma CountUpdated<T>(s: seq<T>, i: nat, y: T, x: T)
    requires i < |s|
    ensures CountOf(s[i := y], x) == CountOf(s, x) - One(s[i] == x) + One(y == x)
    ensures CountOf(s, s[i]) > 0
  {
  }
}
