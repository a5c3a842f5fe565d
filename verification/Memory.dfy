/**
 * Where records are put: any address that is not in use.
 */
module Memory {

  ghost function Bound(used: set<nat>): (n: nat)
    ensures forall r | r in used :: r <= n
  {
    if used == {} then 0
    else
      var r :| r in used;
      var n := Bound(used - {r});
      assert forall x | x in used :: x == r || x in used - {r};
      if r <= n then n else r
  }

  // An address other than null, the given one, and those in use.
  method Allocate(used: set<nat>, other: nat) returns (r: nat)
    ensures r != 0 && r != other && r !in used
  {
    ghost var top := Bound(used);
    assert top + other + 1 !in used;
    r :| r != 0 && r != other && r !in used;
  }
}
