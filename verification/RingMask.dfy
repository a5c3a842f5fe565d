/**
 * The slot arithmetic of the ring buffer: counters are masked with capacity - 1.
 */
module RingMask {
  import opened Basics

  ghost predicate IsPow2(c: nat) {
    exists k: nat :: c == Pow2(k)
  }

  // Bitwise conjunction.
  function And(a: nat, b: nat): nat {
    if a == 0 || b == 0 then 0 else (a % 2) * (b % 2) + 2 * And(a / 2, b / 2)
  }

  lemma {:induction false} AndBound(a: nat, b: nat)
    ensures And(a, b) <= b
    decreases a
  {
    if a != 0 && b != 0 {
      AndBound(a / 2, b / 2);
    }
  }

  // Counters are 64 bits wide.
  const WORD: nat := 0x1_0000_0000_0000_0000

  // The slot of the n-th push or pop.
  function Slot(capacity: nat, n: nat): (k: nat)
    requires capacity > 0
    ensures k < capacity
  {
    AndBound(n % WORD, capacity - 1);
    And(n % WORD, capacity - 1)
  }

  // ------------------------------------------------------------ powers of two

  lemma Times(d: int, m: int)
    requires m > 0
    ensures d >= 1 ==> d * m >= m
    ensures d <= -1 ==> d * m <= -m
  {
  }

  lemma DivUnique(v: nat, m: nat, q: nat, r: nat)
    requires v == q * m + r && r < m
    ensures v % m == r
  {
    var d := q - v / m;
    assert d * m == v % m - r;
    Times(d, m);
  }

  lemma ModSplit(v: nat, p: nat)
    requires p > 0
    ensures v % (2 * p) == v % 2 + 2 * ((v / 2) % p)
  {
    var q, r := (v / 2) / p, (v / 2) % p;
    assert v / 2 == q * p + r;
    assert v == q * (2 * p) + (2 * r + v % 2);
    DivUnique(v, 2 * p, q, 2 * r + v % 2);
  }

  // Masking with 2^k - 1 is the remainder by 2^k.
  lemma {:induction false} AndOnes(v: nat, k: nat)
    ensures And(v, Pow2(k) - 1) == v % Pow2(k)
    decreases k
  {
    if k > 0 {
      var p := Pow2(k - 1);
      AndOnes(v / 2, k - 1);
      ModSplit(v, p);
      assert (2 * p - 1) % 2 == 1 && (2 * p - 1) / 2 == p - 1;
      if p == 1 {
        assert And(v / 2, 0) == 0;
      }
    }
  }

  lemma {:induction false} Pow2Divides(k: nat, n: nat)
    requires k <= n
    ensures Pow2(n) == Pow2(k) * Pow2(n - k)
    decreases n
  {
    if k < n {
      Pow2Divides(k, n - 1);
      assert Pow2(n) == 2 * (Pow2(k) * Pow2(n - 1 - k));
      assert Pow2(n - k) == 2 * Pow2(n - 1 - k);
    }
  }

  lemma WordIsPow2()
    ensures WORD == Pow2(64)
  {
    assert Pow2(8) == 0x100;
    Pow2Divides(8, 16);
    Pow2Divides(16, 32);
    Pow2Divides(32, 64);
  }

  lemma ModMod(n: nat, a: nat, b: nat)
    requires a > 0 && b > 0
    ensures (n % (a * b)) % a == n % a
  {
    var m := a * b;
    var q, r := n / m, n % m;
    var q', r' := r / a, r % a;
    assert n == q * m + r && r == q' * a + r';
    Regroup(q, a, b, q');
    DivUnique(n, a, q * b + q', r');
  }

  lemma Regroup(q: nat, a: nat, b: nat, q': nat)
    ensures q * (a * b) + q' * a == (q * b + q') * a
  {
    assert q * (a * b) == (q * b) * a;
  }

  // With a capacity that is a power of two the slot is the count modulo the capacity, also after
  // the counter has wrapped around.
  lemma SlotIsModulo(k: nat, n: nat)
    requires k <= 64
    ensures Slot(Pow2(k), n) == n % Pow2(k)
  {
    AndOnes(n % WORD, k);
    WordIsPow2();
    Pow2Divides(k, 64);
    ModMod(n, Pow2(k), Pow2(64 - k));
  }

  // ------------------------------------------------------------ other capacities

  // The lowest bit missing from a mask that is not all ones.
  lemma {:induction false} Hole(m: nat) returns (j: nat)
    requires !IsPow2(m + 1)
    ensures 3 * Pow2(j) <= m + 1 && And(Pow2(j), m) == 0 && (m % 2 == 1 ==> j > 0)
    ensures forall k | 0 <= k < Pow2(j) :: And(k, m) == k
  {
    assert Pow2(0) == 1 && Pow2(1) == 2;
    if m % 2 == 0 {
      j := 0;
      assert m + 1 != Pow2(0);
    } else {
      assert !IsPow2(m / 2 + 1) by {
        if k: nat :| m / 2 + 1 == Pow2(k) {
          assert m + 1 == Pow2(k + 1);
        }
      }
      var i := Hole(m / 2);
      j := i + 1;
      assert Pow2(j) % 2 == 0 && Pow2(j) / 2 == Pow2(i);
      forall k | 0 <= k < Pow2(j)
        ensures And(k, m) == k
      {
        assert And(k / 2, m / 2) == k / 2;
      }
    }
  }

  // The last of n successive counts from zero takes the first one's slot, the others their own.
  ghost predicate Wraps(capacity: nat, n: nat) {
    1 < n <= capacity && Slot(capacity, n - 1) == 0 && forall k | 0 <= k < n - 1 :: Slot(capacity, k) == k
  }

  lemma WrapsEarly(capacity: nat) returns (n: nat)
    requires 0 < capacity <= WORD && !IsPow2(capacity)
    ensures Wraps(capacity, n) && (capacity % 2 == 0 ==> 2 * n <= capacity)
  {
    var j := Hole(capacity - 1);
    n := Pow2(j) + 1;
    assert forall k | 0 <= k <= Pow2(j) :: k % WORD == k;
    if capacity % 2 == 0 {
      assert Pow2(j) == 2 * Pow2(j - 1);
    }
  }

  // No two of any capacity-many successive counts share a slot.
  ghost predicate SlotsDiffer(capacity: nat)
    requires capacity > 0
  {
    forall a: nat, b: nat | a < b < a + capacity :: Slot(capacity, a) != Slot(capacity, b)
  }

  lemma ModApart(a: nat, b: nat, c: nat)
    requires a < b < a + c
    ensures a % c != b % c
  {
    var d := b / c - a / c;
    assert b - a == d * c + (b % c - a % c);
    Times(d, c);
  }

  // The mask keeps every window of live elements apart exactly when the capacity is a power of two.
  lemma MaskNeedsPowerOfTwo(capacity: nat)
    requires 0 < capacity <= WORD
    ensures SlotsDiffer(capacity) <==> IsPow2(capacity)
  {
    if IsPow2(capacity) {
      var k: nat :| capacity == Pow2(k);
      WithinWord(k);
      forall a: nat, b: nat | a < b < a + capacity
        ensures Slot(capacity, a) != Slot(capacity, b)
      {
        SlotIsModulo(k, a);
        SlotIsModulo(k, b);
        ModApart(a, b, capacity);
      }
    } else {
      var n := WrapsEarly(capacity);
      assert Slot(capacity, 0) == Slot(capacity, n - 1);
    }
  }

  lemma WithinWord(k: nat)
    requires Pow2(k) <= WORD
    ensures k <= 64
  {
    WordIsPow2();
    if k > 64 {
      Pow2Grows(64, k);
    }
  }

  lemma {:induction false} Pow2Grows(a: nat, b: nat)
    requires a < b
    ensures Pow2(a) < Pow2(b)
    decreases b
  {
    if a < b - 1 {
      Pow2Grows(a, b - 1);
    }
  }

  lemma DoubleIsPow2(n: nat)
    ensures IsPow2(2 * n) <==> IsPow2(n)
  {
    if k: nat :| n == Pow2(k) {
      assert 2 * n == Pow2(k + 1);
    }
    if k: nat :| 2 * n == Pow2(k) {
      assert k > 0 && n == Pow2(k - 1);
    }
  }

  // The capacity of the controller's documented example does not do: the third push takes the
  // slot of the first.
  lemma TenOverwrites()
    ensures !IsPow2(10) && Slot(10, 0) == Slot(10, 2) && !SlotsDiffer(10)
  {
    assert And(2, 9) == 0;
    assert Slot(10, 0) == Slot(10, 2);
    MaskNeedsPowerOfTwo(10);
  }
}
