/**
 * The bounded ring buffer of sbuf.c under every interleaving of its callers: two semaphores, a
 * lock around the ring, and 64-bit counters that wrap around.
 */
module RingBuffer {
  import opened Basics
  import opened RingMask
  import opened Rings

  // Push goes through WaitEmpty, Store and PostFull, pop through WaitFull, Load and PostEmpty.
  datatype Pc = Idle | WaitEmpty | Store | PostFull | WaitFull | Load | PostEmpty

  datatype State = State(
    capacity: nat,
    data: seq<int>,
    read: nat,
    write: nat,
    empty: nat,
    full: nat,
    pcs: seq<Pc>,
    args: seq<int>,       // what each caller pushes
    pushed: seq<int>,     // all values pushed and popped, in the order of the lock
    popped: seq<int>)

  datatype Step = CallPush(i: nat, x: int) | CallPop(i: nat) | Advance(i: nat) | GiveUp(i: nat)

  predicate Init(s: State) {
    && s.capacity > 0 && |s.data| == s.capacity && s.read == s.write == 0 && s.empty == s.capacity && s.full == 0
    && |s.args| == |s.pcs| && (forall i | 0 <= i < |s.pcs| :: s.pcs[i].Idle?)
    && s.pushed == s.popped == []
  }

  predicate Shape(s: State) {
    s.capacity > 0 && |s.data| == s.capacity && |s.args| == |s.pcs|
  }

  predicate Enabled(s: State, a: Step) {
    && Shape(s) && a.i < |s.pcs|
    && match a
       case CallPush(i, _) => s.pcs[i].Idle?
       case CallPop(i) => s.pcs[i].Idle?
       case Advance(i) => !s.pcs[i].Idle? && (s.pcs[i].WaitEmpty? ==> s.empty > 0) && (s.pcs[i].WaitFull? ==> s.full > 0)
       case GiveUp(i) => (s.pcs[i].WaitEmpty? && s.empty == 0) || (s.pcs[i].WaitFull? && s.full == 0)
  }

  function DoStore(s: State, x: int): State
    requires Shape(s)
  {
    s.(data := s.data[Slot(s.capacity, s.write) := x], write := (s.write + 1) % WORD, pushed := s.pushed + [x])
  }

  function DoLoad(s: State): State
    requires Shape(s)
  {
    s.(read := (s.read + 1) % WORD, popped := s.popped + [s.data[Slot(s.capacity, s.read)]])
  }

  function Apply(s: State, a: Step): State
    requires Enabled(s, a)
  {
    match a
    case CallPush(i, x) => s.(pcs := s.pcs[i := WaitEmpty], args := s.args[i := x])
    case CallPop(i) => s.(pcs := s.pcs[i := WaitFull])
    case GiveUp(i) => s.(pcs := s.pcs[i := Idle])
    case Advance(i) =>
      match s.pcs[i]
      case WaitEmpty => s.(pcs := s.pcs[i := Store], empty := s.empty - 1)
      case Store => DoStore(s, s.args[i]).(pcs := s.pcs[i := PostFull])
      case PostFull => s.(pcs := s.pcs[i := Idle], full := s.full + 1)
      case WaitFull => s.(pcs := s.pcs[i := Load], full := s.full - 1)
      case Load => DoLoad(s).(pcs := s.pcs[i := PostEmpty])
      case PostEmpty => s.(pcs := s.pcs[i := Idle], empty := s.empty + 1)
  }

  ghost predicate IsRun(run: seq<State>, steps: seq<Step>) {
    && |run| == |steps| + 1 && Init(run[0])
    && forall i | 0 <= i < |steps| :: Enabled(run[i], steps[i]) && run[i + 1] == Apply(run[i], steps[i])
  }

  // ------------------------------------------------------------ tokens

  // Every slot is free, claimed, in use or about to be freed; every value is announced, claimed or
  // about to be announced; and the counters follow.
  ghost predicate TokensOk(s: State) {
    && Shape(s)
    && s.empty + CountOf(s.pcs, Store) + CountOf(s.pcs, PostEmpty) + |s.pushed| == s.capacity + |s.popped|
    && s.full + CountOf(s.pcs, Load) + CountOf(s.pcs, PostFull) + |s.popped| == |s.pushed|
    && s.write == |s.pushed| % WORD && s.read == |s.popped| % WORD
  }

  lemma Moves(s: State, s': State, i: nat, pc: Pc)
    requires i < |s.pcs| && s'.pcs == s.pcs[i := pc]
    ensures forall q :: CountOf(s'.pcs, q) == CountOf(s.pcs, q) - One(s.pcs[i] == q) + One(pc == q)
    ensures CountOf(s.pcs, s.pcs[i]) > 0
  {
    forall q
      ensures CountOf(s'.pcs, q) == CountOf(s.pcs, q) - One(s.pcs[i] == q) + One(pc == q) && CountOf(s.pcs, s.pcs[i]) > 0
    {
      CountUpdated(s.pcs, i, pc, q);
    }
  }

  lemma StepKeepsTokens(s: State, a: Step)
    requires TokensOk(s) && Enabled(s, a)
    ensures TokensOk(Apply(s, a))
  {
    hide CountOf, Slot;
    var s' := Apply(s, a);
    Moves(s, s', a.i, s'.pcs[a.i]);
    ModAdd(|s.pushed|, 1);
    ModAdd(|s.popped|, 1);
  }

  // ------------------------------------------------------------ contents

  // The unread values are in their slots, and what was popped is what was pushed first.
  ghost predicate ContentsOk(s: State) {
    && |s.popped| <= |s.pushed| && s.popped == s.pushed[..|s.popped|]
    && Shape(s)
    && forall n | |s.popped| <= n < |s.pushed| :: s.data[n % s.capacity] == s.pushed[n]
  }

  lemma SlotOfCounter(s: State, k: nat, n: nat)
    requires Shape(s) && s.capacity == Pow2(k) && k <= 64
    ensures Slot(s.capacity, n % WORD) == n % s.capacity
  {
    assert n % WORD % WORD == n % WORD;
    SlotIsModulo(k, n);
  }

  // The ring as a value, seen from inside the lock.
  ghost function AsRing(s: State): Ring<int>
    requires |s.popped| <= |s.pushed|
  {
    Ring(s.data, s.read, s.write, |s.pushed| - |s.popped|)
  }

  // The two critical sections are a push and a pop of that ring.
  lemma SectionsAreOperations(s: State, x: int)
    requires Shape(s) && |s.popped| <= |s.pushed|
    ensures |s.pushed| < |s.popped| + s.capacity ==> AsRing(DoStore(s, x)) == Pushed(AsRing(s), x)
    ensures |s.popped| < |s.pushed| ==>
              AsRing(DoLoad(s)) == Popped(AsRing(s)) && DoLoad(s).popped == s.popped + [Front(AsRing(s))]
  {
  }

  // A store hits no slot that is still to be read.
  lemma StoreKeepsContents(s: State, k: nat, x: int)
    requires TokensOk(s) && ContentsOk(s) && s.capacity == Pow2(k) && k <= 64
    requires |s.pushed| < |s.popped| + s.capacity
    ensures ContentsOk(DoStore(s, x))
  {
    hide Slot;
    var n := |s.pushed|;
    SlotOfCounter(s, k, n);
    var s' := DoStore(s, x);
    assert s'.pushed[..|s.popped|] == s.pushed[..|s.popped|];
    forall m | |s.popped| <= m < |s'.pushed|
      ensures s'.data[m % s.capacity] == s'.pushed[m]
    {
      if m < n {
        ModApart(m, n, s.capacity);
      }
    }
  }

  lemma LoadKeepsContents(s: State, k: nat)
    requires TokensOk(s) && ContentsOk(s) && s.capacity == Pow2(k) && k <= 64
    requires |s.popped| < |s.pushed|
    ensures ContentsOk(DoLoad(s))
  {
    hide Slot;
    SlotOfCounter(s, k, |s.popped|);
    assert s.pushed[..|s.popped| + 1] == s.pushed[..|s.popped|] + [s.pushed[|s.popped|]];
  }

  lemma StepKeepsContents(s: State, a: Step, k: nat)
    requires TokensOk(s) && ContentsOk(s) && Enabled(s, a) && s.capacity == Pow2(k) && k <= 64
    ensures ContentsOk(Apply(s, a))
  {
    hide Slot;
    if a.Advance? && (s.pcs[a.i].Store? || s.pcs[a.i].Load?) {
      Moves(s, s.(pcs := s.pcs[a.i := Idle]), a.i, Idle);
      if s.pcs[a.i].Store? {
        StoreKeepsContents(s, k, s.args[a.i]);
      } else {
        LoadKeepsContents(s, k);
      }
    }
  }

  lemma {:induction false} RunKeepsContents(run: seq<State>, steps: seq<Step>, i: nat, k: nat)
    requires IsRun(run, steps) && i < |run| && run[0].capacity == Pow2(k) && k <= 64
    ensures TokensOk(run[i]) && ContentsOk(run[i]) && run[i].capacity == Pow2(k)
  {
    if i == 0 {
      InitTokens(run[0]);
    } else {
      RunKeepsContents(run, steps, i - 1, k);
      StepKeepsTokens(run[i - 1], steps[i - 1]);
      StepKeepsContents(run[i - 1], steps[i - 1], k);
      hide TokensOk, ContentsOk;
    }
  }

  lemma InitTokens(s: State)
    requires Init(s)
    ensures TokensOk(s)
  {
    assert forall q: Pc | q in multiset(s.pcs) :: q in s.pcs;
  }

  // ------------------------------------------------------------ first in, first out

  ghost predicate Ends(run: seq<State>, steps: seq<Step>, s: State) {
    IsRun(run, steps) && run[|steps|] == s
  }

  ghost predicate Reached(s: State) {
    exists run, steps :: Ends(run, steps, s)
  }

  // In every run of a buffer of this capacity the popped values are the first of those pushed.
  ghost predicate FirstInFirstOut(capacity: nat) {
    forall s | Reached(s) && s.capacity == capacity :: s.popped <= s.pushed
  }

  lemma GoOn(s: State, a: Step, s': State)
    requires Reached(s) && Enabled(s, a) && s' == Apply(s, a)
    ensures Reached(s')
  {
    hide Enabled, Apply, Init;
    var run, steps :| Ends(run, steps, s);
    var run', steps' := run + [s'], steps + [a];
    forall i | 0 <= i < |steps'|
      ensures Enabled(run'[i], steps'[i]) && run'[i + 1] == Apply(run'[i], steps'[i])
    {
      assert i < |steps| ==> run'[i] == run[i] && run'[i + 1] == run[i + 1] && steps'[i] == steps[i];
    }
    assert run'[0] == run[0];
    assert Ends(run', steps', s');
  }

  ghost function Counting(n: nat): seq<int> {
    seq(n, i => i)
  }

  // The ring after the values 0 to n - 1 were pushed into it.
  ghost function DataAfter(c: nat, n: nat): (d: seq<int>)
    requires c > 0
    ensures |d| == c
  {
    Stored(seq(c, _ => 0), Counting(n))
  }

  // One caller has pushed 0 to n - 1.
  ghost function Filled(c: nat, n: nat, arg: int): State
    requires c > 0 && n <= c
  {
    State(c, DataAfter(c, n), 0, n % WORD, c - n, n, [Idle], [arg], Counting(n), [])
  }

  lemma PushOne(c: nat, n: nat, arg: int)
    requires c > 0 && n < c && Reached(Filled(c, n, arg))
    ensures Reached(Filled(c, n + 1, n))
  {
    hide Reached, And, Stored;
    var s := Filled(c, n, arg);
    var s1 := Apply(s, CallPush(0, n));
    GoOn(s, CallPush(0, n), s1);
    var s2 := Apply(s1, Advance(0));
    GoOn(s1, Advance(0), s2);
    var s3 := Apply(s2, Advance(0));
    GoOn(s2, Advance(0), s3);
    ModAdd(n, 1);
    SlotWraps(c, n, 0);
    assert Counting(n + 1) == Counting(n) + [n];
    StoredNext(seq(c, _ => 0), Counting(n), n);
    assert s3.data == DataAfter(c, n + 1) && s3.pushed == Counting(n + 1);
    var s4 := Apply(s3, Advance(0));
    GoOn(s3, Advance(0), s4);
    assert s4 == Filled(c, n + 1, n);
  }

  lemma {:induction false} FillUp(c: nat, n: nat)
    requires c > 0 && n <= c
    ensures Reached(Filled(c, n, if n == 0 then 0 else n - 1))
    decreases n
  {
    if n == 0 {
      var s := Filled(c, 0, 0);
      assert Init(s);
      assert Ends([s], [], s);
    } else {
      FillUp(c, n - 1);
      PushOne(c, n - 1, if n == 1 then 0 else n - 2);
    }
  }

  // Then the caller popped k times.
  ghost function Drained(c: nat, n: nat, k: nat): State
    requires 0 < c && 0 < n <= c && k <= n
  {
    State(c, DataAfter(c, n), k % WORD, n % WORD, c - n + k, n - k, [Idle], [n - 1], Counting(n),
          seq(k, i requires 0 <= i < k => DataAfter(c, n)[Slot(c, i)]))
  }

  lemma PopOne(c: nat, n: nat, k: nat)
    requires 0 < c && 0 < n <= c && k < n && Reached(Drained(c, n, k))
    ensures Reached(Drained(c, n, k + 1))
  {
    hide Reached, And, DataAfter;
    var s := Drained(c, n, k);
    var s1 := Apply(s, CallPop(0));
    GoOn(s, CallPop(0), s1);
    var s2 := Apply(s1, Advance(0));
    GoOn(s1, Advance(0), s2);
    var s3 := Apply(s2, Advance(0));
    GoOn(s2, Advance(0), s3);
    ModAdd(k, 1);
    SlotWraps(c, k, 0);
    assert s3.popped == Drained(c, n, k + 1).popped;
    var s4 := Apply(s3, Advance(0));
    GoOn(s3, Advance(0), s4);
    assert s4 == Drained(c, n, k + 1);
  }

  lemma {:induction false} DrainAll(c: nat, n: nat, k: nat)
    requires 0 < c && 0 < n <= c && k <= n
    ensures Reached(Drained(c, n, k))
    decreases k
  {
    if k == 0 {
      FillUp(c, n);
      assert Drained(c, n, 0) == Filled(c, n, n - 1);
    } else {
      DrainAll(c, n, k - 1);
      PopOne(c, n, k - 1);
    }
  }

  // With another capacity the slot of the first value is used again while it is unread: the first
  // value is lost and another comes out twice.
  lemma OtherCapacitiesFail(c: nat) returns (s: State)
    requires 0 < c <= WORD && !IsPow2(c)
    ensures Reached(s) && s.capacity == c && NoDup(s.pushed) && !NoDup(s.popped)
    ensures |s.popped| == |s.pushed| && s.pushed[0] !in s.popped
  {
    hide Reached, IsPow2, Slot, Stored;
    var n := WrapsEarly(c);
    DrainAll(c, n, n);
    s := Drained(c, n, n);
    forall k | 0 <= k < n
      ensures s.popped[k] == if k == 0 then n - 1 else k
    {
      StoredWraps(seq(c, _ => 0), Counting(n), k);
    }
    assert s.popped[0] == s.popped[n - 1];
  }

  // In every run of a buffer of this capacity that is given different values, none comes out twice.
  ghost predicate HandsOutOnce(capacity: nat) {
    forall s | Reached(s) && s.capacity == capacity && NoDup(s.pushed) :: NoDup(s.popped)
  }

  // No value comes out twice exactly when the capacity is a power of two.
  lemma OnceIffPowerOfTwo(capacity: nat)
    requires 0 < capacity <= WORD
    ensures HandsOutOnce(capacity) <==> IsPow2(capacity)
  {
    hide Reached;
    RingIsFifoIffPowerOfTwo(capacity);
    if IsPow2(capacity) {
      forall s | Reached(s) && s.capacity == capacity && NoDup(s.pushed)
        ensures NoDup(s.popped)
      {
        assert s.popped <= s.pushed;
        assert forall i | 0 <= i < |s.popped| :: s.popped[i] == s.pushed[i];
      }
    } else {
      var s := OtherCapacitiesFail(capacity);
    }
  }

  // The buffer is first in, first out in every run exactly when its capacity is a power of two.
  lemma RingIsFifoIffPowerOfTwo(capacity: nat)
    requires 0 < capacity <= WORD
    ensures FirstInFirstOut(capacity) <==> IsPow2(capacity)
  {
    if IsPow2(capacity) {
      var k: nat :| capacity == Pow2(k);
      WithinWord(k);
      forall s | Reached(s) && s.capacity == capacity
        ensures s.popped <= s.pushed
      {
        var run, steps :| Ends(run, steps, s);
        CapacityIsFixed(run, steps, |steps|);
        RunKeepsContents(run, steps, |steps|, k);
      }
    } else {
      var s := OtherCapacitiesFail(capacity);
      assert s.popped <= s.pushed ==> s.popped == s.pushed;
    }
  }

  lemma {:induction false} CapacityIsFixed(run: seq<State>, steps: seq<Step>, i: nat)
    requires IsRun(run, steps) && i < |run|
    ensures run[i].capacity == run[0].capacity
  {
    if i > 0 {
      CapacityIsFixed(run, steps, i - 1);
    }
  }

  // The transaction queue holds two entries per worker: it is first in, first out exactly when
  // the number of workers is a power of two.
  lemma TransactionQueueIsFifo(workers: nat)
    requires 0 < workers && 2 * workers <= WORD
    ensures FirstInFirstOut(2 * workers) <==> IsPow2(workers)
  {
    hide FirstInFirstOut, IsPow2;
    RingIsFifoIffPowerOfTwo(2 * workers);
    DoubleIsPow2(workers);
  }
}
