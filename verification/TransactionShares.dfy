/**
 * Which numbers of transaction workers are safe: with any other than a power of two the ring hands
 * one transaction to two workers.
 */
module TransactionShares {
  import opened Basics
  import opened RingMask
  import opened Rings
  import opened Transactions

  ghost predicate Ends(run: seq<State>, steps: seq<Step>, s: State) {
    IsRun(run, steps) && run[|steps|] == s
  }

  ghost predicate Reached(s: State) {
    exists run, steps :: Ends(run, steps, s)
  }

  lemma GoOn(s: State, a: Step, s': State)
    requires Reached(s) && Enabled(s, a) && s' == Apply(s, a)
    ensures Reached(s')
  {
    hide Enabled, Apply, Init;
    var run, steps :| Ends(run, steps, s);
    var run', steps' := run + [s'], steps + [a];
    forall i | 0 <= i < |steps'|
      ensures Enabled(run'[i], steps'[i]) && run'[i + 1] == Apply(run'[i], steps'[i])
    {
      assert i < |steps| ==> run'[i] == run[i] && run'[i + 1] == run[i + 1] && steps'[i] == steps[i];
    }
    assert run'[0] == run[0];
    assert Ends(run', steps', s');
  }

  // ------------------------------------------------------------ m transactions are pushed

  const ASLEEP: Worker := Worker(Poll, 0, false, None, None, [])

  const SIGNALLED: Worker := Worker(Poll, 1, false, None, None, [])

  ghost function Blank(n: nat): seq<Item> {
    seq(2 * n, _ => Item(0, false))
  }

  // Transactions 0 to m - 1.
  ghost function Batch(m: nat): seq<Item> {
    seq(m, (i: nat) => Item(i, false))
  }

  ghost function Numbers(m: nat): (r: set<Tid>)
    ensures forall t: nat :: t in r <==> t < m
  {
    if m == 0 then {} else Numbers(m - 1) + {m - 1}
  }

  // The first client has signalled k workers, the others none.
  ghost function ClientsAt(m: nat, k: nat): seq<Client> {
    seq(m, (i: nat) => Client(i, if i == 0 then k else 0))
  }

  ghost function Waiting(n: nat, m: nat, k: nat): State
    requires 0 < n && m <= 2 * n && k <= n
  {
    State(seq(n, i => if i < k then SIGNALLED else ASLEEP), Ring(Stored(Blank(n), Batch(m)), 0, m % WORD, m),
          ClientsAt(m, k), Numbers(m), map[], [], {})
  }

  lemma PushOne(n: nat, m: nat)
    requires 0 < n && m < 2 * n && Reached(Waiting(n, m, 0))
    ensures Reached(Waiting(n, m + 1, 0))
  {
    hide Reached, Slot, Stored;
    var s, s' := Waiting(n, m, 0), Waiting(n, m + 1, 0);
    assert Batch(m + 1) == Batch(m) + [Item(m, false)];
    StoredNext(Blank(n), Batch(m), Item(m, false));
    SlotWraps(2 * n, m, 0);
    ModAdd(m, 1);
    assert Numbers(m + 1) == Numbers(m) + {m} && m !in Numbers(m);
    assert ClientsAt(m + 1, 0) == ClientsAt(m, 0) + [Client(m, 0)];
    assert Pushed(s.ring, Item(m, false)) == s'.ring;
    GoOn(s, Push(m, false), s');
  }

  lemma {:induction false} PushAll(n: nat, m: nat)
    requires 0 < n && m <= 2 * n
    ensures Reached(Waiting(n, m, 0))
    decreases m
  {
    if m == 0 {
      var s := Waiting(n, 0, 0);
      assert Init(s);
      assert Ends([s], [], s);
    } else {
      PushAll(n, m - 1);
      PushOne(n, m - 1);
    }
  }

  lemma SignalOne(n: nat, m: nat, k: nat)
    requires 0 < n && 0 < m <= 2 * n && k < n && Reached(Waiting(n, m, k))
    ensures Reached(Waiting(n, m, k + 1))
  {
    hide Reached, Stored;
    var s, s' := Waiting(n, m, k), Waiting(n, m, k + 1);
    assert s.clients[0] == Client(0, k) && s.workers[k] == ASLEEP;
    assert s.workers[k := SIGNALLED] == s'.workers;
    assert s.clients[0 := Client(0, k + 1)] == s'.clients;
    GoOn(s, Signal(0), s');
  }

  lemma {:induction false} SignalAll(n: nat, m: nat, k: nat)
    requires 0 < n && 0 < m <= 2 * n && k <= n
    ensures Reached(Waiting(n, m, k))
    decreases k
  {
    if k == 0 {
      PushAll(n, m);
    } else {
      SignalAll(n, m, k - 1);
      SignalOne(n, m, k - 1);
    }
  }

  // ------------------------------------------------------------ one worker after the other pops

  function Holding(t: Tid): Worker {
    Worker(Send, 0, false, Some(t), None, [])
  }

  // What the k-th pop hands out.
  function Out(m: nat, k: nat): Tid
    requires 0 < m
  {
    if k == 0 then m - 1 else k
  }

  ghost function Taken(n: nat, m: nat, k: nat): State
    requires 0 < m <= n && k <= m
  {
    State(seq(n, (i: nat) => if i < k then Holding(Out(m, i)) else SIGNALLED), Ring(Stored(Blank(n), Batch(m)), k % WORD, m % WORD, m - k),
          ClientsAt(m, n), Numbers(m), map[], [], {})
  }

  // A signalled worker goes round to its pop.
  lemma WakeUp(s: State, w: nat)
    requires Reached(s) && Shape(s) && w < |s.workers| && s.workers[w] == SIGNALLED
    ensures Reached(Set(s, w, ASLEEP.(pc := Pop)))
  {
    hide Reached;
    var s1 := Set(s, w, SIGNALLED.(pc := Handle(false, true)));
    GoOn(s, Advance(w), s1);
    var s2 := Set(s, w, SIGNALLED.(pc := Drain(true)));
    assert s1.workers[w := SIGNALLED.(pc := Drain(true))] == s2.workers;
    GoOn(s1, Advance(w), s2);
    assert s2.workers[w := ASLEEP.(pc := Pop)] == s.workers[w := ASLEEP.(pc := Pop)];
    GoOn(s2, Advance(w), Set(s, w, ASLEEP.(pc := Pop)));
  }

  lemma TakeOne(n: nat, m: nat, k: nat)
    requires m <= n && k < m && Wraps(2 * n, m) && Reached(Taken(n, m, k))
    ensures Reached(Taken(n, m, k + 1))
  {
    hide Reached, Stored, Slot, Wraps;
    var s, s' := Taken(n, m, k), Taken(n, m, k + 1);
    assert s.workers[k] == SIGNALLED;
    WakeUp(s, k);
    var s1 := Set(s, k, ASLEEP.(pc := Pop));
    StoredWraps(Blank(n), Batch(m), k);
    SlotWraps(2 * n, k, 0);
    ModAdd(k, 1);
    assert Front(s1.ring) == Item(Out(m, k), false);
    assert s1.workers[k := Holding(Out(m, k))] == s'.workers;
    GoOn(s1, Advance(k), s');
  }

  lemma {:induction false} TakeAll(n: nat, m: nat, k: nat)
    requires m <= n && k <= m && Wraps(2 * n, m)
    ensures Reached(Taken(n, m, k))
    decreases k
  {
    if k == 0 {
      SignalAll(n, m, n);
      assert Waiting(n, m, n).workers == Taken(n, m, 0).workers;
    } else {
      TakeAll(n, m, k - 1);
      TakeOne(n, m, k - 1);
    }
  }

  // ------------------------------------------------------------ the theorem

  // Two workers have taken the transaction, and the server is about to get it twice.
  ghost predicate TakenTwice(s: State, t: Tid) {
    exists v, w :: 0 <= v < w < |s.workers| && s.workers[v] == s.workers[w] == Holding(t)
  }

  lemma OtherNumbersShare(n: nat) returns (s: State, t: Tid)
    requires 0 < n && 2 * n <= WORD && !IsPow2(n)
    ensures Reached(s) && |s.workers| == n && TakenTwice(s, t) && !OneWorkerEach(s)
  {
    hide Reached, Slot, Stored, IsPow2;
    DoubleIsPow2(n);
    var m := WrapsEarly(2 * n);
    TakeAll(n, m, m);
    s, t := Taken(n, m, m), m - 1;
    assert s.workers[0] == s.workers[m - 1] == Holding(t);
  }

  // No transaction is ever with two workers if and only if the number of workers is a power of two.
  lemma SharesIffNotPowerOfTwo(n: nat)
    requires 0 < n && 2 * n <= WORD
    ensures (forall s | Reached(s) && |s.workers| == n :: OneWorkerEach(s)) <==> IsPow2(n)
  {
    hide Init, Enabled, Apply, OneWorkerEach, IsPow2;
    if IsPow2(n) {
      forall s | Reached(s) && |s.workers| == n
        ensures OneWorkerEach(s)
      {
        var run, steps :| Ends(run, steps, s);
        NumberIsFixed(run, steps, |steps|);
        WorkersAreSafe(run, steps, |steps|);
      }
    } else {
      var s, t := OtherNumbersShare(n);
    }
  }

  lemma {:induction false} NumberIsFixed(run: seq<State>, steps: seq<Step>, i: nat)
    requires IsRun(run, steps) && i < |run|
    ensures |run[i].workers| == |run[0].workers|
  {
    if i > 0 {
      NumberIsFixed(run, steps, i - 1);
    }
  }
}
