/**
 * Which sizes of the controller's request ring are safe: with any other than a power of two a
 * request is lost and another handled twice.
 */
module ProtocolSizes {
  import opened Basics
  import opened RingMask
  import opened Rings
  import opened Protocol
  import opened ProtocolRoutes
  import opened ProtocolSafety
  import opened ProtocolRing

  lemma MoveOn(x: Ringed, m: Move, x': Ringed)
    requires RingReached(x) && CanMove(x, m) && x' == After(x, m)
    ensures RingReached(x')
  {
    hide CanMove, After, Starts;
    var run, moves :| EndsAt(run, moves, x);
    var run', moves' := run + [x'], moves + [m];
    forall i | 0 <= i < |moves'|
      ensures CanMove(run'[i], moves'[i]) && run'[i + 1] == After(run'[i], moves'[i])
    {
      assert i < |moves| ==> run'[i] == run[i] && run'[i + 1] == run[i + 1] && moves'[i] == moves[i];
    }
    assert run'[0] == run[0];
    assert EndsAt(run', moves', x');
  }

  // ------------------------------------------------------------ powers of two: taken in order, once

  // The requests read from the log, in order.
  ghost function AskedIds(log: seq<ReqEvent>): seq<Id> {
    if log == [] then []
    else
      var e := log[|log| - 1];
      AskedIds(log[..|log| - 1]) + if e.Asked? then [e.id] else []
  }

  lemma AskedNext(log: seq<ReqEvent>, n: nat)
    requires n < |log|
    ensures AskedIds(log[..n + 1]) == AskedIds(log[..n]) + if log[n].Asked? then [log[n].id] else []
  {
    assert log[..n + 1][..n] == log[..n];
  }

  lemma {:induction false} AskedIsThere(log: seq<ReqEvent>, id: Id)
    ensures id in AskedIds(log) ==> exists k :: 0 <= k < |log| && log[k] == Asked(id)
  {
    if log != [] {
      var n := |log| - 1;
      AskedIsThere(log[..n], id);
      if id in AskedIds(log[..n]) {
        var k :| 0 <= k < n && log[..n][k] == Asked(id);
        assert log[k] == Asked(id);
      } else if id in AskedIds(log) {
        assert log[n] == Asked(id);
      }
    }
  }

  lemma {:induction false} AskedApart(log: seq<ReqEvent>)
    requires AskedOnce(log)
    ensures NoDup(AskedIds(log))
    decreases |log|
  {
    if log != [] {
      var n := |log| - 1;
      AskedApart(log[..n]);
      if log[n].Asked? {
        AskedIsThere(log[..n], log[n].id);
      }
    }
  }

  // What was taken and what the ring still holds are the requests read, in order.
  ghost predicate InOrder(x: Ringed) {
    x.base.reqRead <= |x.base.reqLog| && x.taken + Items(x.ring) == AskedIds(x.base.reqLog[..x.base.reqRead])
  }

  lemma OtherKeepsOrder(x: Ringed, a: Step)
    requires InOrder(x) && CanMove(x, Other(a))
    ensures InOrder(After(x, Other(a)))
  {
    hide Items, Without, Install, Refresh, Copies, AskedIds;
    var s, s' := x.base, After(x, Other(a)).base;
    assert s'.reqRead == s.reqRead && s.reqLog <= s'.reqLog;
    assert s'.reqLog[..s.reqRead] == s.reqLog[..s.reqRead];
  }

  lemma MoveKeepsOrder(x: Ringed, m: Move)
    requires Sized(x) && InOrder(x) && CanMove(x, m)
    ensures InOrder(After(x, m))
  {
    hide IsPow2, Items, RingOk, Pushed, Popped, Front, AskedIds;
    match m
    case Hand =>
      var e := x.base.reqLog[x.base.reqRead];
      AskedNext(x.base.reqLog, x.base.reqRead);
      if e.Asked? {
        PushAppends(x.ring, e.id);
        assert x.taken + (Items(x.ring) + [e.id]) == x.taken + Items(x.ring) + [e.id];
      } else {
        assert x.taken + Items(x.ring) + [] == x.taken + Items(x.ring);
      }
    case Take =>
      PopDrops(x.ring);
      assert Items(x.ring) == [Items(x.ring)[0]] + Items(x.ring)[1..];
      assert x.taken + [Front(x.ring)] + Items(x.ring)[1..] == x.taken + Items(x.ring);
    case Other(a) => OtherKeepsOrder(x, a);
  }

  lemma {:induction false} RunKeepsOrder(run: seq<Ringed>, moves: seq<Move>, i: nat)
    requires IsRingRun(run, moves) && i < |run| && IsPow2(|run[0].ring.data|) && |run[0].ring.data| <= WORD
    ensures InOrder(run[i])
  {
    hide Sized, IsPow2, CanMove, After, InOrder, Reached;
    if i == 0 {
      StartInOrder(run[0]);
    } else {
      RunKeepsOrder(run, moves, i - 1);
      RingIsQueue(run, moves, i - 1);
      MoveKeepsOrder(run[i - 1], moves[i - 1]);
    }
  }

  lemma StartInOrder(x: Ringed)
    requires Starts(x)
    ensures InOrder(x)
  {
  }

  // With a power of two of slots no request is taken twice.
  lemma TakenOnce(run: seq<Ringed>, moves: seq<Move>, i: nat)
    requires IsRingRun(run, moves) && i < |run| && IsPow2(|run[0].ring.data|) && |run[0].ring.data| <= WORD
    ensures NoDup(run[i].taken)
  {
    hide IsPow2, CanMove, After, Starts, Items, AskedIds, FatesOk, Safe, OneOwner, PositivesOwn;
    var x := run[i];
    RunKeepsOrder(run, moves, i);
    RingRunsAreSafe(run, moves, i);
    FatesLog(Queued(x));
    AskedApart(x.base.reqLog[..x.base.reqRead]);
    assert forall k | 0 <= k < |x.taken| :: x.taken[k] == (x.taken + Items(x.ring))[k];
  }

  lemma FatesLog(s: State)
    requires FatesOk(s)
    ensures s.reqRead <= |s.reqLog| && AskedOnce(s.reqLog)
  {
  }

  // ------------------------------------------------------------ other sizes: requests are asked and read

  function Request(i: nat): Id {
    Id(0, i)
  }

  ghost function Requests(n: nat): seq<Id> {
    seq(n, (i: nat) => Request(i))
  }

  ghost function Asking(n: nat): seq<ReqEvent> {
    seq(n, (i: nat) => Asked(Request(i)))
  }

  // n requests were asked and k of them read into the ring of c slots.
  ghost function Handing(c: nat, threads: nat, n: nat, k: nat): Ringed
    requires 0 < c && k <= n
  {
    Ringed(State([Proxy(n, Requests(n), 0, 0)], [Router(map[], 0)], Asking(n), [], map[], k, [], {}, map[], {}, []),
           Ring(Stored(seq(c, _ => Request(0)), Requests(k)), 0, k % WORD, k), threads, [])
  }

  lemma {:induction false} AskAll(c: nat, threads: nat, n: nat)
    requires 0 < c
    ensures RingReached(Handing(c, threads, n, 0))
    decreases n
  {
    hide RingReached;
    if n == 0 {
      StartHanding(c, threads);
    } else {
      AskAll(c, threads, n - 1);
      var x := Handing(c, threads, n - 1, 0);
      assert Requests(n - 1) + [Request(n - 1)] == Requests(n) && Asking(n - 1) + [Asked(Request(n - 1))] == Asking(n);
      MoveOn(x, Other(Ask(0)), Handing(c, threads, n, 0));
    }
  }

  lemma StartHanding(c: nat, threads: nat)
    requires 0 < c
    ensures RingReached(Handing(c, threads, 0, 0))
  {
    var x := Handing(c, threads, 0, 0);
    assert x.base == Init(1, 1);
    assert EndsAt([x], [], x);
  }

  lemma {:induction false} HandAll(c: nat, threads: nat, n: nat, k: nat)
    requires 0 < c && k <= n <= c
    ensures RingReached(Handing(c, threads, n, k))
    decreases k
  {
    hide RingReached, Stored, Slot;
    if k == 0 {
      AskAll(c, threads, n);
    } else {
      HandAll(c, threads, n, k - 1);
      var x, x' := Handing(c, threads, n, k - 1), Handing(c, threads, n, k);
      var id := Request(k - 1);
      assert Requests(k) == Requests(k - 1) + [id];
      StoredNext(seq(c, _ => Request(0)), Requests(k - 1), id);
      SlotWraps(c, k - 1, 0);
      ModAdd(k - 1, 1);
      assert Pushed(x.ring, id) == x'.ring;
      MoveOn(x, Hand, x');
    }
  }

  // ------------------------------------------------------------ requests are taken

  // The request the k-th pop hands out.
  function Out(n: nat, k: nat): Id
    requires 0 < n
  {
    Request(if k == 0 then n - 1 else k)
  }

  ghost function Outs(n: nat, k: nat): seq<Id>
    requires 0 < n
  {
    seq(k, (i: nat) => Out(n, i))
  }

  // The first request taken is kept in hand or not; all others are turned down at once.
  ghost function Refusals(keep: bool, n: nat, k: nat): seq<ReqEvent>
    requires 0 < n
  {
    if k == 0 then []
    else Refusals(keep, n, k - 1) + if keep && k == 1 then [] else [Decided(Out(n, k - 1), Denied)]
  }

  ghost function Taking(keep: bool, c: nat, threads: nat, n: nat, k: nat): Ringed
    requires 0 < n <= c && k <= n
  {
    Ringed(State([Proxy(n, Requests(n), 0, 0)], [Router(map[], 0)], Asking(n) + Refusals(keep, n, k), [], map[], n,
                 if keep && k > 0 then [Out(n, 0)] else [], {}, map[], {}, []),
           Ring(Stored(seq(c, _ => Request(0)), Requests(n)), k % WORD, n % WORD, n - k), threads, Outs(n, k))
  }

  lemma TakeNext(keep: bool, c: nat, threads: nat, n: nat, k: nat) returns (x': Ringed)
    requires k < n && Wraps(c, n) && threads > (if keep && k > 0 then 1 else 0) && RingReached(Taking(keep, c, threads, n, k))
    ensures RingReached(x')
    ensures var x := Taking(keep, c, threads, n, k);
      && x'.base == x.base.(buffer := x.base.buffer + [Out(n, k)]) && x'.threads == threads && x'.taken == Outs(n, k + 1)
      && x'.ring == Ring(x.ring.data, (k + 1) % WORD, n % WORD, n - k - 1)
  {
    hide RingReached, Stored, Slot, Wraps;
    WrapsRange(c, n);
    var x := Taking(keep, c, threads, n, k);
    StoredWraps(seq(c, _ => Request(0)), Requests(n), k);
    SlotWraps(c, k, 0);
    ModAdd(k, 1);
    assert Outs(n, k + 1) == Outs(n, k) + [Out(n, k)];
    assert Front(x.ring) == Out(n, k);
    x' := After(x, Take);
    MoveOn(x, Take, x');
  }

  lemma {:induction false} TakeAll(keep: bool, c: nat, threads: nat, n: nat, k: nat)
    requires k <= n && Wraps(c, n) && threads > (if keep then 1 else 0)
    ensures RingReached(Taking(keep, c, threads, n, k))
    decreases k
  {
    hide RingReached, Stored, Slot;
    if k == 0 {
      HandAll(c, threads, n, n);
      assert Handing(c, threads, n, n) == Taking(keep, c, threads, n, 0);
    } else {
      TakeAll(keep, c, threads, n, k - 1);
      var x' := TakeNext(keep, c, threads, n, k - 1);
      var y := Taking(keep, c, threads, n, k);
      if keep && k == 1 {
        assert Refusals(keep, n, 0) == [] == Refusals(keep, n, 1);
        assert x'.base.buffer == [Out(n, 0)];
        assert x' == y;
      } else {
        var i := |x'.base.buffer| - 1;
        assert Without(x'.base.buffer, i) == y.base.buffer;
        assert Asking(n) + Refusals(keep, n, k - 1) + [Decided(Out(n, k - 1), Denied)] == Asking(n) + Refusals(keep, n, k);
        MoveOn(x', Other(Reject(i, Denied)), y);
      }
    }
  }

  // ------------------------------------------------------------ the theorems

  lemma OtherSizesTakeTwice(c: nat, threads: nat) returns (x: Ringed)
    requires 0 < c <= WORD && !IsPow2(c) && threads > 0
    ensures RingReached(x) && |x.ring.data| == c && x.threads == threads && !NoDup(x.taken)
  {
    hide RingReached, IsPow2, Stored, Slot;
    var n := WrapsEarly(c);
    TakeAll(false, c, threads, n, n);
    x := Taking(false, c, threads, n, n);
    assert x.taken[0] == x.taken[n - 1];
  }

  // No request is taken twice if and only if the ring has a power of two of slots.
  lemma TakenOnceIffPowerOfTwo(c: nat, threads: nat)
    requires 0 < c <= WORD && threads > 0
    ensures (forall x | RingReached(x) && |x.ring.data| == c && x.threads == threads :: NoDup(x.taken)) <==> IsPow2(c)
  {
    hide CanMove, After, Starts, IsPow2, NoDup;
    if IsPow2(c) {
      forall x | RingReached(x) && |x.ring.data| == c && x.threads == threads
        ensures NoDup(x.taken)
      {
        var run, moves :| EndsAt(run, moves, x);
        SizeIsFixed(run, moves, |moves|);
        TakenOnce(run, moves, |moves|);
      }
    } else {
      var x := OtherSizesTakeTwice(c, threads);
    }
  }

  lemma {:induction false} SizeIsFixed(run: seq<Ringed>, moves: seq<Move>, i: nat)
    requires IsRingRun(run, moves) && i < |run|
    ensures |run[i].ring.data| == |run[0].ring.data|
  {
    hide Apply, Enabled, Starts;
    if i > 0 {
      SizeIsFixed(run, moves, i - 1);
    }
  }

  // Two workers hold the same request.
  lemma SharedInHand(c: nat, threads: nat) returns (x: Ringed, id: Id)
    requires 0 < c <= WORD && !IsPow2(c) && threads > 1
    ensures RingReached(x) && |x.ring.data| == c && x.threads == threads
    ensures x.base.buffer == [id, id] && x.base.flows == map[] && x.base.table == map[] && |x.base.routers| == 1
  {
    hide RingReached, IsPow2, Stored, Slot, Wraps;
    var n := WrapsEarly(c);
    WrapsRange(c, n);
    TakeAll(true, c, threads, n, n - 1);
    x := TakeNext(true, c, threads, n, n - 1);
    id := Request(n - 1);
  }

  lemma WrapsRange(c: nat, n: nat)
    requires Wraps(c, n)
    ensures 1 < n <= c
  {
  }

  // One of them turns it down, the other commits a flow for it.
  lemma OtherSizesMixFates(c: nat, threads: nat) returns (x: Ringed)
    requires 0 < c <= WORD && !IsPow2(c) && threads > 1
    ensures RingReached(x) && |x.ring.data| == c && x.threads == threads && !RejectedHaveNoFlow(x.base)
  {
    hide RingReached, IsPow2, Refused, HasFlow;
    var y, id := SharedInHand(c, threads);
    var y1 := After(y, Other(Reject(0, Denied)));
    MoveOn(y, Other(Reject(0, Denied)), y1);
    assert y1.base.buffer == [id];
    var a := Commit(0, 0, 0, [], 1, 0);
    x := After(y1, Other(a));
    MoveOn(y1, Other(a), x);
    RefusedLast(x.base.reqLog, id);
    FlowThere(x.base.table, 0, id);
  }

  lemma RefusedLast(log: seq<ReqEvent>, id: Id)
    requires |log| > 0 && log[|log| - 1] == Decided(id, Denied)
    ensures Refused(log, id)
  {
    assert Refuses(log[|log| - 1], id);
  }

  lemma FlowThere(table: map<Uuid, Row>, u: Uuid, id: Id)
    requires u in table && table[u].id == id
    ensures HasFlow(table, id)
  {
  }

  // With at least two worker threads, requests turned down never have a flow if and only if the ring
  // has a power of two of slots.
  lemma FatesIffPowerOfTwo(c: nat, threads: nat)
    requires 0 < c <= WORD && threads > 1
    ensures (forall x | RingReached(x) && |x.ring.data| == c && x.threads == threads :: RejectedHaveNoFlow(x.base)) <==> IsPow2(c)
  {
    hide CanMove, After, Starts, IsPow2, RejectedHaveNoFlow, FatesOk;
    if IsPow2(c) {
      forall x | RingReached(x) && |x.ring.data| == c && x.threads == threads
        ensures RejectedHaveNoFlow(x.base)
      {
        var run, moves :| EndsAt(run, moves, x);
        SizeIsFixed(run, moves, |moves|);
        RingRunsAreSafe(run, moves, |moves|);
      }
    } else {
      var x := OtherSizesMixFates(c, threads);
    }
  }

  // The size of the documented example: a request is taken twice, and with two threads one that was
  // turned down has a flow.
  lemma DocumentedSizeFails() returns (x: Ringed, y: Ringed)
    ensures RingReached(x) && |x.ring.data| == 10 && x.threads == 1 && !NoDup(x.taken)
    ensures RingReached(y) && |y.ring.data| == 10 && y.threads == 2 && !RejectedHaveNoFlow(y.base)
  {
    hide RingReached, IsPow2;
    TenOverwrites();
    x := OtherSizesTakeTwice(10, 1);
    y := OtherSizesMixFates(10, 2);
  }
}
