/**
 * No transaction is lost on the way: where each one and each answer of the server is in every state,
 * and how the workers' own steps bring a queued transaction to the server and its result back.
 */
module TransactionProgress {
  import opened Basics
  import opened RingMask
  import opened Rings
  import opened Transactions

  // ------------------------------------------------------------ where a transaction is

  // A worker may still use the transaction, or its connection broke while it sent it.
  predicate Has(x: Worker, t: Tid) {
    x.tr == Some(t) && (x.pc.Send? || x.pending || x.pc.Dead?)
  }

  ghost predicate WithWorker(s: State, t: Tid) {
    exists w :: 0 <= w < |s.workers| && Has(s.workers[w], t)
  }

  ghost predicate Accounted(s: State, q: seq<Item>, t: Tid) {
    Item(t, false) in q || WithWorker(s, t) || t in s.results
  }

  lemma SetKeepsWith(s: State, w: nat, x: Worker, t: Tid)
    requires w < |s.workers| && WithWorker(s, t) && (Has(s.workers[w], t) ==> Has(x, t))
    ensures WithWorker(Set(s, w, x), t)
  {
    var v :| 0 <= v < |s.workers| && Has(s.workers[v], t);
    assert Has(Set(s, w, x).workers[v], t);
  }

  lemma PopKeepsAccount(s: State, q: seq<Item>, w: nat, t: Tid)
    requires Queues(s, q) && Accounted(s, q, t) && w < |s.workers| && s.workers[w].pc.Pop? && WorkerOk(s.workers[w])
    ensures Accounted(DoPop(s, w), if s.workers[w].pending || q == [] then q else q[1..], t)
  {
    PopsFirst(s, q);
    hide Front, Popped, Items, RingOk, IsPow2;
    var s', x := DoPop(s, w), s.workers[w];
    if WithWorker(s, t) {
      SetKeepsWith(s, w, s'.workers[w], t);
    } else if !x.pending && q != [] && q[0] == Item(t, false) {
      assert Has(s'.workers[w], t);
    }
  }

  lemma HandleKeepsAccount(s: State, q: seq<Item>, w: nat, t: Tid)
    requires CoreOk(s, q) && Accounted(s, q, t) && w < |s.workers| && s.workers[w].pc.Handle?
    ensures Accounted(DoHandle(s, w), q, t)
  {
    hide CoreOk;
    var s', x := DoHandle(s, w), s.workers[w];
    HandleKeepsCore(s, q, w);
    if WithWorker(s, t) && !(Receives(x) && x.tr == Some(t)) {
      SetKeepsWith(s, w, s'.workers[w], t);
    }
  }

  // No step loses a transaction.
  lemma StepKeepsAccount(s: State, q: seq<Item>, a: Step, t: Tid)
    requires Queues(s, q) && CoreOk(s, q) && Enabled(s, a) && Accounted(s, q, t)
    ensures Accounted(Apply(s, a), NextQueue(s, q, a), t)
  {
    hide CoreOk, Queues, DoHandle, DoPop, Pushed, WorkerOk;
    match a
    case Push(_, _) =>
      if WithWorker(s, t) {
        var v :| 0 <= v < |s.workers| && Has(s.workers[v], t);
        assert Has(Apply(s, a).workers[v], t);
      }
    case Free(_) =>
      if WithWorker(s, t) {
        var v :| 0 <= v < |s.workers| && Has(s.workers[v], t);
        assert Has(Apply(s, a).workers[v], t);
      }
    case Advance(w) =>
      CoreWorker(s, q, w);
      if s.workers[w].pc.Handle? {
        HandleKeepsAccount(s, q, w, t);
      } else if s.workers[w].pc.Pop? {
        PopKeepsAccount(s, q, w, t);
      } else if WithWorker(s, t) {
        SetKeepsWith(s, w, Apply(s, a).workers[w], t);
      }
    case Signal(j) => if WithWorker(s, t) { SignalKeepsWith(s, j, t); }
    case SendFails(w) => if WithWorker(s, t) { SetKeepsWith(s, w, Apply(s, a).workers[w], t); }
    case Answer(w) => if WithWorker(s, t) { SetKeepsWith(s, w, Apply(s, a).workers[w], t); }
    case ServerPings(w) => if WithWorker(s, t) { SetKeepsWith(s, w, Apply(s, a).workers[w], t); }
  }

  lemma SignalKeepsWith(s: State, j: nat, t: Tid)
    requires Enabled(s, Signal(j)) && WithWorker(s, t)
    ensures WithWorker(DoSignal(s, j), t)
  {
    var v :| 0 <= v < |s.workers| && Has(s.workers[v], t);
    assert Has(DoSignal(s, j).workers[v], t);
  }

  // ------------------------------------------------------------ where an answer is

  predicate Keeps(x: Worker, t: Tid) {
    x.pending && x.tr == Some(t) && x.wire.None?
  }

  // The server's answer was handed over, or is in the inbox of the worker that waits for it.
  ghost predicate Arrived(s: State, t: Tid) {
    t in s.results || exists w :: 0 <= w < |s.workers| && Keeps(s.workers[w], t) && OneResult(s.workers[w].inbox, t)
  }

  lemma StillArrived(s: State, q: seq<Item>, w: nat, t: Tid)
    requires CoreOk(s, q) && w < |s.workers| && Keeps(s.workers[w], t)
    ensures Arrived(s, t)
  {
    assert WorkerOk(s.workers[w]);
  }

  // No step loses an answer.
  lemma StepKeepsArrived(s: State, q: seq<Item>, a: Step, t: Tid)
    requires Queues(s, q) && CoreOk(s, q) && Enabled(s, a) && Arrived(s, t)
    ensures Arrived(Apply(s, a), t)
  {
    StepKeepsCore(s, q, a);
    hide CoreOk, Queues, DoHandle, DoPop, Pushed, OneResult, NextQueue;
    if t !in s.results {
      var w :| 0 <= w < |s.workers| && Keeps(s.workers[w], t) && OneResult(s.workers[w].inbox, t);
      CoreWorker(s, q, w);
      WaitsOn(s, q, a, w, t);
      var s' := Apply(s, a);
      if t !in s'.results {
        StillArrived(s', NextQueue(s, q, a), w, t);
      }
    } else {
      ResultsStay(s, q, a, t);
    }
  }

  lemma ResultsStay(s: State, q: seq<Item>, a: Step, t: Tid)
    requires CoreOk(s, q) && Enabled(s, a) && t in s.results
    ensures t in Apply(s, a).results
  {
    hide CoreOk, Pushed, Popped, Front;
  }

  lemma WaitsOn(s: State, q: seq<Item>, a: Step, w: nat, t: Tid)
    requires CoreOk(s, q) && Enabled(s, a) && w < |s.workers| && Keeps(s.workers[w], t)
    ensures t in Apply(s, a).results || (|Apply(s, a).workers| == |s.workers| && Keeps(Apply(s, a).workers[w], t))
  {
    hide CoreOk, Pushed, Popped, Front, OneResult;
    CoreWorker(s, q, w);
    if a.Advance? && a.w == w && s.workers[w].pc.Handle? {
      HandleKeepsCore(s, q, w);
    }
  }

  // ------------------------------------------------------------ runs

  // With a power of two of workers, from its push on a transaction is queued, with a worker, or has
  // its result, and from the server's answer on the result is on its way to it or handed over.
  lemma {:induction false} NothingIsLost(run: seq<State>, steps: seq<Step>, j: nat, i: nat)
    requires IsRun(run, steps) && j < i < |run| && IsPow2(|run[0].workers|) && 2 * |run[0].workers| <= WORD
    ensures steps[j].Push? && !steps[j].stop ==> Accounted(run[i], Items(run[i].ring), steps[j].t)
    ensures steps[j].Answer? ==> Arrived(run[i], run[j].workers[steps[j].w].wire.value)
    decreases i
  {
    hide AllAwake, ClientsKnown, CoreOk, Enabled, Apply, NextQueue, IsPow2, Accounted, Arrived, Items, RingOk;
    var q := RunKeepsInv(run, steps, i - 1);
    var s, a := run[i - 1], steps[i - 1];
    StepKeepsQueue(s, q, a);
    if j == i - 1 {
      Begins(s, q, a);
    } else {
      NothingIsLost(run, steps, j, i - 1);
      if steps[j].Push? && !steps[j].stop {
        StepKeepsAccount(s, q, a, steps[j].t);
      }
      if steps[j].Answer? {
        assert Enabled(run[j], steps[j]);
        OnWire(run[j], steps[j].w);
        StepKeepsArrived(s, q, a, run[j].workers[steps[j].w].wire.value);
      }
    }
  }

  lemma OnWire(s: State, w: nat)
    requires Enabled(s, Answer(w))
    ensures w < |s.workers| && s.workers[w].wire.Some?
  {
  }

  lemma Begins(s: State, q: seq<Item>, a: Step)
    requires Queues(s, q) && CoreOk(s, q) && Enabled(s, a)
    ensures a.Push? && !a.stop ==> Accounted(Apply(s, a), NextQueue(s, q, a), a.t)
    ensures a.Answer? ==> Arrived(Apply(s, a), s.workers[a.w].wire.value)
  {
    hide CoreOk, Queues, Pushed;
    if a.Push? {
      var q' := q + [Item(a.t, a.stop)];
      assert q'[|q|] == Item(a.t, a.stop);
    }
    if a.Answer? {
      CoreWorker(s, q, a.w);
      AnswerKeepsWorker(s.workers[a.w]);
      assert Keeps(Apply(s, a).workers[a.w], s.workers[a.w].wire.value);
    }
  }

  // ------------------------------------------------------------ progress

  // The steps lead from one state to the other.
  ghost predicate Leads(s: State, steps: seq<Step>, s': State)
    decreases |steps|
  {
    if steps == [] then s' == s
    else Enabled(s, steps[0]) && Leads(Apply(s, steps[0]), steps[1..], s')
  }

  lemma LeadsFrom(s: State, a: Step, steps: seq<Step>, s': State)
    requires Enabled(s, a) && Leads(Apply(s, a), steps, s')
    ensures Leads(s, [a] + steps, s')
  {
    assert ([a] + steps)[1..] == steps;
  }

  lemma {:induction false} LeadsThen(s: State, steps: seq<Step>, s1: State, steps': seq<Step>, s2: State)
    requires Leads(s, steps, s1) && Leads(s1, steps', s2)
    ensures Leads(s, steps + steps', s2)
    decreases |steps|
  {
    if steps == [] {
      assert steps + steps' == steps';
    } else {
      hide Enabled, Apply;
      LeadsThen(Apply(s, steps[0]), steps[1..], s1, steps', s2);
      assert (steps + steps')[1..] == steps[1..] + steps';
    }
  }

  function Rank(pc: Pc): nat {
    match pc
    case Handle(message, _) => if message then 0 else 4
    case Poll => 1
    case Pop => 2
    case Drain(_) => 3
    case _ => 5
  }

  // A worker with the result in its inbox hands it over by its own steps.
  lemma {:induction false} ResultIsHandedOver(s: State, w: nat, t: Tid) returns (steps: seq<Step>, s': State)
    requires Shape(s) && w < |s.workers| && WorkerOk(s.workers[w]) && Keeps(s.workers[w], t)
    ensures Leads(s, steps, s') && (forall a | a in steps :: a == Advance(w)) && t in s'.results
    decreases |s.workers[w].inbox|, Rank(s.workers[w].pc)
  {
    hide Leads, Popped, Front;
    var x := s.workers[w];
    var k :| ResultAt(x.inbox, t, k);
    var s1 := Apply(s, Advance(w));
    var x1 := s1.workers[w];
    var rest: seq<Step>;
    if x.pc.Handle? && x.pc.message && k == 0 {
      rest, s' := [], s1;
      assert Leads(s1, [], s1) by { LeadsNowhere(s1); }
    } else {
      if x.pc.Handle? && x.pc.message {
        assert ResultAt(x1.inbox, t, k - 1);
      } else {
        assert ResultAt(x1.inbox, t, k);
      }
      rest, s' := ResultIsHandedOver(s1, w, t);
    }
    LeadsFrom(s, Advance(w), rest, s');
    steps := [Advance(w)] + rest;
  }

  lemma LeadsNowhere(s: State)
    ensures Leads(s, [], s)
  {
  }

  // The worker has nothing under way and a reason to look at the queue.
  predicate Ready(x: Worker) {
    !x.pending && !x.pc.Send? && !x.pc.Dead? && (x.pc.Poll? ==> x.event > 0 || x.inbox != [])
  }

  // What taking the item makes of a worker.
  predicate Took(x: Worker, item: Item) {
    if item.stop then x.pc.Dead? else x.pc.Send? && x.tr == Some(item.id)
  }

  function Turns(pc: Pc): nat {
    match pc
    case Poll => 4
    case Handle(_, _) => 3
    case Drain(_) => 2
    case _ => 1
  }

  // Such a worker takes the first of the queue by its own steps.
  lemma {:induction false} FirstIsTaken(s: State, q: seq<Item>, w: nat) returns (steps: seq<Step>, s': State)
    requires Queues(s, q) && CoreOk(s, q) && q != [] && w < |s.workers| && Ready(s.workers[w])
    ensures Leads(s, steps, s') && (forall a | a in steps :: a == Advance(w))
    ensures Queues(s', q[1..]) && CoreOk(s', q[1..]) && |s'.workers| == |s.workers| && Took(s'.workers[w], q[0])
    decreases Turns(s.workers[w].pc)
  {
    StepKeepsQueue(s, q, Advance(w));
    StepKeepsCore(s, q, Advance(w));
    PopsFirst(s, q);
    CoreWorker(s, q, w);
    hide Leads, Popped, Front, Queues, CoreOk;
    var s1 := Apply(s, Advance(w));
    var rest: seq<Step>;
    if s.workers[w].pc.Pop? {
      rest, s' := [], s1;
      LeadsNowhere(s1);
    } else {
      rest, s' := FirstIsTaken(s1, q, w);
    }
    LeadsFrom(s, Advance(w), rest, s');
    steps := [Advance(w)] + rest;
  }

  // A transaction in front of the queue gets its result by steps of one ready worker and one answer
  // of the server.
  lemma FirstIsServed(s: State, q: seq<Item>, w: nat) returns (steps: seq<Step>, s': State)
    requires Queues(s, q) && CoreOk(s, q) && q != [] && !q[0].stop && w < |s.workers| && Ready(s.workers[w])
    ensures Leads(s, steps, s') && (forall a | a in steps :: a in {Advance(w), Answer(w)}) && q[0].id in s'.results
  {
    var before, s1 := FirstIsTaken(s, q, w);
    CoreWorker(s1, q[1..], w);
    var s2 := Apply(s1, Advance(w));
    StepKeepsCore(s1, q[1..], Advance(w));
    CoreWorker(s2, q[1..], w);
    var s3 := Apply(s2, Answer(w));
    AnswerKeepsWorker(s2.workers[w]);
    var after, s4 := ResultIsHandedOver(s3, w, q[0].id);
    hide Apply, Enabled, Leads;
    LeadsFrom(s2, Answer(w), after, s4);
    LeadsFrom(s1, Advance(w), [Answer(w)] + after, s4);
    LeadsThen(s, before, s1, [Advance(w)] + ([Answer(w)] + after), s4);
    steps, s' := before + ([Advance(w)] + ([Answer(w)] + after)), s4;
  }

  // Only the worker and the server's answer to it move.
  ghost predicate OnlyOf(steps: seq<Step>, w: nat) {
    forall a | a in steps :: a in {Advance(w), Answer(w)}
  }

  // With a power of two of workers, in every state of every run: a signalled worker without a
  // transaction under way brings the first of the queue to its result, and an answer in an inbox
  // reaches its transaction, even if no other worker moves.
  lemma WorkersMakeProgress(run: seq<State>, steps: seq<Step>, i: nat, w: nat)
    requires IsRun(run, steps) && i < |run| && IsPow2(|run[0].workers|) && 2 * |run[0].workers| <= WORD && w < |run[i].workers|
    ensures var s, q := run[i], Items(run[i].ring);
      && (Ready(s.workers[w]) && q != [] && !q[0].stop ==> exists more, s' :: Leads(s, more, s') && OnlyOf(more, w) && q[0].id in s'.results)
      && (s.workers[w].pending && s.workers[w].wire.None? ==> s.workers[w].tr.Some? && exists more, s' :: Leads(s, more, s') && OnlyOf(more, w) && s.workers[w].tr.value in s'.results)
  {
    hide AllAwake, ClientsKnown, CoreOk, IsPow2, Enabled, Apply, Leads;
    var q := RunKeepsInv(run, steps, i);
    var s := run[i];
    CoreWorker(s, q, w);
    if Ready(s.workers[w]) && q != [] && !q[0].stop {
      var more, s' := FirstIsServed(s, q, w);
    }
    if s.workers[w].pending && s.workers[w].wire.None? {
      var more, s' := ResultIsHandedOver(s, w, s.workers[w].tr.value);
    }
  }
}
