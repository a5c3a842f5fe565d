/**
 * The database transaction workers of srdb.c: clients push transactions into a shared ring buffer
 * of two slots per worker and signal every worker; each worker has its own connection, polls it
 * together with its event counter, and has at most one transaction under way.
 */
module Transactions {
  import opened Basics
  import opened RingMask
  import opened Rings

  type Tid = nat

  // What the server sends on a connection: a ping, or the result of a transaction.
  datatype Message = Ping | Result(t: Tid)

  // A worker's loop: Poll, then handle a message if there was one, drain the event counter if it
  // was set, pop a transaction unless one is pending, and send it.
  datatype Pc = Poll | Handle(message: bool, event: bool) | Drain(event: bool) | Pop | Send | Dead

  datatype Worker = Worker(
    pc: Pc,
    event: nat,             // the event counter
    pending: bool,
    tr: Option<Tid>,        // the transaction last popped
    wire: Option<Tid>,      // a request the server has not answered
    inbox: seq<Message>)

  // A queued transaction, or an order to stop.
  datatype Item = Item(id: Tid, stop: bool)

  // A client past its push, about to signal the worker next.
  datatype Client = Client(id: Tid, next: nat)

  datatype State = State(
    workers: seq<Worker>,
    ring: Ring<Item>,
    clients: seq<Client>,
    known: set<Tid>,
    results: map<Tid, Tid>,   // the result handed to each transaction, as the one it answers
    handed: seq<Tid>,         // the transactions given a result, in order
    freed: set<Tid>)

  datatype Step =
    | Push(t: Tid, stop: bool)
    | Signal(j: nat)
    | Advance(w: nat)
    | SendFails(w: nat)
    | Answer(w: nat)
    | ServerPings(w: nat)
    | Free(t: Tid)

  predicate Init(s: State) {
    && (forall w | 0 <= w < |s.workers| :: s.workers[w] == Worker(Poll, 0, false, None, None, []))
    && Shape(s) && s.ring.read == s.ring.write == s.ring.full == 0 && s.clients == [] && s.known == {} && s.results == map[] && s.handed == [] && s.freed == {}
  }

  predicate Shape(s: State) {
    |s.ring.data| == 2 * |s.workers|
  }

  // A push waits for room in the ring.
  predicate Enabled(s: State, a: Step) {
    Shape(s) &&
    match a
    case Push(t, _) => t !in s.known && HasRoom(s.ring)
    case Signal(j) => j < |s.clients| && s.clients[j].next < |s.workers|
    case Advance(w) =>
      && w < |s.workers| && !s.workers[w].pc.Dead?
      && (s.workers[w].pc.Poll? ==> s.workers[w].inbox != [] || s.workers[w].event > 0)
    case SendFails(w) => w < |s.workers| && s.workers[w].pc.Send?
    case Answer(w) => w < |s.workers| && s.workers[w].wire.Some?
    case ServerPings(w) => w < |s.workers|
    case Free(t) => t in s.results
  }

  function Set(s: State, w: nat, x: Worker): State
    requires w < |s.workers|
  {
    s.(workers := s.workers[w := x])
  }

  // The client signals one worker after the other.
  function DoSignal(s: State, j: nat): State
    requires Enabled(s, Signal(j))
  {
    var c := s.clients[j];
    var x := s.workers[c.next];
    Set(s, c.next, x.(event := x.event + 1)).(clients := s.clients[j := c.(next := c.next + 1)])
  }

  // A result goes to the transaction under way; without one it is dropped.
  function DoHandle(s: State, w: nat): State
    requires w < |s.workers| && s.workers[w].pc.Handle?
  {
    var x := s.workers[w];
    var y := x.(pc := Drain(x.pc.event));
    if !x.pc.message || x.inbox == [] then Set(s, w, y)
    else
      var z := y.(inbox := x.inbox[1..]);
      if x.inbox[0].Result? && x.pending && x.tr.Some? then
        Set(s, w, z.(pending := false)).(results := s.results[x.tr.value := x.inbox[0].t], handed := s.handed + [x.tr.value])
      else Set(s, w, z)
  }

  function DoPop(s: State, w: nat): State
    requires Shape(s) && w < |s.workers|
  {
    var x := s.workers[w];
    if x.pending || s.ring.full == 0 then Set(s, w, x.(pc := Poll))
    else
      var item := Front(s.ring);
      Set(s, w, if item.stop then x.(pc := Dead, tr := None) else x.(pc := Send, tr := Some(item.id))).(ring := Popped(s.ring))
  }

  function DoAdvance(s: State, w: nat): State
    requires Enabled(s, Advance(w))
  {
    var x := s.workers[w];
    match x.pc
    case Poll => Set(s, w, x.(pc := Handle(x.inbox != [], x.event > 0)))
    case Handle(_, _) => DoHandle(s, w)
    case Drain(event) => Set(s, w, x.(pc := Pop, event := if event then 0 else x.event))
    case Pop => DoPop(s, w)
    case Send => Set(s, w, x.(pc := Poll, pending := true, wire := x.tr))
  }

  function Apply(s: State, a: Step): State
    requires Enabled(s, a)
  {
    match a
    case Push(t, stop) => s.(ring := Pushed(s.ring, Item(t, stop)), clients := s.clients + [Client(t, 0)], known := s.known + {t})
    case Signal(j) => DoSignal(s, j)
    case Advance(w) => DoAdvance(s, w)
    case SendFails(w) => Set(s, w, s.workers[w].(pc := Dead))
    case Answer(w) =>
      var x := s.workers[w];
      Set(s, w, x.(wire := None, inbox := x.inbox + [Result(x.wire.value)]))
    case ServerPings(w) =>
      var x := s.workers[w];
      Set(s, w, x.(inbox := x.inbox + [Ping]))
    case Free(t) => s.(freed := s.freed + {t})
  }

  ghost predicate IsRun(run: seq<State>, steps: seq<Step>) {
    && |run| == |steps| + 1 && Init(run[0])
    && forall i | 0 <= i < |steps| :: Enabled(run[i], steps[i]) && run[i + 1] == Apply(run[i], steps[i])
  }

  // ------------------------------------------------------------ the queue

  // The ring holds the queue q and works as one.
  ghost predicate Queues(s: State, q: seq<Item>) {
    RingOk(s.ring) && Shape(s) && IsPow2(|s.ring.data|) && |s.ring.data| <= WORD && Items(s.ring) == q
  }

  // What a step makes of the queue.
  ghost function NextQueue(s: State, q: seq<Item>, a: Step): seq<Item>
    requires Enabled(s, a)
  {
    if a.Push? then q + [Item(a.t, a.stop)]
    else if a.Advance? && s.workers[a.w].pc.Pop? && !s.workers[a.w].pending && q != [] then q[1..]
    else q
  }

  lemma StepKeepsQueue(s: State, q: seq<Item>, a: Step)
    requires Queues(s, q) && Enabled(s, a)
    ensures Queues(Apply(s, a), NextQueue(s, q, a))
  {
    hide RingOk, IsPow2, Items, Pushed, Popped;
    if a.Push? {
      PushAppends(s.ring, Item(a.t, a.stop));
    } else if s.ring.full > 0 {
      PopDrops(s.ring);
    }
  }

  // The next pop takes the first of the queue, and none is taken from an empty one.
  lemma PopsFirst(s: State, q: seq<Item>)
    requires Queues(s, q)
    ensures s.ring.full == 0 <==> q == []
    ensures q != [] ==> Front(s.ring) == q[0]
  {
    if s.ring.full > 0 {
      PopDrops(s.ring);
    }
  }

  // ------------------------------------------------------------ wakeups

  // A worker asleep without anything under way has not been signalled for a queued transaction.
  ghost predicate Awake(x: Worker, q: seq<Item>, clients: seq<Client>, w: nat) {
    x.pc.Poll? && x.event == 0 && !x.pending ==>
      forall i, j | 0 <= i < |q| && 0 <= j < |clients| && q[i].id == clients[j].id :: clients[j].next <= w
  }

  ghost predicate AllAwake(s: State, q: seq<Item>) {
    forall w | 0 <= w < |s.workers| :: Awake(s.workers[w], q, s.clients, w)
  }

  ghost predicate ClientsKnown(s: State) {
    forall j | 0 <= j < |s.clients| :: s.clients[j].id in s.known
  }

  lemma StepKeepsAwake(s: State, q: seq<Item>, a: Step)
    requires Queues(s, q) && AllAwake(s, q) && ClientsKnown(s) && QueueOk(s, q) && Enabled(s, a)
    ensures AllAwake(Apply(s, a), NextQueue(s, q, a)) && ClientsKnown(Apply(s, a))
  {
    hide Queues, Pushed, Popped, Front;
    PopsFirst(s, q);
  }

  // ------------------------------------------------------------ results

  ghost predicate NoResults(inbox: seq<Message>) {
    forall i | 0 <= i < |inbox| :: inbox[i].Ping?
  }

  // The inbox holds the result of t, pings, and nothing else.
  ghost predicate OneResult(inbox: seq<Message>, t: Tid) {
    exists k :: ResultAt(inbox, t, k)
  }

  ghost predicate ResultAt(inbox: seq<Message>, t: Tid, k: int) {
    0 <= k < |inbox| && inbox[k] == Result(t) && forall i | 0 <= i < |inbox| && i != k :: inbox[i].Ping?
  }

  // The server owes the worker the result of exactly the transaction it has under way.
  ghost predicate WorkerOk(x: Worker) {
    && (x.pc.Send? ==> !x.pending && x.tr.Some?) && (x.pc.Dead? ==> !x.pending)
    && (!x.pending ==> x.wire.None? && NoResults(x.inbox))
    && (x.pending ==> x.tr.Some? && ((x.wire == x.tr && NoResults(x.inbox)) || (x.wire.None? && OneResult(x.inbox, x.tr.value))))
  }

  // The transaction a worker may still use.
  function Active(x: Worker): Option<Tid> {
    if x.pc.Send? || x.pending then x.tr else None
  }

  ghost predicate WorkersOk(s: State) {
    forall w | 0 <= w < |s.workers| :: WorkerOk(s.workers[w])
  }

  ghost predicate QueueOk(s: State, q: seq<Item>) {
    && (forall i, j | 0 <= i < j < |q| :: q[i].id != q[j].id)
    && (forall i | 0 <= i < |q| :: q[i].id in s.known && q[i].id !in s.results)
  }

  // Each transaction is with one worker at most, and then neither queued nor answered.
  ghost predicate ActiveOk(s: State, q: seq<Item>) {
    && (forall w | 0 <= w < |s.workers| && Active(s.workers[w]).Some? ::
          var t := Active(s.workers[w]).value;
          t in s.known && t !in s.results && forall i | 0 <= i < |q| :: q[i].id != t)
    && (forall v, w | 0 <= v < w < |s.workers| && Active(s.workers[v]).Some? :: Active(s.workers[v]) != Active(s.workers[w]))
  }

  ghost predicate ResultsOk(s: State) {
    && s.results.Keys <= s.known && s.freed <= s.results.Keys && (forall t | t in s.results :: s.results[t] == t)
    && NoDup(s.handed) && forall t :: t in s.handed <==> t in s.results
  }

  ghost predicate Inv(s: State, q: seq<Item>) {
    Queues(s, q) && AllAwake(s, q) && ClientsKnown(s) && CoreOk(s, q)
  }

  // ------------------------------------------------------------ one worker's messages

  lemma PingKeepsWorker(x: Worker)
    requires WorkerOk(x)
    ensures WorkerOk(x.(inbox := x.inbox + [Ping]))
  {
    var inbox := x.inbox + [Ping];
    if x.pending && x.wire.None? {
      var k :| ResultAt(x.inbox, x.tr.value, k);
      assert ResultAt(inbox, x.tr.value, k);
    }
  }

  lemma AnswerKeepsWorker(x: Worker)
    requires WorkerOk(x) && x.wire.Some?
    ensures WorkerOk(x.(wire := None, inbox := x.inbox + [Result(x.wire.value)]))
  {
    var k := |x.inbox|;
    var inbox := x.inbox + [Result(x.wire.value)];
    assert ResultAt(inbox, x.tr.value, k);
  }

  // The first message: a ping leaves the debt, a result is the one owed and settles it.
  lemma ReceiveKeepsWorker(x: Worker)
    requires WorkerOk(x) && x.inbox != []
    ensures x.inbox[0].Result? ==> x.pending && x.tr.Some? && x.inbox[0].t == x.tr.value && x.wire.None? && NoResults(x.inbox[1..])
    ensures x.inbox[0].Ping? ==> WorkerOk(x.(inbox := x.inbox[1..]))
  {
    if x.pending && x.wire.None? {
      var k :| ResultAt(x.inbox, x.tr.value, k);
      if k > 0 {
        assert ResultAt(x.inbox[1..], x.tr.value, k - 1);
      }
    }
  }

  ghost predicate CoreOk(s: State, q: seq<Item>) {
    WorkersOk(s) && QueueOk(s, q) && ActiveOk(s, q) && ResultsOk(s)
  }

  // A worker that keeps its debt keeps or drops its claim.
  lemma SetKeepsCore(s: State, q: seq<Item>, w: nat, x: Worker)
    requires CoreOk(s, q) && w < |s.workers| && WorkerOk(x) && (Active(x).None? || Active(x) == Active(s.workers[w]))
    ensures CoreOk(Set(s, w, x), q)
  {
  }

  // Neither the ring nor the clients matter.
  lemma SameCore(s: State, q: seq<Item>, s': State)
    requires CoreOk(s, q) && s' == s.(ring := s'.ring, clients := s'.clients)
    ensures CoreOk(s', q)
  {
  }

  lemma PushKeepsCore(s: State, q: seq<Item>, t: Tid, stop: bool)
    requires CoreOk(s, q) && t !in s.known
    ensures CoreOk(s.(known := s.known + {t}), q + [Item(t, stop)])
  {
  }

  // A transaction popped is with this worker and no longer queued.
  lemma TakeKeepsCore(s: State, q: seq<Item>, w: nat, x: Worker)
    requires CoreOk(s, q) && w < |s.workers| && WorkerOk(x) && q != []
    requires Active(s.workers[w]).None? && (Active(x).None? || Active(x) == Some(q[0].id))
    ensures CoreOk(Set(s, w, x), q[1..])
  {
  }

  // The result goes to the transaction under way, which has none yet.
  lemma DeliverKeepsCore(s: State, q: seq<Item>, w: nat, x: Worker, t: Tid)
    requires CoreOk(s, q) && w < |s.workers| && WorkerOk(x) && Active(x).None? && Active(s.workers[w]) == Some(t)
    ensures t !in s.results && CoreOk(Set(s, w, x).(results := s.results[t := t], handed := s.handed + [t]), q)
  {
  }

  lemma CoreWorker(s: State, q: seq<Item>, w: nat)
    requires CoreOk(s, q) && w < |s.workers|
    ensures WorkerOk(s.workers[w]) && s.freed <= s.results.Keys
  {
  }

  ghost predicate SameResults(s: State, s': State) {
    s'.results == s.results && s'.handed == s.handed
  }

  // The transaction, which had no result and is not freed, gets its own.
  ghost predicate Hands(s: State, s': State, t: Tid) {
    t !in s.results && t !in s.freed && s'.results == s.results[t := t] && s'.handed == s.handed + [t]
  }

  ghost predicate HandsOne(s: State, s': State) {
    exists t :: Hands(s, s', t)
  }

  // The worker is about to handle the result of a transaction.
  predicate Receives(x: Worker) {
    x.pc.Handle? && x.pc.message && x.inbox != [] && x.inbox[0].Result?
  }

  // A message handled hands a result over exactly when it is one, to the transaction it answers.
  lemma HandleKeepsCore(s: State, q: seq<Item>, w: nat)
    requires CoreOk(s, q) && w < |s.workers| && s.workers[w].pc.Handle?
    ensures CoreOk(DoHandle(s, w), q)
    ensures Receives(s.workers[w]) ==> s.workers[w].tr == Some(s.workers[w].inbox[0].t) && Hands(s, DoHandle(s, w), s.workers[w].inbox[0].t)
    ensures !Receives(s.workers[w]) ==> SameResults(s, DoHandle(s, w))
  {
    hide CoreOk;
    var x := s.workers[w];
    var y := x.(pc := Drain(x.pc.event));
    CoreWorker(s, q, w);
    if !x.pc.message || x.inbox == [] {
      SetKeepsCore(s, q, w, y);
    } else {
      ReceiveKeepsWorker(y);
      var z := y.(inbox := x.inbox[1..]);
      if x.inbox[0].Result? {
        DeliverKeepsCore(s, q, w, z.(pending := false), x.tr.value);
        assert Hands(s, DoHandle(s, w), x.tr.value);
      } else {
        SetKeepsCore(s, q, w, z);
      }
    }
  }

  lemma PopKeepsCore(s: State, q: seq<Item>, w: nat)
    requires Queues(s, q) && CoreOk(s, q) && w < |s.workers| && s.workers[w].pc.Pop?
    ensures CoreOk(DoPop(s, w), if s.workers[w].pending || q == [] then q else q[1..])
  {
    hide CoreOk, Popped, Front;
    var x := s.workers[w];
    CoreWorker(s, q, w);
    PopsFirst(s, q);
    if x.pending || q == [] {
      SetKeepsCore(s, q, w, x.(pc := Poll));
    } else {
      var x' := if q[0].stop then x.(pc := Dead, tr := None) else x.(pc := Send, tr := Some(q[0].id));
      TakeKeepsCore(s, q, w, x');
      SameCore(Set(s, w, x'), q[1..], DoPop(s, w));
    }
  }

  lemma AdvanceKeepsCore(s: State, q: seq<Item>, w: nat)
    requires Queues(s, q) && CoreOk(s, q) && Enabled(s, Advance(w))
    ensures CoreOk(DoAdvance(s, w), NextQueue(s, q, Advance(w)))
  {
    hide CoreOk, Queues, DoHandle, DoPop;
    var x := s.workers[w];
    CoreWorker(s, q, w);
    match x.pc
    case Handle(_, _) => HandleKeepsCore(s, q, w);
    case Pop => PopKeepsCore(s, q, w);
    case Poll => SetKeepsCore(s, q, w, x.(pc := Handle(x.inbox != [], x.event > 0)));
    case Drain(event) => SetKeepsCore(s, q, w, x.(pc := Pop, event := if event then 0 else x.event));
    case Send => SetKeepsCore(s, q, w, x.(pc := Poll, pending := true, wire := x.tr));
  }

  lemma StepKeepsCore(s: State, q: seq<Item>, a: Step)
    requires Queues(s, q) && CoreOk(s, q) && Enabled(s, a)
    ensures CoreOk(Apply(s, a), NextQueue(s, q, a))
  {
    hide CoreOk, Queues, DoAdvance, WorkerOk, Pushed;
    match a
    case Push(t, stop) =>
      PushKeepsCore(s, q, t, stop);
      SameCore(s.(known := s.known + {t}), q + [Item(t, stop)], Apply(s, a));
    case Signal(j) =>
      var w := s.clients[j].next;
      var x := s.workers[w].(event := s.workers[w].event + 1);
      CoreWorker(s, q, w);
      SignalIsOk(s.workers[w]);
      SetKeepsCore(s, q, w, x);
      SameCore(Set(s, w, x), q, Apply(s, a));
    case Advance(w) => AdvanceKeepsCore(s, q, w);
    case SendFails(w) =>
      CoreWorker(s, q, w);
      DeadIsOk(s.workers[w]);
      SetKeepsCore(s, q, w, s.workers[w].(pc := Dead));
    case Answer(w) =>
      CoreWorker(s, q, w);
      AnswerKeepsWorker(s.workers[w]);
      SetKeepsCore(s, q, w, Apply(s, a).workers[w]);
    case ServerPings(w) =>
      CoreWorker(s, q, w);
      PingKeepsWorker(s.workers[w]);
      SetKeepsCore(s, q, w, Apply(s, a).workers[w]);
    case Free(t) => FreeKeepsCore(s, q, t);
  }

  lemma SignalIsOk(x: Worker)
    requires WorkerOk(x)
    ensures WorkerOk(x.(event := x.event + 1))
  {
  }

  lemma DeadIsOk(x: Worker)
    requires WorkerOk(x) && x.pc.Send?
    ensures WorkerOk(x.(pc := Dead)) && Active(x.(pc := Dead)).None?
  {
  }

  lemma FreeKeepsCore(s: State, q: seq<Item>, t: Tid)
    requires CoreOk(s, q) && t in s.results
    ensures CoreOk(s.(freed := s.freed + {t}), q)
  {
  }

  // ------------------------------------------------------------ runs

  lemma {:induction false} RunKeepsInv(run: seq<State>, steps: seq<Step>, i: nat) returns (q: seq<Item>)
    requires IsRun(run, steps) && i < |run| && IsPow2(|run[0].workers|) && 2 * |run[0].workers| <= WORD
    ensures Inv(run[i], q)
  {
    hide AllAwake, ClientsKnown, CoreOk, Queues, Enabled, Apply, NextQueue, IsPow2;
    if i == 0 {
      InitInv(run[0]);
      q := [];
    } else {
      var p := RunKeepsInv(run, steps, i - 1);
      var s, a := run[i - 1], steps[i - 1];
      CoreQueue(s, p);
      StepKeepsQueue(s, p, a);
      StepKeepsAwake(s, p, a);
      StepKeepsCore(s, p, a);
      q := NextQueue(s, p, a);
    }
  }

  lemma CoreQueue(s: State, q: seq<Item>)
    requires CoreOk(s, q)
    ensures QueueOk(s, q)
  {
  }

  lemma InitInv(s: State)
    requires Init(s) && IsPow2(|s.workers|) && 2 * |s.workers| <= WORD
    ensures Inv(s, [])
  {
    DoubleIsPow2(|s.workers|);
    assert |s.workers| > 0;
  }

  // The worker is not asleep for want of a wakeup: it is busy with a transaction, signalled, or on
  // its way to pop.
  predicate WillPop(x: Worker) {
    x.pending || x.event > 0 || !(x.pc.Poll? || x.pc.Dead?)
  }

  // No two workers may use the same transaction.
  ghost predicate OneWorkerEach(s: State) {
    forall v, w | 0 <= v < w < |s.workers| && Active(s.workers[v]).Some? :: Active(s.workers[v]) != Active(s.workers[w])
  }

  // With a power of two of workers, in every state of every run: a result is handed to the
  // transaction it answers; a transaction a worker may still use is neither answered nor freed, and
  // with no other worker; the server owes a busy worker its result or has sent it; and of the workers
  // that the client of a queued transaction has signalled, none alive is asleep.
  lemma WorkersAreSafe(run: seq<State>, steps: seq<Step>, i: nat)
    requires IsRun(run, steps) && i < |run| && IsPow2(|run[0].workers|) && 2 * |run[0].workers| <= WORD
    ensures forall t | t in run[i].results :: run[i].results[t] == t
    ensures OneWorkerEach(run[i])
    ensures forall w | 0 <= w < |run[i].workers| && Active(run[i].workers[w]).Some? ::
              Active(run[i].workers[w]).value !in run[i].results && Active(run[i].workers[w]).value !in run[i].freed
    ensures forall w | 0 <= w < |run[i].workers| && run[i].workers[w].pending :: run[i].workers[w].tr.Some? &&
              (run[i].workers[w].wire == run[i].workers[w].tr || OneResult(run[i].workers[w].inbox, run[i].workers[w].tr.value))
    ensures forall q, j, w | q in Items(run[i].ring) && 0 <= j < |run[i].clients| && run[i].clients[j].id == q.id
              && 0 <= w < run[i].clients[j].next && w < |run[i].workers| && !run[i].workers[w].pc.Dead? :: WillPop(run[i].workers[w])
  {
    var q := RunKeepsInv(run, steps, i);
    var s := run[i];
    hide IsPow2, Items, RingOk;
    forall x, j, w | x in q && 0 <= j < |s.clients| && s.clients[j].id == x.id && 0 <= w < s.clients[j].next && w < |s.workers| && !s.workers[w].pc.Dead?
      ensures WillPop(s.workers[w])
    {
      var k :| 0 <= k < |q| && q[k] == x;
      assert Awake(s.workers[w], q, s.clients, w);
    }
  }

  // With a power of two of workers no transaction gets a second result, and none once it is freed; a
  // step hands one over if and only if a worker handles the result it received.
  lemma OneResultEach(run: seq<State>, steps: seq<Step>, i: nat)
    requires IsRun(run, steps) && i < |run| && IsPow2(|run[0].workers|) && 2 * |run[0].workers| <= WORD
    ensures NoDup(run[i].handed)
    ensures i < |steps| ==>
      if steps[i].Advance? && Receives(run[i].workers[steps[i].w]) then HandsOne(run[i], run[i + 1])
      else SameResults(run[i], run[i + 1])
  {
    var q := RunKeepsInv(run, steps, i);
    var s := run[i];
    CoreResults(s, q);
    hide Queues, IsPow2, CoreOk, AllAwake;
    if i < |steps| && steps[i].Advance? && s.workers[steps[i].w].pc.Handle? {
      HandleKeepsCore(s, q, steps[i].w);
    }
  }

  lemma CoreResults(s: State, q: seq<Item>)
    requires CoreOk(s, q)
    ensures NoDup(s.handed)
  {
  }
}
