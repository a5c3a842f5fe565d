/**
 * The protocol with the controller's request ring: the monitor pushes requests into it, waiting for
 * room, and the worker threads pop them. The requests in the workers' hands are the buffer of the
 * protocol's state.
 */
module ProtocolRing {
  import opened Basics
  import opened RingMask
  import opened Rings
  import opened Protocol
  import opened ProtocolRoutes
  import opened ProtocolSafety
  import opened ProtocolGuard
  import opened ProtocolAnswers

  datatype Ringed = Ringed(base: State, ring: Ring<Id>, threads: nat, taken: seq<Id>)

  datatype Move = Hand | Take | Other(a: Step)

  ghost predicate Starts(x: Ringed) {
    && (exists proxies: nat, routers: nat :: x.base == Init(proxies, routers))
    && |x.ring.data| > 0 && x.ring.read == x.ring.write == x.ring.full == 0 && x.taken == []
  }

  predicate CanMove(x: Ringed, m: Move) {
    |x.ring.data| > 0 &&
    match m
    case Hand => x.base.reqRead < |x.base.reqLog| && (x.base.reqLog[x.base.reqRead].Asked? ==> HasRoom(x.ring))
    case Take => x.ring.full > 0 && |x.base.buffer| + |x.base.committed| < x.threads
    case Other(a) => !a.Receive? && Enabled(x.base, a)
  }

  function After(x: Ringed, m: Move): Ringed
    requires CanMove(x, m)
  {
    match m
    case Hand =>
      var e := x.base.reqLog[x.base.reqRead];
      x.(base := x.base.(reqRead := x.base.reqRead + 1), ring := if e.Asked? then Pushed(x.ring, e.id) else x.ring)
    case Take =>
      var id := Front(x.ring);
      x.(base := x.base.(buffer := x.base.buffer + [id]), ring := Popped(x.ring), taken := x.taken + [id])
    case Other(a) => x.(base := Apply(x.base, a))
  }

  ghost predicate IsRingRun(run: seq<Ringed>, moves: seq<Move>) {
    && |run| == |moves| + 1 && Starts(run[0])
    && forall i | 0 <= i < |moves| :: CanMove(run[i], moves[i]) && run[i + 1] == After(run[i], moves[i])
  }

  ghost predicate EndsAt(run: seq<Ringed>, moves: seq<Move>, x: Ringed) {
    IsRingRun(run, moves) && run[|moves|] == x
  }

  ghost predicate RingReached(x: Ringed) {
    exists run, moves :: EndsAt(run, moves, x)
  }

  // ------------------------------------------------------------ powers of two: the ring is a queue

  ghost predicate Sized(x: Ringed) {
    RingOk(x.ring) && IsPow2(|x.ring.data|) && |x.ring.data| <= WORD
  }

  // The protocol's state with the queue the ring stands for.
  ghost function Queued(x: Ringed): State {
    x.base.(buffer := x.base.buffer + Items(x.ring))
  }

  // The protocol's step a move amounts to.
  function StepOf(m: Move): Step
    requires !m.Take?
  {
    if m.Hand? then Receive else m.a
  }

  lemma HandIsReceive(x: Ringed)
    requires Sized(x) && CanMove(x, Hand)
    ensures Sized(After(x, Hand)) && Enabled(Queued(x), Receive) && Queued(After(x, Hand)) == Apply(Queued(x), Receive)
  {
    hide IsPow2, Items, Pushed, RingOk;
    var e := x.base.reqLog[x.base.reqRead];
    if e.Asked? {
      PushAppends(x.ring, e.id);
      assert x.base.buffer + Items(x.ring) + [e.id] == x.base.buffer + (Items(x.ring) + [e.id]);
    }
  }

  lemma TakeIsSilent(x: Ringed)
    requires Sized(x) && CanMove(x, Take)
    ensures Sized(After(x, Take)) && Queued(After(x, Take)) == Queued(x)
  {
    hide IsPow2, Items, Popped, RingOk, Front;
    PopDrops(x.ring);
    assert Items(x.ring) == [Items(x.ring)[0]] + Items(x.ring)[1..];
    assert x.base.buffer + [Front(x.ring)] + Items(x.ring)[1..] == x.base.buffer + Items(x.ring);
  }

  lemma WithoutFirst<T>(s: seq<T>, t: seq<T>, k: nat)
    requires k < |s|
    ensures Without(s + t, k) == Without(s, k) + t
  {
  }

  lemma DecisionIsSame(x: Ringed, a: Step)
    requires CanMove(x, Other(a)) && (a.Reject? || a.Commit?)
    ensures Enabled(Queued(x), a) && Queued(After(x, Other(a))) == Apply(Queued(x), a)
  {
    hide Items, Without, Copies;
    WithoutFirst(x.base.buffer, Items(x.ring), a.k);
  }

  // The other steps do not look at the buffer.
  lemma BufferIsKept(s: State, a: Step, buffer: seq<Id>)
    requires Enabled(s, a) && !a.Receive? && !a.Reject? && !a.Commit?
    ensures Enabled(s.(buffer := buffer), a) && Apply(s.(buffer := buffer), a) == Apply(s, a).(buffer := buffer)
    ensures Apply(s, a).buffer == s.buffer
  {
    hide Without, Copies, DoRouterReads, DoAnswer;
    match a
    case RouterReads(r) => RouterIgnoresBuffer(s, r, buffer);
    case ProxyReadsReq(p) =>
      var e := s.reqLog[s.proxies[p].reqRead];
      AnswerIgnoresBuffer(s, p, s.proxies[p].(reqRead := s.proxies[p].reqRead + 1), e.id, Negative(e.id), buffer);
    case ProxyReadsFlow(p) =>
      var e := s.flowLog[s.proxies[p].flowRead];
      AnswerIgnoresBuffer(s, p, s.proxies[p].(flowRead := s.proxies[p].flowRead + 1), e.row.id, Positive(e.row), buffer);
    case _ =>
  }

  lemma RouterIgnoresBuffer(s: State, r: nat, buffer: seq<Id>)
    requires Enabled(s, RouterReads(r))
    ensures DoRouterReads(s.(buffer := buffer), r) == DoRouterReads(s, r).(buffer := buffer) && DoRouterReads(s, r).buffer == s.buffer
  {
    hide Install, Refresh;
  }

  lemma AnswerIgnoresBuffer(s: State, p: nat, x: Proxy, id: Id, answer: Answer, buffer: seq<Id>)
    requires p < |s.proxies|
    ensures DoAnswer(s.(buffer := buffer), p, x, id, answer) == DoAnswer(s, p, x, id, answer).(buffer := buffer)
    ensures DoAnswer(s, p, x, id, answer).buffer == s.buffer
  {
    hide Without, Find;
  }

  lemma OtherIsSame(x: Ringed, a: Step)
    requires CanMove(x, Other(a))
    ensures Enabled(Queued(x), a) && Queued(After(x, Other(a))) == Apply(Queued(x), a)
  {
    hide Items, Apply, Enabled;
    if a.Reject? || a.Commit? {
      DecisionIsSame(x, a);
    } else {
      BufferIsKept(x.base, a, x.base.buffer + Items(x.ring));
    }
  }

  lemma MoveSteps(x: Ringed, m: Move)
    requires Sized(x) && CanMove(x, m)
    ensures Sized(After(x, m))
    ensures m.Take? ==> Queued(After(x, m)) == Queued(x)
    ensures !m.Take? ==> Enabled(Queued(x), StepOf(m)) && Queued(After(x, m)) == Apply(Queued(x), StepOf(m))
  {
    hide IsPow2, Items, Enabled, Apply, Queued, RingOk;
    match m
    case Hand => HandIsReceive(x);
    case Take => TakeIsSilent(x);
    case Other(a) => OtherIsSame(x, a);
  }

  lemma StartsSized(x: Ringed)
    requires Starts(x) && IsPow2(|x.ring.data|) && |x.ring.data| <= WORD
    ensures Sized(x) && Reached(Queued(x))
  {
    var proxies: nat, routers: nat :| x.base == Init(proxies, routers);
    assert Queued(x) == x.base;
    assert Ends([x.base], [], x.base);
  }

  // Every state of a run is one of the protocol with a queue.
  lemma {:induction false} RingIsQueue(run: seq<Ringed>, moves: seq<Move>, i: nat)
    requires IsRingRun(run, moves) && i < |run| && IsPow2(|run[0].ring.data|) && |run[0].ring.data| <= WORD
    ensures Sized(run[i]) && Reached(Queued(run[i]))
  {
    hide Sized, IsPow2, CanMove, After, Queued, Starts, Reached;
    if i == 0 {
      StartsSized(run[0]);
    } else {
      var x, m := run[i - 1], moves[i - 1];
      RingIsQueue(run, moves, i - 1);
      MoveSteps(x, m);
      if !m.Take? {
        GoOn(Queued(x), StepOf(m), Queued(run[i]));
      }
    }
  }

  // ------------------------------------------------------------ what runs keep

  // What the protocol promises whatever the binding segments.
  ghost predicate Safe(s: State) {
    AnsweredOnce(s.answers) && RejectedHaveNoFlow(s) && OneFlowEach(s.table) && PositivesRouted(s)
  }

  lemma ReachedIsSafe(s: State)
    requires Reached(s)
    ensures Inv(s) && Safe(s) && (OneOwner(s) ==> PositivesOwn(s))
  {
    hide IsRun, AnswersOk, NegativesOk, FlowsOk, AnsweredOnce, RejectedHaveNoFlow, PositivesRouted, PositivesOwn, OneOwner;
    var run, steps :| Ends(run, steps, s);
    EndsRun(run, steps, s);
    RunKeepsInv(run, steps, |steps|);
    InvIsSafe(s);
  }

  lemma EndsRun(run: seq<State>, steps: seq<Step>, s: State)
    requires Ends(run, steps, s)
    ensures IsRun(run, steps) && |run| == |steps| + 1 && run[|steps|] == s
  {
  }

  lemma BufferDoesNotMatter(s: State, s': State)
    requires s' == s.(buffer := s'.buffer)
    ensures Safe(s) ==> Safe(s')
    ensures OneOwner(s') <==> OneOwner(s)
    ensures PositivesOwn(s') <==> PositivesOwn(s)
  {
  }

  // With a power of two of slots, in every state of every run: each request read is in the ring or a
  // worker's hands, turned down, or has one flow, and never two of these; no request is answered
  // twice, requests turned down have no flow, and the binding segments handed out are routed; each to
  // segments of the flow it was handed out for, as long as no router's binding segment is in two rows.
  lemma RingRunsAreSafe(run: seq<Ringed>, moves: seq<Move>, i: nat)
    requires IsRingRun(run, moves) && i < |run| && IsPow2(|run[0].ring.data|) && |run[0].ring.data| <= WORD
    ensures FatesOk(Queued(run[i]))
    ensures Safe(run[i].base) && (OneOwner(run[i].base) ==> PositivesOwn(run[i].base))
  {
    hide Sized, IsPow2, CanMove, After, Starts, Reached, Safe, OneOwner, PositivesOwn, AnswersOk, FatesOk, NegativesOk, FlowsOk;
    RingIsQueue(run, moves, i);
    ReachedIsSafe(Queued(run[i]));
    BufferDoesNotMatter(Queued(run[i]), run[i].base);
  }

  // With a power of two of slots, once the ring is empty, the workers are idle and everything is read,
  // every request made is answered as it was decided.
  lemma RingAnswersAll(run: seq<Ringed>, moves: seq<Move>, i: nat, id: Id)
    requires IsRingRun(run, moves) && i < |run| && IsPow2(|run[0].ring.data|) && |run[0].ring.data| <= WORD
    requires run[i].ring.full == 0 && AllRead(run[i].base) && Known(run[i].base.proxies, id)
    ensures WellAnswered(run[i].base, id)
  {
    hide IsPow2, RingOk, WellAnswered;
    RingIsQueue(run, moves, i);
    var s := Queued(run[i]);
    assert s == run[i].base;
    var r, steps :| Ends(r, steps, s);
    AllAnsweredInTheEnd(r, steps, |steps|, id);
  }

  // ------------------------------------------------------------ guarded runs

  ghost predicate GuardedRingRun(run: seq<Ringed>, moves: seq<Move>) {
    IsRingRun(run, moves) && forall i | 0 <= i < |moves| && moves[i].Other? :: Guarded(run[i].base, moves[i].a)
  }

  lemma {:induction false} RingRunKeepsGuard(run: seq<Ringed>, moves: seq<Move>, i: nat)
    requires GuardedRingRun(run, moves) && i < |run| && IsPow2(|run[0].ring.data|) && |run[0].ring.data| <= WORD
    ensures Sized(run[i]) && Inv(Queued(run[i])) && GuardInv(Queued(run[i]))
  {
    hide Sized, IsPow2, CanMove, After, Starts, Reached, Inv, GuardInv, Safe;
    RingIsQueue(run, moves, i);
    ReachedIsSafe(Queued(run[i]));
    if i == 0 {
      StartIsGuarded(run[0]);
    } else {
      var x, m := run[i - 1], moves[i - 1];
      RingRunKeepsGuard(run, moves, i - 1);
      MoveSteps(x, m);
      if !m.Take? {
        StepKeepsGuard(Queued(x), StepOf(m));
      }
    }
  }

  lemma StartIsGuarded(x: Ringed)
    requires Starts(x)
    ensures GuardInv(Queued(x))
  {
    var proxies: nat, routers: nat :| x.base == Init(proxies, routers);
    assert Queued(x) == x.base;
    InitGuard(proxies, routers);
  }

  // With a power of two of slots and commits that meet the guard, each positive answer, when it is
  // sent, names only binding segments that are routed to segments of the flow answered for.
  lemma RingAnswersAreOwn(run: seq<Ringed>, moves: seq<Move>, i: nat, row: Row, b: Bsid)
    requires GuardedRingRun(run, moves) && IsPow2(|run[0].ring.data|) && |run[0].ring.data| <= WORD
    requires i < |moves| && moves[i].Other? && moves[i].a.ProxyReadsFlow?
    requires run[i + 1].base.answers == run[i].base.answers + [Positive(row)] && b in row.bsids
    ensures HasOwnRoute(run[i + 1].base, row, b)
  {
    hide Sized, IsPow2, Starts, Inv, OrderOk, LiveOk, Enabled, Apply;
    RingRunKeepsGuard(run, moves, i);
    MoveSteps(run[i], moves[i]);
    NextAnswerIsOwn(Queued(run[i]), moves[i].a.p, row, b);
  }
}
