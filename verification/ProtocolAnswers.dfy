/**
 * Every request gets its answer: what the proxies have given out is waiting or answered, what they
 * have read is answered, and once all is read nobody waits.
 */
module ProtocolAnswers {
  import opened Basics
  import opened Protocol
  import opened ProtocolRoutes
  import opened ProtocolSafety
  import opened ProtocolGuard
  import opened ProtocolExact

  ghost predicate Answered(answers: seq<Answer>, id: Id) {
    exists a :: a in answers && AnsweredId(a) == id
  }

  // Every number given out waits or is answered.
  ghost predicate NobodyForgotten(s: State) {
    forall id | Known(s.proxies, id) :: Waits(s, id) || Answered(s.answers, id)
  }

  ghost predicate IsAsked(log: seq<ReqEvent>, id: Id) {
    exists k :: 0 <= k < |log| && log[k] == Asked(id)
  }

  ghost predicate AllAsked(s: State) {
    forall id | Known(s.proxies, id) :: IsAsked(s.reqLog, id)
  }

  ghost predicate IsRefusal(e: ReqEvent) {
    Refuses(e, e.id)
  }

  ghost predicate ReqReadBy(s: State, id: Id, k: nat) {
    id.proxy < |s.proxies| && k < s.proxies[id.proxy].reqRead
  }

  // A request whose proxy has read the refusal no longer waits.
  ghost predicate ReadRefusalsOk(s: State) {
    forall k | 0 <= k < |s.reqLog| && IsRefusal(s.reqLog[k]) && ReqReadBy(s, s.reqLog[k].id, k) :: !Waits(s, s.reqLog[k].id)
  }

  ghost predicate ReqReadsOk(s: State) {
    forall p | 0 <= p < |s.proxies| :: s.proxies[p].reqRead <= |s.reqLog|
  }

  ghost predicate IsAllowed(log: seq<ReqEvent>, id: Id) {
    exists k :: 0 <= k < |log| && log[k] == Decided(id, Allowed)
  }

  // Every flow's request is marked allowed, or about to be.
  ghost predicate AllMarked(s: State) {
    forall u | u in s.table :: s.table[u].id in s.committed || IsAllowed(s.reqLog, s.table[u].id)
  }

  ghost predicate AnswerInv(s: State) {
    NobodyForgotten(s) && AllAsked(s) && ReadRefusalsOk(s) && ReqReadsOk(s) && AllMarked(s)
  }

  // ------------------------------------------------------------ pieces

  lemma LogMore(log: seq<ReqEvent>, e: ReqEvent, id: Id)
    ensures IsAsked(log, id) || e == Asked(id) ==> IsAsked(log + [e], id)
    ensures IsAllowed(log, id) || e == Decided(id, Allowed) ==> IsAllowed(log + [e], id)
  {
    var log' := log + [e];
    assert log'[|log|] == e;
    if IsAsked(log, id) {
      var k :| 0 <= k < |log| && log[k] == Asked(id);
      assert log'[k] == log[k];
    }
    if IsAllowed(log, id) {
      var k :| 0 <= k < |log| && log[k] == Decided(id, Allowed);
      assert log'[k] == log[k];
    }
  }

  lemma RefusedIsKnown(s: State, k: nat)
    requires FatesOk(s) && k < |s.reqLog| && IsRefusal(s.reqLog[k])
    ensures Known(s.proxies, s.reqLog[k].id)
  {
    var id := s.reqLog[k].id;
    assert FateOk(s, id) && Refused(s.reqLog, id);
    var j :| 0 <= j < s.reqRead && s.reqLog[j] == Asked(id);
  }

  // ------------------------------------------------------------ steps

  lemma AskKeepsAnswered(s: State, p: nat)
    requires FatesOk(s) && AnswerInv(s) && p < |s.proxies|
    ensures AnswerInv(DoAsk(s, p))
  {
    var s', e := DoAsk(s, p), Asked(Id(p, s.proxies[p].counter));
    assert s'.proxies[p].waiting[|s.proxies[p].waiting|] == e.id;
    forall id | Known(s'.proxies, id)
      ensures (Waits(s', id) || Answered(s'.answers, id)) && IsAsked(s'.reqLog, id)
    {
      LogMore(s.reqLog, e, id);
      if id != e.id {
        assert Known(s.proxies, id);
      }
    }
    forall k | 0 <= k < |s'.reqLog| && IsRefusal(s'.reqLog[k]) && ReqReadBy(s', s'.reqLog[k].id, k)
      ensures !Waits(s', s'.reqLog[k].id)
    {
      assert s'.reqLog[k] == s.reqLog[k] && ReqReadBy(s, s.reqLog[k].id, k);
      RefusedIsKnown(s, k);
    }
    forall u | u in s.table
      ensures s.table[u].id in s.committed || IsAllowed(s'.reqLog, s.table[u].id)
    {
      LogMore(s.reqLog, e, s.table[u].id);
    }
  }

  // The controller writes a decision that no proxy has read yet.
  lemma DecisionKeepsAnswered(s: State, s': State, e: ReqEvent)
    requires AnswerInv(s) && e.Decided? && s'.reqLog == s.reqLog + [e] && s'.proxies == s.proxies && s'.answers == s.answers
    requires s'.table == s.table && (s'.committed == s.committed || (s'.committed == s.committed - {e.id} && e.status.Allowed?))
    ensures AnswerInv(s')
  {
    assert forall id :: Waits(s', id) <==> Waits(s, id);
    forall id | Known(s'.proxies, id)
      ensures IsAsked(s'.reqLog, id)
    {
      LogMore(s.reqLog, e, id);
    }
    forall k | 0 <= k < |s'.reqLog| && IsRefusal(s'.reqLog[k]) && ReqReadBy(s', s'.reqLog[k].id, k)
      ensures !Waits(s', s'.reqLog[k].id)
    {
      assert s'.reqLog[k] == s.reqLog[k] && ReqReadBy(s, s.reqLog[k].id, k);
    }
    forall u | u in s'.table
      ensures s'.table[u].id in s'.committed || IsAllowed(s'.reqLog, s'.table[u].id)
    {
      LogMore(s.reqLog, e, s.table[u].id);
    }
  }

  // Neither requests nor proxies change, and every row stays one of the same request.
  lemma FlowKeepsAnswered(s: State, s': State)
    requires AnswerInv(s) && s'.reqLog == s.reqLog && s'.proxies == s.proxies && s'.answers == s.answers && s.committed <= s'.committed
    requires forall u | u in s'.table :: (u in s.table && s'.table[u].id == s.table[u].id) || s'.table[u].id in s'.committed
    ensures AnswerInv(s')
  {
    assert forall id :: Waits(s', id) <==> Waits(s, id);
    assert forall id, k: nat :: ReqReadBy(s', id, k) <==> ReqReadBy(s, id, k);
    hide Waits, ReqReadBy;
  }

  // What an answer leaves in the queue.
  lemma AnswerTakes(s: State, p: nat, x: Proxy, id: Id, answer: Answer, i: Id)
    requires AnswersOk(s) && p < |s.proxies| && x.waiting == s.proxies[p].waiting && AnsweredId(answer) == id && i.proxy < |s.proxies|
    ensures var s' := DoAnswer(s, p, x, id, answer);
      && (Waits(s', i) <==> Waits(s, i) && !(i == id && i.proxy == p))
      && (Waits(s, i) && !Waits(s', i) ==> Answered(s'.answers, i))
      && (Answered(s.answers, i) ==> Answered(s'.answers, i))
  {
    var q := x.waiting;
    assert QueueOk(s.proxies[p], p);
    var k := Find(q, id);
    if k < |q| {
      WithoutMembers(q, k);
      var s' := DoAnswer(s, p, x, id, answer);
      assert s'.answers[|s.answers|] == answer;
      if Answered(s.answers, i) {
        var a :| a in s.answers && AnsweredId(a) == i;
        assert a in s'.answers;
      }
    }
  }

  // A proxy reads an event and answers a request, or none.
  ghost predicate ProxyMoved(s: State, s': State, p: nat, read: nat) {
    && p < |s.proxies| == |s'.proxies| && s' == s.(proxies := s'.proxies, answers := s'.answers)
    && s'.proxies == s.proxies[p := s.proxies[p].(waiting := s'.proxies[p].waiting, reqRead := read, flowRead := s'.proxies[p].flowRead)]
  }

  lemma ProxyReadsKeepsAnswered(s: State, s': State, p: nat, read: nat)
    requires AnswerInv(s) && p < |s.proxies| && s.proxies[p].reqRead <= read <= |s.reqLog| && ProxyMoved(s, s', p, read)
    requires forall i: Id | i.proxy < |s.proxies| ::
      (Waits(s', i) ==> Waits(s, i)) && (Waits(s, i) && !Waits(s', i) ==> Answered(s'.answers, i)) && (Answered(s.answers, i) ==> Answered(s'.answers, i))
    requires forall k | s.proxies[p].reqRead <= k < read && IsRefusal(s.reqLog[k]) && s.reqLog[k].id.proxy == p :: !Waits(s', s.reqLog[k].id)
    ensures AnswerInv(s')
  {
    forall id | Known(s'.proxies, id)
      ensures Waits(s', id) || Answered(s'.answers, id)
      ensures IsAsked(s'.reqLog, id)
    {
      assert Known(s.proxies, id);
    }
    forall k | 0 <= k < |s'.reqLog| && IsRefusal(s'.reqLog[k]) && ReqReadBy(s', s'.reqLog[k].id, k)
      ensures !Waits(s', s'.reqLog[k].id)
    {
      assert ReqReadBy(s, s.reqLog[k].id, k) ==> !Waits(s, s.reqLog[k].id);
    }
  }

  lemma ReqReadingKeepsAnswered(s: State, p: nat)
    requires AnswersOk(s) && AnswerInv(s) && Enabled(s, ProxyReadsReq(p))
    ensures AnswerInv(DoProxyReadsReq(s, p))
  {
    hide AnswersOk, AnswerInv, Waits, Answered, Without, Find;
    var s', e := DoProxyReadsReq(s, p), s.reqLog[s.proxies[p].reqRead];
    var x := s.proxies[p].(reqRead := s.proxies[p].reqRead + 1);
    forall i: Id | i.proxy < |s.proxies|
      ensures (Waits(s', i) ==> Waits(s, i)) && (Waits(s, i) && !Waits(s', i) ==> Answered(s'.answers, i)) && (Answered(s.answers, i) ==> Answered(s'.answers, i))
      ensures IsRefusal(e) && i == e.id && i.proxy == p ==> !Waits(s', i)
    {
      if IsRefusal(e) {
        AnswerTakes(s, p, x, e.id, Negative(e.id), i);
      } else {
        SameWaiting(s, s', p, i);
      }
    }
    ProxyReadsKeepsAnswered(s, s', p, x.reqRead);
  }

  lemma SameWaiting(s: State, s': State, p: nat, i: Id)
    requires p < |s.proxies| == |s'.proxies| && s'.proxies == s.proxies[p := s'.proxies[p]] && s'.proxies[p].waiting == s.proxies[p].waiting
    ensures Waits(s', i) <==> Waits(s, i)
  {
  }

  lemma FlowReadingKeepsAnswered(s: State, p: nat)
    requires AnswersOk(s) && AnswerInv(s) && Enabled(s, ProxyReadsFlow(p))
    ensures AnswerInv(DoProxyReadsFlow(s, p))
  {
    assert s.proxies[p].reqRead <= |s.reqLog|;
    hide AnswersOk, AnswerInv, Waits, Answered, Without, Find;
    var s', e := DoProxyReadsFlow(s, p), s.flowLog[s.proxies[p].flowRead];
    var x := s.proxies[p].(flowRead := s.proxies[p].flowRead + 1);
    forall i: Id | i.proxy < |s.proxies|
      ensures (Waits(s', i) ==> Waits(s, i)) && (Waits(s, i) && !Waits(s', i) ==> Answered(s'.answers, i)) && (Answered(s.answers, i) ==> Answered(s'.answers, i))
    {
      if IsRunning(e) {
        AnswerTakes(s, p, x, e.row.id, Positive(e.row), i);
      } else {
        SameWaiting(s, s', p, i);
      }
    }
    ProxyReadsKeepsAnswered(s, s', p, x.reqRead);
  }

  lemma StepKeepsAnswered(s: State, a: Step)
    requires Inv(s) && AnswerInv(s) && Enabled(s, a)
    ensures AnswerInv(Apply(s, a))
  {
    hide AnswerInv, AnswersOk, FatesOk, NegativesOk, FlowsOk, DoAsk, Without, Install, Refresh, Copies, DoProxyReadsReq, DoProxyReadsFlow;
    match a
    case Ask(p) => AskKeepsAnswered(s, p);
    case Reject(k, st) => DecisionKeepsAnswered(s, Apply(s, a), Decided(s.buffer[k], st));
    case MarkAllowed(id) => DecisionKeepsAnswered(s, Apply(s, a), Decided(id, Allowed));
    case ProxyReadsReq(p) => ReqReadingKeepsAnswered(s, p);
    case ProxyReadsFlow(p) => FlowReadingKeepsAnswered(s, p);
    case _ => FlowKeepsAnswered(s, Apply(s, a));
  }

  // ------------------------------------------------------------ runs

  lemma {:induction false} RunKeepsAnswered(run: seq<State>, steps: seq<Step>, i: nat)
    requires IsRun(run, steps) && i < |run|
    ensures Full(run[i]) && AnswerInv(run[i])
  {
    hide Full, Inv, AnswerInv, Apply, Enabled;
    RunIsFull(run, steps, i);
    if i == 0 {
      var proxies: nat, routers: nat :| run[0] == Init(proxies, routers);
      InitAnswered(proxies, routers);
    } else {
      RunKeepsAnswered(run, steps, i - 1);
      FullIsInv(run[i - 1]);
      StepKeepsAnswered(run[i - 1], steps[i - 1]);
    }
  }

  lemma FullIsInv(s: State)
    requires Full(s)
    ensures Inv(s) && ProgressOk(s)
  {
  }

  lemma InitAnswered(proxies: nat, routers: nat)
    ensures AnswerInv(Init(proxies, routers))
  {
  }

  // The request is answered as it was decided: negatively if it was turned down, positively with its
  // own flow if it has one.
  ghost predicate WellAnswered(s: State, id: Id) {
    && !Waits(s, id)
    && (Refused(s.reqLog, id) ==> Negative(id) in s.answers)
    && (forall u | u in s.table && s.table[u].id == id :: AnsweredWith(s, u))
  }

  ghost predicate AnsweredWith(s: State, u: Uuid)
    requires u in s.table
  {
    exists row :: Positive(row) in s.answers && SameFlow(row, s.table[u])
  }

  // An answer given is the one decided on.
  lemma AnsweredWell(s: State, id: Id)
    requires Inv(s) && Answered(s.answers, id) && !Waits(s, id)
    ensures WellAnswered(s, id)
  {
    var a :| a in s.answers && AnsweredId(a) == id;
    assert FateOk(s, id);
    if a.Positive? {
      assert Recorded(s, a.row) && s.table[a.row.uuid].id == id;
      assert HasFlow(s.table, id);
      forall u | u in s.table && s.table[u].id == id
        ensures AnsweredWith(s, u)
      {
        assert u == a.row.uuid;
        assert Positive(a.row) in s.answers;
      }
    } else {
      assert a == Negative(id) && Refused(s.reqLog, id);
    }
  }

  // In every state of every run: each number given out is waiting or answered, never both, and a
  // request answered is answered as it was decided.
  lemma WaitingOrAnswered(run: seq<State>, steps: seq<Step>, i: nat, id: Id)
    requires IsRun(run, steps) && i < |run| && Known(run[i].proxies, id)
    ensures Waits(run[i], id) <==> !Answered(run[i].answers, id)
    ensures Answered(run[i].answers, id) ==> WellAnswered(run[i], id)
  {
    RunKeepsAnswered(run, steps, i);
    var s := run[i];
    if Answered(s.answers, id) {
      var a :| a in s.answers && AnsweredId(a) == id;
      assert Settled(s.proxies, a);
      AnsweredWell(s, id);
    }
  }

  // A refusal its proxy has read is answered negatively.
  lemma RefusalsAreAnswered(run: seq<State>, steps: seq<Step>, i: nat, k: nat)
    requires IsRun(run, steps) && i < |run|
    requires k < |run[i].reqLog| && IsRefusal(run[i].reqLog[k]) && ReqReadBy(run[i], run[i].reqLog[k].id, k)
    ensures !Waits(run[i], run[i].reqLog[k].id) && Negative(run[i].reqLog[k].id) in run[i].answers
  {
    RunKeepsAnswered(run, steps, i);
    var s, id := run[i], run[i].reqLog[k].id;
    RefusedIsKnown(s, k);
    AnsweredWell(s, id);
    assert Refuses(s.reqLog[k], id);
  }

  // A report its proxy has read is answered positively, with the flow reported.
  lemma ReportsAreAnswered(run: seq<State>, steps: seq<Step>, i: nat, k: nat)
    requires IsRun(run, steps) && i < |run|
    requires k < |run[i].flowLog| && IsRunning(run[i].flowLog[k]) && ReadBy(run[i], run[i].flowLog[k].row.id, k)
    ensures var row := run[i].flowLog[k].row; !Waits(run[i], row.id) && exists sent :: Positive(sent) in run[i].answers && SameFlow(sent, row)
  {
    RunKeepsAnswered(run, steps, i);
    var s, row := run[i], run[i].flowLog[k].row;
    assert s.flowLog[k] in s.flowLog && Honest(s, row);
    FlowIsKnown(s, row.uuid);
    AnsweredWell(s, row.id);
    assert AnsweredWith(s, row.uuid);
    var sent :| Positive(sent) in s.answers && SameFlow(sent, s.table[row.uuid]);
  }

  // ------------------------------------------------------------ when all is read

  // The workers are idle and every monitor has read everything.
  ghost predicate AllRead(s: State) {
    && s.reqRead == |s.reqLog| && s.buffer == []
    && (forall r | 0 <= r < |s.routers| :: s.routers[r].read == |s.flowLog|)
    && (forall p | 0 <= p < |s.proxies| :: s.proxies[p].reqRead == |s.reqLog| && s.proxies[p].flowRead == |s.flowLog|)
  }

  lemma DecidedWhenRead(s: State, id: Id)
    requires Full(s) && AnswerInv(s) && AllRead(s) && Known(s.proxies, id)
    ensures Refused(s.reqLog, id) || HasFlow(s.table, id)
    ensures !Waits(s, id)
  {
    var j :| 0 <= j < |s.reqLog| && s.reqLog[j] == Asked(id);
    assert Seen(s.reqLog, s.reqRead, id) && FateOk(s, id);
    if Refused(s.reqLog, id) {
      var k :| 0 <= k < |s.reqLog| && Refuses(s.reqLog[k], id);
      assert IsRefusal(s.reqLog[k]) && ReqReadBy(s, id, k);
    } else {
      var u :| u in s.table && s.table[u].id == id;
      RowFacts(s, u);
      assert Honest(s, s.table[u]);
      CaughtUpIsTold(s, u, s.flowLog);
      assert HasReport(s.flowLog, u);
      var t :| 0 <= t < |s.flowLog| && IsRunning(s.flowLog[t]) && s.flowLog[t].row.uuid == u;
      assert s.flowLog[t] in s.flowLog && Honest(s, s.flowLog[t].row);
      assert ReadBy(s, id, t);
    }
  }

  // Once the workers are idle and everything is read, every request ever made has been answered:
  // negatively if it was turned down, otherwise positively with its own flow.
  lemma AllAnsweredInTheEnd(run: seq<State>, steps: seq<Step>, i: nat, id: Id)
    requires IsRun(run, steps) && i < |run| && AllRead(run[i]) && Known(run[i].proxies, id)
    ensures WellAnswered(run[i], id)
    ensures Refused(run[i].reqLog, id) <==> !HasFlow(run[i].table, id)
  {
    RunKeepsAnswered(run, steps, i);
    var s := run[i];
    DecidedWhenRead(s, id);
    assert FateOk(s, id);
    AnsweredWell(s, id);
  }
}
