/**
 * What every run of the flow-request protocol keeps.
 */
module ProtocolSafety {
  import opened Basics
  import opened Protocol
  import opened ProtocolRoutes

  // ------------------------------------------------------------ answers

  function AnsweredId(a: Answer): Id {
    if a.Positive? then a.row.id else a.id
  }

  // The proxy has given the number out.
  ghost predicate Known(proxies: seq<Proxy>, id: Id) {
    id.proxy < |proxies| && id.number < proxies[id.proxy].counter
  }

  ghost predicate QueueOk(x: Proxy, p: nat) {
    NoDup(x.waiting) && forall id | id in x.waiting :: id.proxy == p && id.number < x.counter
  }

  ghost predicate QueuesOk(proxies: seq<Proxy>) {
    forall p | 0 <= p < |proxies| :: QueueOk(proxies[p], p)
  }

  ghost predicate Settled(proxies: seq<Proxy>, a: Answer) {
    Known(proxies, AnsweredId(a)) && AnsweredId(a) !in proxies[AnsweredId(a).proxy].waiting
  }

  ghost predicate AllSettled(proxies: seq<Proxy>, answers: seq<Answer>) {
    forall a | a in answers :: Settled(proxies, a)
  }

  // No request has two answers.
  ghost predicate AnsweredOnce(answers: seq<Answer>) {
    forall i, j | 0 <= i < j < |answers| :: AnsweredId(answers[i]) != AnsweredId(answers[j])
  }

  ghost predicate AnswersOk(s: State) {
    QueuesOk(s.proxies) && AllSettled(s.proxies, s.answers) && AnsweredOnce(s.answers)
  }

  lemma WithoutMembers<T>(q: seq<T>, k: nat)
    requires k < |q|
    ensures forall x | x in Without(q, k) :: x in q
    ensures NoDup(q) ==> NoDup(Without(q, k)) && q[k] !in Without(q, k)
    ensures forall x | x in q && x != q[k] :: x in Without(q, k)
  {
    var w := Without(q, k);
    forall x | x in q && x != q[k]
      ensures x in w
    {
      var i :| 0 <= i < |q| && q[i] == x;
      assert w[if i < k then i else i - 1] == x;
    }
  }

  lemma AskKeepsAnswers(s: State, p: nat)
    requires AnswersOk(s) && p < |s.proxies|
    ensures AnswersOk(DoAsk(s, p))
  {
  }

  lemma AnswerKeepsAnswers(s: State, p: nat, x: Proxy, id: Id, answer: Answer)
    requires AnswersOk(s) && p < |s.proxies| && AnsweredId(answer) == id
    requires x.counter == s.proxies[p].counter && x.waiting == s.proxies[p].waiting
    ensures AnswersOk(DoAnswer(s, p, x, id, answer))
  {
    var k := Find(x.waiting, id);
    if k < |x.waiting| {
      WithoutMembers(x.waiting, k);
      assert id in x.waiting && QueueOk(s.proxies[p], p);
      forall i | 0 <= i < |s.answers|
        ensures AnsweredId(s.answers[i]) != id
      {
        assert s.answers[i] in s.answers && Settled(s.proxies, s.answers[i]);
      }
    }
  }

  lemma ReadKeepsAnswers(s: State, p: nat, x: Proxy)
    requires AnswersOk(s) && p < |s.proxies|
    requires x.counter == s.proxies[p].counter && x.waiting == s.proxies[p].waiting
    ensures AnswersOk(s.(proxies := s.proxies[p := x]))
  {
  }

  lemma StepKeepsAnswers(s: State, a: Step)
    requires AnswersOk(s) && Enabled(s, a)
    ensures AnswersOk(Apply(s, a))
  {
    hide QueuesOk, AllSettled, AnsweredOnce, DoAsk, DoAnswer, Without, Install, Refresh, Copies;
    match a
    case Ask(p) => AskKeepsAnswers(s, p);
    case ProxyReadsReq(p) =>
      var x := s.proxies[p].(reqRead := s.proxies[p].reqRead + 1);
      var e := s.reqLog[s.proxies[p].reqRead];
      ReadKeepsAnswers(s, p, x);
      AnswerKeepsAnswers(s, p, x, e.id, Negative(e.id));
    case ProxyReadsFlow(p) =>
      var x := s.proxies[p].(flowRead := s.proxies[p].flowRead + 1);
      var e := s.flowLog[s.proxies[p].flowRead];
      ReadKeepsAnswers(s, p, x);
      AnswerKeepsAnswers(s, p, x, e.row.id, Positive(e.row));
    case _ =>
  }

  // ------------------------------------------------------------ requests and flows

  // The controller has read the request.
  ghost predicate Seen(log: seq<ReqEvent>, read: nat, id: Id)
    requires read <= |log|
  {
    exists k :: 0 <= k < read && log[k] == Asked(id)
  }

  ghost predicate AskedOnce(log: seq<ReqEvent>) {
    forall i, j | 0 <= i < j < |log| :: log[i].Asked? && log[j].Asked? ==> log[i].id != log[j].id
  }

  ghost predicate AskedKnown(log: seq<ReqEvent>, proxies: seq<Proxy>) {
    forall i | 0 <= i < |log| && log[i].Asked? :: Known(proxies, log[i].id)
  }

  ghost predicate Refuses(e: ReqEvent, id: Id) {
    e.Decided? && e.id == id && !e.status.Pending? && !e.status.Allowed?
  }

  // The request was turned down.
  ghost predicate Refused(log: seq<ReqEvent>, id: Id) {
    exists k :: 0 <= k < |log| && Refuses(log[k], id)
  }

  ghost predicate HasFlow(table: map<Uuid, Row>, id: Id) {
    exists u :: u in table && table[u].id == id
  }

  // A request is read exactly when it is with the workers, turned down, or has a flow, and it is
  // never in two of these at once.
  ghost predicate OneFate(seen: bool, buffered: bool, refused: bool, hasFlow: bool) {
    && (seen <==> buffered || refused || hasFlow)
    && !(buffered && refused) && !(buffered && hasFlow) && !(refused && hasFlow)
  }

  ghost predicate FateOk(s: State, id: Id)
    requires s.reqRead <= |s.reqLog|
  {
    OneFate(Seen(s.reqLog, s.reqRead, id), id in s.buffer, Refused(s.reqLog, id), HasFlow(s.table, id))
  }

  ghost predicate AllFatesOk(s: State)
    requires s.reqRead <= |s.reqLog|
  {
    forall id :: FateOk(s, id)
  }

  ghost predicate OneFlowEach(table: map<Uuid, Row>) {
    forall u, v | u in table && v in table && u != v :: table[u].id != table[v].id
  }

  ghost predicate LogOk(s: State) {
    s.reqRead <= |s.reqLog| && AskedOnce(s.reqLog) && AskedKnown(s.reqLog, s.proxies)
  }

  ghost predicate FatesOk(s: State) {
    LogOk(s) && NoDup(s.buffer) && AllFatesOk(s) && OneFlowEach(s.table)
  }

  lemma SeenAppend(log: seq<ReqEvent>, read: nat, e: ReqEvent, id: Id)
    requires read <= |log|
    ensures Seen(log + [e], read, id) <==> Seen(log, read, id)
  {
    if Seen(log, read, id) {
      var k :| 0 <= k < read && log[k] == Asked(id);
      assert (log + [e])[k] == Asked(id);
    }
  }

  lemma RefusedAppend(log: seq<ReqEvent>, e: ReqEvent, id: Id)
    ensures Refused(log + [e], id) <==> Refused(log, id) || Refuses(e, id)
  {
    var log' := log + [e];
    if Refused(log, id) {
      var k :| 0 <= k < |log| && Refuses(log[k], id);
      assert Refuses(log'[k], id);
    }
    if Refuses(e, id) {
      assert Refuses(log'[|log|], id);
    }
  }

  lemma AskKeepsFates(s: State, p: nat)
    requires FatesOk(s) && p < |s.proxies|
    ensures FatesOk(DoAsk(s, p))
  {
    var s' := DoAsk(s, p);
    var e := Asked(Id(p, s.proxies[p].counter));
    forall id
      ensures FateOk(s', id)
    {
      assert FateOk(s, id);
      SeenAppend(s.reqLog, s.reqRead, e, id);
      RefusedAppend(s.reqLog, e, id);
    }
  }

  lemma SeenNext(log: seq<ReqEvent>, read: nat, id: Id)
    requires read < |log|
    ensures Seen(log, read + 1, id) <==> Seen(log, read, id) || log[read] == Asked(id)
  {
    if Seen(log, read, id) {
      var k :| 0 <= k < read && log[k] == Asked(id);
      assert k < read + 1;
    }
  }

  lemma NotYetSeen(log: seq<ReqEvent>, read: nat)
    requires AskedOnce(log) && read < |log| && log[read].Asked?
    ensures !Seen(log, read, log[read].id)
  {
  }

  lemma ReceiveKeepsFates(s: State)
    requires FatesOk(s) && s.reqRead < |s.reqLog|
    ensures FatesOk(DoReceive(s))
  {
    var s' := DoReceive(s);
    var e := s.reqLog[s.reqRead];
    if e.Asked? {
      NotYetSeen(s.reqLog, s.reqRead);
      assert FateOk(s, e.id);
    }
    forall id
      ensures FateOk(s', id)
    {
      assert FateOk(s, id);
      SeenNext(s.reqLog, s.reqRead, id);
    }
  }

  lemma RejectKeepsFates(s: State, k: nat, st: ReqStatus)
    requires FatesOk(s) && k < |s.buffer| && !st.Pending? && !st.Allowed?
    ensures FatesOk(DoReject(s, k, st))
  {
    var s' := DoReject(s, k, st);
    var e := Decided(s.buffer[k], st);
    WithoutMembers(s.buffer, k);
    forall id
      ensures FateOk(s', id)
    {
      assert FateOk(s, id);
      SeenAppend(s.reqLog, s.reqRead, e, id);
      RefusedAppend(s.reqLog, e, id);
    }
  }

  lemma MarkAllowedKeepsFates(s: State, id: Id)
    requires FatesOk(s)
    ensures FatesOk(DoMarkAllowed(s, id))
  {
    var s' := DoMarkAllowed(s, id);
    var e := Decided(id, Allowed);
    forall i
      ensures FateOk(s', i)
    {
      assert FateOk(s, i);
      SeenAppend(s.reqLog, s.reqRead, e, i);
      RefusedAppend(s.reqLog, e, i);
    }
  }

  lemma HasFlowAdd(table: map<Uuid, Row>, u: Uuid, row: Row, id: Id)
    requires u !in table || table[u].id == row.id
    ensures HasFlow(table[u := row], id) <==> HasFlow(table, id) || row.id == id
  {
    var table' := table[u := row];
    if HasFlow(table, id) {
      var v :| v in table && table[v].id == id;
      assert v in table' && table'[v].id == id;
    }
    if row.id == id {
      assert u in table' && table'[u].id == id;
    }
    if HasFlow(table', id) && row.id != id {
      var v :| v in table' && table'[v].id == id;
      assert v in table;
    }
  }

  lemma CommitKeepsFates(s: State, k: nat, r: nat, b: Bsid, segs: SegList, n: nat, u: Uuid)
    requires FatesOk(s) && k < |s.buffer| && u !in s.table
    ensures FatesOk(DoCommit(s, k, r, b, segs, n, u))
  {
    var s' := DoCommit(s, k, r, b, segs, n, u);
    WithoutMembers(s.buffer, k);
    assert FateOk(s, s.buffer[k]) && !HasFlow(s.table, s.buffer[k]);
    forall id
      ensures FateOk(s', id)
    {
      assert FateOk(s, id);
      HasFlowAdd(s.table, u, s'.table[u], id);
    }
  }

  // A row changed in another column than the request.
  lemma UpdateKeepsFates(s: State, s': State, u: Uuid, row: Row)
    requires FatesOk(s) && u in s.table && row.id == s.table[u].id && s'.table == s.table[u := row]
    requires s'.reqLog == s.reqLog && s'.reqRead == s.reqRead && s'.buffer == s.buffer && s'.proxies == s.proxies
    ensures FatesOk(s')
  {
    forall id
      ensures FateOk(s', id)
    {
      assert FateOk(s, id);
      HasFlowAdd(s.table, u, row, id);
      if s.table[u].id == id { assert HasFlow(s.table, id); }
    }
  }

  // Nothing changed but the queues of the proxies and what others keep.
  lemma OtherKeepsFates(s: State, s': State)
    requires FatesOk(s) && s'.table == s.table
    requires s'.reqLog == s.reqLog && s'.reqRead == s.reqRead && s'.buffer == s.buffer
    requires |s'.proxies| == |s.proxies| && forall p | 0 <= p < |s.proxies| :: s'.proxies[p].counter == s.proxies[p].counter
    ensures FatesOk(s')
  {
    forall id
      ensures FateOk(s', id)
    {
      assert FateOk(s, id);
    }
  }

  lemma StepKeepsFates(s: State, a: Step)
    requires FatesOk(s) && Enabled(s, a)
    ensures FatesOk(Apply(s, a))
  {
    hide FatesOk, DoAsk, DoReceive, DoReject, DoCommit, DoMarkAllowed, Without, Install, Refresh, Copies;
    match a
    case Ask(p) => AskKeepsFates(s, p);
    case Receive => ReceiveKeepsFates(s);
    case Reject(k, st) => RejectKeepsFates(s, k, st);
    case Commit(k, r, b, segs, n, u) => CommitKeepsFates(s, k, r, b, segs, n, u);
    case MarkAllowed(id) => MarkAllowedKeepsFates(s, id);
    case Recompute(u, _) => UpdateKeepsFates(s, Apply(s, a), u, Apply(s, a).table[u]);
    case MarkExpired(u) => StatusKeepsFates(s, s.(doomed := s.doomed - {u}), u, Expired);
    case RouterReads(r) =>
      var s' := Apply(s, a);
      var e := s.flowLog[s.routers[r].read];
      if e.row.router == r && e.Inserted? {
        StatusKeepsFates(s, s.(routers := s'.routers), e.row.uuid, Running);
      } else {
        OtherKeepsFates(s, s');
      }
    case _ => OtherKeepsFates(s, Apply(s, a));
  }

  lemma StatusKeepsFates(s: State, s1: State, u: Uuid, st: FlowStatus)
    requires FatesOk(s) && s1.table == s.table
    requires s1.reqLog == s.reqLog && s1.reqRead == s.reqRead && s1.buffer == s.buffer && s1.proxies == s.proxies
    ensures FatesOk(SetStatus(s1, u, st))
  {
    hide FatesOk;
    var s' := SetStatus(s1, u, st);
    if u in s.table {
      UpdateKeepsFates(s, s', u, s'.table[u]);
    } else {
      OtherKeepsFates(s, s');
    }
  }

  // ------------------------------------------------------------ runs

  // Negative answers come from refusals.
  ghost predicate NegativesOk(s: State) {
    forall a | a in s.answers && a.Negative? :: Refused(s.reqLog, a.id)
  }

  lemma {:induction false} StepKeepsNegatives(s: State, a: Step)
    requires NegativesOk(s) && Enabled(s, a)
    ensures NegativesOk(Apply(s, a))
  {
    var s' := Apply(s, a);
    forall x | x in s'.answers && x.Negative?
      ensures Refused(s'.reqLog, x.id)
    {
      assert x in s.answers ==> Refused(s.reqLog, x.id);
      if a.ProxyReadsReq? && x !in s.answers {
        assert Refuses(s.reqLog[s.proxies[a.p].reqRead], x.id);
      }
      if s'.reqLog != s.reqLog {
        RefusedAppend(s.reqLog, s'.reqLog[|s.reqLog|], x.id);
      }
    }
  }

  ghost predicate Inv(s: State) {
    AnswersOk(s) && FatesOk(s) && NegativesOk(s) && FlowsOk(s)
  }

  lemma {:induction false} RunKeepsInv(run: seq<State>, steps: seq<Step>, i: nat)
    requires IsRun(run, steps) && i < |run|
    ensures Inv(run[i])
  {
    hide Inv, Apply, Enabled;
    if i == 0 {
      var proxies: nat, routers: nat :| run[0] == Init(proxies, routers);
      InitInv(proxies, routers);
    } else {
      RunKeepsInv(run, steps, i - 1);
      StepKeepsInv(run[i - 1], steps[i - 1]);
    }
  }

  lemma StepKeepsInv(s: State, a: Step)
    requires Inv(s) && Enabled(s, a)
    ensures Inv(Apply(s, a))
  {
    hide AnswersOk, FatesOk, NegativesOk, FlowsOk, Apply, Enabled;
    StepKeepsAnswers(s, a);
    StepKeepsFates(s, a);
    StepKeepsNegatives(s, a);
    StepKeepsFlows(s, a);
  }

  lemma InitInv(proxies: nat, routers: nat)
    ensures Inv(Init(proxies, routers))
  {
  }

  // Every request turned down has no flow, and no request with a flow is answered negatively.
  ghost predicate RejectedHaveNoFlow(s: State) {
    forall id | Refused(s.reqLog, id) || Negative(id) in s.answers :: !HasFlow(s.table, id)
  }

  // The binding segments of every positive answer sent are routed by the access router ...
  ghost predicate PositivesRouted(s: State) {
    forall a, b | a in s.answers && a.Positive? && b in a.row.bsids :: HasRoute(s, a.row, b)
  }

  // ... with segments the controller committed for the flow answered for.
  ghost predicate PositivesOwn(s: State) {
    forall a, b | a in s.answers && a.Positive? && b in a.row.bsids :: HasOwnRoute(s, a.row, b)
  }

  // In every state of every run: no request is answered twice, requests turned down have no flow,
  // and the binding segments handed out are routed; each to segments of the flow it was handed out
  // for, as long as no router's binding segment is in two rows.
  lemma RunsAreSafe(run: seq<State>, steps: seq<Step>, i: nat)
    requires IsRun(run, steps) && i < |run|
    ensures AnsweredOnce(run[i].answers) && RejectedHaveNoFlow(run[i]) && PositivesRouted(run[i])
    ensures OneOwner(run[i]) ==> PositivesOwn(run[i])
  {
    RunKeepsInv(run, steps, i);
    InvIsSafe(run[i]);
  }

  lemma InvIsSafe(s: State)
    requires Inv(s)
    ensures AnsweredOnce(s.answers) && RejectedHaveNoFlow(s) && PositivesRouted(s)
    ensures OneOwner(s) ==> PositivesOwn(s)
  {
    forall id | Refused(s.reqLog, id) || Negative(id) in s.answers
      ensures !HasFlow(s.table, id)
    {
      assert FateOk(s, id);
    }
    forall a, b | a in s.answers && a.Positive? && b in a.row.bsids
      ensures HasRoute(s, a.row, b) && (OneOwner(s) ==> HasOwnRoute(s, a.row, b))
    {
      PositiveRouted(s, a.row, b);
    }
  }

  lemma PositiveRouted(s: State, row: Row, b: Bsid)
    requires FlowsOk(s) && Recorded(s, row) && Told(s, row) && b in row.bsids
    ensures HasRoute(s, row, b) && (OneOwner(s) ==> HasOwnRoute(s, row, b))
  {
    var now := s.table[row.uuid];
    assert Told(s, now);
    assert HasRoute(s, now, b) && (OneOwner(s) ==> HasOwnRoute(s, now, b));
  }
}
