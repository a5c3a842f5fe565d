/**
 * When a positive answer names the flow's own route: the exact condition on the binding segments
 * the controller issues.
 */
module ProtocolGuard {
  import opened Basics
  import opened Protocol
  import opened ProtocolRoutes
  import opened ProtocolSafety

  // The request is held back by its proxy.
  ghost predicate Waits(s: State, id: Id) {
    id.proxy < |s.proxies| && id in s.proxies[id.proxy].waiting
  }

  // A flow is committed only under a binding segment that no flow of that router whose request is
  // still waiting has been given.
  ghost predicate Guarded(s: State, a: Step) {
    a.Commit? ==>
      forall u | u in s.table && s.table[u].router == a.router && a.b in s.table[u].bsids :: !Waits(s, s.table[u].id)
  }

  // The proxy's next reading of FlowState sends a positive answer with a binding segment that is
  // not routed to segments of the flow it answers for.
  ghost predicate Misleads(s: State, p: nat) {
    && Enabled(s, ProxyReadsFlow(p))
    && var s' := Apply(s, ProxyReadsFlow(p));
    exists row, b :: s'.answers == s.answers + [Positive(row)] && b in row.bsids && !HasOwnRoute(s', row, b)
  }

  // ------------------------------------------------------------ what guarded runs keep

  predicate WritesSegments(e: FlowEvent) {
    e.Inserted? || e.segments
  }

  // Two flows of a router that share a binding segment.
  ghost predicate Clash(x: Row, y: Row) {
    x.uuid != y.uuid && x.router == y.router && exists b :: b in x.bsids && b in y.bsids
  }

  // Once a later event writes segments under a flow's binding segment, that flow's request no
  // longer waits.
  ghost predicate Outdone(s: State, i: nat, j: nat) {
    0 <= i < j < |s.flowLog| && s.flowLog[i].Inserted? && WritesSegments(s.flowLog[j]) && Clash(s.flowLog[i].row, s.flowLog[j].row)
  }

  ghost predicate OrderOk(s: State) {
    forall i: nat, j: nat | Outdone(s, i, j) :: !Waits(s, s.flowLog[i].row.id)
  }

  ghost predicate InsertedAfter(log: seq<FlowEvent>, i: nat, v: Uuid) {
    exists j :: i < j < |log| && log[j].Inserted? && log[j].row.uuid == v
  }

  // The live holder of a binding segment has no other, and is the last to have been given it.
  ghost predicate Holder(log: seq<FlowEvent>, table: map<Uuid, Row>, b: Bsid, v: Uuid) {
    && v in table && (forall c | c in table[v].bsids :: c == b)
    && forall i | 0 <= i < |log| && log[i].Inserted? && b in log[i].row.bsids && log[i].row.uuid != v :: InsertedAfter(log, i, v)
  }

  ghost predicate LiveOk(s: State) {
    forall b | b in s.flows :: Holder(s.flowLog, s.table, b, s.flows[b])
  }

  // Flows whose requests wait and whose routers know them have their own routes.
  ghost predicate WaitingOwn(s: State) {
    forall u, b | u in s.table && Told(s, s.table[u]) && Waits(s, s.table[u].id) && b in s.table[u].bsids ::
      HasOwnRoute(s, s.table[u], b)
  }

  ghost predicate GuardInv(s: State) {
    OrderOk(s) && LiveOk(s) && WaitingOwn(s)
  }

  // ------------------------------------------------------------ waiting

  // No request with a flow starts to wait.
  ghost predicate FewerWait(s: State, s': State) {
    forall u | u in s.table :: Waits(s', s.table[u].id) ==> Waits(s, s.table[u].id)
  }

  lemma FlowIsKnown(s: State, u: Uuid)
    requires FatesOk(s) && u in s.table
    ensures Known(s.proxies, s.table[u].id)
  {
    var id := s.table[u].id;
    assert FateOk(s, id) && HasFlow(s.table, id);
    var k :| 0 <= k < s.reqRead && s.reqLog[k] == Asked(id);
  }

  lemma AskFewerWait(s: State, p: nat)
    requires FatesOk(s) && p < |s.proxies|
    ensures FewerWait(s, DoAsk(s, p))
  {
    forall u | u in s.table
      ensures Waits(DoAsk(s, p), s.table[u].id) ==> Waits(s, s.table[u].id)
    {
      FlowIsKnown(s, u);
    }
  }

  lemma AnswerFewerWait(s: State, p: nat, x: Proxy, id: Id, answer: Answer)
    requires p < |s.proxies| && x.waiting == s.proxies[p].waiting
    ensures FewerWait(s, DoAnswer(s, p, x, id, answer))
  {
    var k := Find(x.waiting, id);
    if k < |x.waiting| {
      WithoutMembers(x.waiting, k);
    }
  }

  lemma StepFewerWait(s: State, a: Step)
    requires FatesOk(s) && Enabled(s, a)
    ensures FewerWait(s, Apply(s, a))
  {
    hide FatesOk, DoAsk, DoAnswer, Without, Install, Refresh, Copies;
    match a
    case Ask(p) => AskFewerWait(s, p);
    case ProxyReadsReq(p) =>
      var e := s.reqLog[s.proxies[p].reqRead];
      AnswerFewerWait(s, p, s.proxies[p].(reqRead := s.proxies[p].reqRead + 1), e.id, Negative(e.id));
    case ProxyReadsFlow(p) =>
      var e := s.flowLog[s.proxies[p].flowRead];
      AnswerFewerWait(s, p, s.proxies[p].(flowRead := s.proxies[p].flowRead + 1), e.row.id, Positive(e.row));
    case _ =>
  }

  // ------------------------------------------------------------ writing

  lemma WritingKeepsOrder(s: State, s': State, e: FlowEvent)
    requires OrderOk(s) && Writing(s, s', e) && s'.proxies == s.proxies
    requires WritesSegments(e) ==>
      forall i | 0 <= i < |s.flowLog| && s.flowLog[i].Inserted? && Clash(s.flowLog[i].row, e.row) :: !Waits(s, s.flowLog[i].row.id)
    ensures OrderOk(s')
  {
    hide Clash;
    forall i: nat, j: nat | Outdone(s', i, j)
      ensures !Waits(s', s'.flowLog[i].row.id)
    {
      if j < |s.flowLog| {
        assert Outdone(s, i, j);
      }
    }
  }

  lemma InsertedAfterMore(log: seq<FlowEvent>, e: FlowEvent, i: nat, v: Uuid)
    requires InsertedAfter(log, i, v)
    ensures InsertedAfter(log + [e], i, v)
  {
    var j :| i < j < |log| && log[j].Inserted? && log[j].row.uuid == v;
    assert (log + [e])[j] == log[j];
  }

  // A holder stays one when another row is written, or its own in other columns.
  lemma HolderMore(s: State, s': State, e: FlowEvent, b: Bsid, v: Uuid)
    requires Writing(s, s', e) && Holder(s.flowLog, s.table, b, v) && (e.Inserted? ==> b !in e.row.bsids)
    ensures Holder(s'.flowLog, s'.table, b, v)
  {
    forall i | 0 <= i < |s'.flowLog| && s'.flowLog[i].Inserted? && b in s'.flowLog[i].row.bsids && s'.flowLog[i].row.uuid != v
      ensures InsertedAfter(s'.flowLog, i, v)
    {
      assert i < |s.flowLog| && s'.flowLog[i] == s.flowLog[i];
      InsertedAfterMore(s.flowLog, e, i, v);
    }
  }

  lemma WritingKeepsOwn(s: State, s': State, e: FlowEvent)
    requires BaseOk(s) && WaitingOwn(s) && Writing(s, s', e) && s'.proxies == s.proxies
    ensures WaitingOwn(s')
  {
    forall u, b | u in s'.table && Told(s', s'.table[u]) && Waits(s', s'.table[u].id) && b in s'.table[u].bsids
      ensures HasOwnRoute(s', s'.table[u], b)
    {
      var row := s'.table[u];
      TellMore(s, s', e, row);
      if u !in s.table {
        NewIsUntold(s, row);
      }
      assert HasOwnRoute(s, s.table[u], b);
      CommittedMore(s.flowLog, e, u, s.routers[s.table[u].router].routes[b]);
    }
  }

  // A change of status.
  lemma StatusKeepsGuard(s: State, u: Uuid, st: FlowStatus)
    requires BaseOk(s) && GuardInv(s) && (u in s.table && st.Running? ==> Told(s, s.table[u]))
    ensures GuardInv(SetStatus(s, u, st))
  {
    if u in s.table {
      var s', e := SetStatus(s, u, st), Updated(s.table[u].(status := st), false, true);
      assert Honest(s, s.table[u]) && s.table[u].uuid == u;
      assert Writing(s, s', e);
      WritingKeepsOrder(s, s', e);
      WritingKeepsOwn(s, s', e);
      forall b | b in s'.flows
        ensures Holder(s'.flowLog, s'.table, b, s'.flows[b])
      {
        HolderMore(s, s', e, b, s.flows[b]);
      }
    }
  }

  lemma CommitKeepsGuard(s: State, a: Step)
    requires BaseOk(s) && GuardInv(s) && a.Commit? && Enabled(s, a) && Guarded(s, a)
    ensures GuardInv(Apply(s, a))
  {
    var s' := Apply(s, a);
    var row := s'.table[a.u];
    var e := Inserted(row);
    assert Writing(s, s', e) && row.bsids[0] == a.b;
    forall i | 0 <= i < |s.flowLog| && s.flowLog[i].Inserted? && Clash(s.flowLog[i].row, row)
      ensures !Waits(s, s.flowLog[i].row.id)
    {
      assert s.flowLog[i] in s.flowLog && Honest(s, s.flowLog[i].row);
    }
    WritingKeepsOrder(s, s', e);
    WritingKeepsOwn(s, s', e);
    hide OrderOk, WaitingOwn, Clash, BaseOk;
    forall b | b in s'.flows
      ensures Holder(s'.flowLog, s'.table, b, s'.flows[b])
    {
      if b == a.b {
        CommittedIsHolder(s, s', e, b);
      } else {
        HolderMore(s, s', e, b, s.flows[b]);
      }
    }
  }

  lemma CommittedIsHolder(s: State, s': State, e: FlowEvent, b: Bsid)
    requires Writing(s, s', e) && e.Inserted? && forall c | c in e.row.bsids :: c == b
    ensures Holder(s'.flowLog, s'.table, b, e.row.uuid)
  {
    forall i | 0 <= i < |s'.flowLog| && s'.flowLog[i].Inserted? && b in s'.flowLog[i].row.bsids && s'.flowLog[i].row.uuid != e.row.uuid
      ensures InsertedAfter(s'.flowLog, i, e.row.uuid)
    {
      assert s'.flowLog[|s.flowLog|] == e;
    }
  }

  // A live flow is recomputed: the flows it clashes with were outdone when it was inserted.
  lemma RecomputeIsOrdered(s: State, b: Bsid, row: Row, i: nat)
    requires BaseOk(s) && OrderOk(s) && Holder(s.flowLog, s.table, b, row.uuid) && row.uuid in s.table && SameFlow(row, s.table[row.uuid])
    requires i < |s.flowLog| && s.flowLog[i].Inserted? && Clash(s.flowLog[i].row, row)
    ensures !Waits(s, s.flowLog[i].row.id)
  {
    var c :| c in s.flowLog[i].row.bsids && c in row.bsids;
    assert c == b && InsertedAfter(s.flowLog, i, row.uuid);
    var j :| i < j < |s.flowLog| && s.flowLog[j].Inserted? && s.flowLog[j].row.uuid == row.uuid;
    assert s.flowLog[j] in s.flowLog && Honest(s, s.flowLog[j].row);
    assert Clash(s.flowLog[i].row, s.flowLog[j].row);
    assert Outdone(s, i, j);
  }

  lemma RecomputeKeepsGuard(s: State, u: Uuid, segs: SegList)
    requires BaseOk(s) && GuardInv(s) && Enabled(s, Recompute(u, segs))
    ensures GuardInv(DoRecompute(s, u, segs))
  {
    var s' := DoRecompute(s, u, segs);
    var e := Updated(s'.table[u], true, false);
    assert Honest(s, s.table[u]) && s.table[u].uuid == u;
    assert Writing(s, s', e);
    var b :| b in s.flows && s.flows[b] == u;
    forall i | 0 <= i < |s.flowLog| && s.flowLog[i].Inserted? && Clash(s.flowLog[i].row, e.row)
      ensures !Waits(s, s.flowLog[i].row.id)
    {
      RecomputeIsOrdered(s, b, e.row, i);
    }
    WritingKeepsOrder(s, s', e);
    WritingKeepsOwn(s, s', e);
    forall c | c in s'.flows
      ensures Holder(s'.flowLog, s'.table, c, s'.flows[c])
    {
      HolderMore(s, s', e, c, s.flows[c]);
    }
  }

  // ------------------------------------------------------------ reading

  // What an event of another flow writes is not under a binding segment of a waiting flow.
  lemma ReadingKeepsOwn(s: State, s': State, r: nat, e: FlowEvent, routes': map<Bsid, SegList>)
    requires BaseOk(s) && OrderOk(s) && WaitingOwn(s) && s'.proxies == s.proxies
    requires Reading(s, s', r, e, routes') && Moved(s.routers[r].routes, routes', e)
    requires e.row.router == r || routes' == s.routers[r].routes
    requires e.row.router == r && e.Inserted? ==> forall b | b in e.row.bsids :: b in routes' && routes'[b] in e.row.segs
    ensures WaitingOwn(s')
  {
    forall u, b | u in s'.table && Told(s', s'.table[u]) && Waits(s', s'.table[u].id) && b in s'.table[u].bsids
      ensures HasOwnRoute(s', s'.table[u], b)
    {
      OwnOnReading(s, s', r, e, routes', u, b);
    }
  }

  lemma OwnOnReading(s: State, s': State, r: nat, e: FlowEvent, routes': map<Bsid, SegList>, u: Uuid, b: Bsid)
    requires BaseOk(s) && OrderOk(s) && WaitingOwn(s) && s'.proxies == s.proxies
    requires Reading(s, s', r, e, routes') && Moved(s.routers[r].routes, routes', e)
    requires e.row.router == r || routes' == s.routers[r].routes
    requires e.row.router == r && e.Inserted? ==> forall b | b in e.row.bsids :: b in routes' && routes'[b] in e.row.segs
    requires u in s.table && Told(s', s.table[u]) && Waits(s, s.table[u].id) && b in s.table[u].bsids
    ensures HasOwnRoute(s', s.table[u], b)
  {
    var row, k := s.table[u], s.routers[r].read;
    ToldOnReading(s, s', r, e, routes', row);
    assert e in s.flowLog && Honest(s, e.row) && Honest(s, row) && row.uuid == u;
    assert RouteMoved(s.routers[r].routes, routes', e, b);
    if e.row.uuid == u {
      if row.router == r && b in routes' && WritesSegments(e) && routes'[b] in e.row.segs {
        assert Writes(s'.flowLog[k], u, routes'[b]);
      }
    } else if e.row.router == r == row.router && WritesSegments(e) && b in e.row.bsids {
      var j :| 0 <= j < k && j < |s.flowLog| && s.flowLog[j].Inserted? && s.flowLog[j].row.uuid == u;
      assert s.flowLog[j] in s.flowLog && Honest(s, s.flowLog[j].row);
      assert b in s.flowLog[j].row.bsids && Clash(s.flowLog[j].row, e.row);
      assert Outdone(s, j, k);
    }
  }

  lemma RouterKeepsGuard(s: State, r: nat)
    requires FlowsOk(s) && GuardInv(s) && Enabled(s, RouterReads(r))
    ensures GuardInv(DoRouterReads(s, r))
  {
    var x := s.routers[r];
    var e := s.flowLog[x.read];
    assert e in s.flowLog && Honest(s, e.row) && BaseOk(s);
    var routes' := if e.row.router != r then x.routes
                   else if e.Inserted? then Install(x.routes, e.row.bsids, e.row.segs)
                   else if e.segments then Refresh(x.routes, e.row.bsids, e.row.segs) else x.routes;
    var s1 := s.(routers := s.routers[r := Router(routes', x.read + 1)]);
    forall b
      ensures RouteMoved(x.routes, routes', e, b)
      ensures e.row.router == r && e.Inserted? && b in e.row.bsids ==> b in routes' && routes'[b] in e.row.segs
    {
      InstallFacts(x.routes, e.row.bsids, e.row.segs, 0, b);
      RefreshFacts(x.routes, e.row.bsids, e.row.segs, 0, b);
    }
    hide Install, Refresh, FlowsOk, BaseOk, OrderOk, LiveOk, WaitingOwn, RouteMoved;
    assert Reading(s, s1, r, e, routes') && Moved(x.routes, routes', e);
    ReadingKeepsOwn(s, s1, r, e, routes');
    ReadingKeepsBase(s, s1, r, e, routes');
    SameLogKeepsOrder(s, s1);
    SameLogKeepsLive(s, s1);
    if e.row.router == r && e.Inserted? {
      ToldOnReading(s, s1, r, e, routes', s.table[e.row.uuid]);
      StatusKeepsGuard(s1, e.row.uuid, Running);
    }
  }

  // ------------------------------------------------------------ other steps

  lemma SameLogKeepsOrder(s: State, s': State)
    requires BaseOk(s) && OrderOk(s) && s'.flowLog == s.flowLog && FewerWait(s, s')
    ensures OrderOk(s')
  {
    hide Clash;
    forall i: nat, j: nat | Outdone(s', i, j)
      ensures !Waits(s', s'.flowLog[i].row.id)
    {
      assert Outdone(s, i, j);
      assert s.flowLog[i] in s.flowLog && Honest(s, s.flowLog[i].row);
    }
  }

  lemma SameLogKeepsLive(s: State, s': State)
    requires LiveOk(s) && s'.flowLog == s.flowLog && s'.table == s.table
    requires forall b | b in s'.flows :: b in s.flows && s'.flows[b] == s.flows[b]
    ensures LiveOk(s')
  {
  }

  lemma OtherKeepsGuard(s: State, s': State)
    requires BaseOk(s) && GuardInv(s) && s'.flowLog == s.flowLog && s'.table == s.table && s'.routers == s.routers && FewerWait(s, s')
    requires forall b | b in s'.flows :: b in s.flows && s'.flows[b] == s.flows[b]
    ensures GuardInv(s')
  {
    SameLogKeepsOrder(s, s');
    SameLogKeepsLive(s, s');
    assert forall row :: Told(s', row) <==> Told(s, row);
    hide Told, OrderOk, LiveOk, BaseOk;
  }

  lemma StepKeepsGuard(s: State, a: Step)
    requires Inv(s) && GuardInv(s) && Enabled(s, a) && Guarded(s, a)
    ensures GuardInv(Apply(s, a))
  {
    StepFewerWait(s, a);
    assert BaseOk(s);
    hide BaseOk, GuardInv, FlowsOk, AnswersOk, FatesOk, NegativesOk, DoRecompute, DoRouterReads, SetStatus, Without, Waits, FewerWait;
    match a
    case Commit(_, _, _, _, _, _) => CommitKeepsGuard(s, a);
    case Recompute(u, segs) => RecomputeKeepsGuard(s, u, segs);
    case MarkExpired(u) =>
      StatusKeepsGuard(s, u, Expired);
      DoomedKeepsGuard(SetStatus(s, u, Expired), Apply(s, a).doomed);
    case RouterReads(r) => RouterKeepsGuard(s, r);
    case _ => OtherKeepsGuard(s, Apply(s, a));
  }

  lemma DoomedKeepsGuard(s: State, doomed: set<Uuid>)
    requires GuardInv(s)
    ensures GuardInv(s.(doomed := doomed))
  {
    var s' := s.(doomed := doomed);
    assert forall id :: Waits(s', id) <==> Waits(s, id);
    assert forall row :: Told(s', row) <==> Told(s, row);
    assert forall i: nat, j: nat :: Outdone(s', i, j) <==> Outdone(s, i, j);
    hide Waits, Told, Outdone;
  }

  // ------------------------------------------------------------ runs

  ghost predicate GuardedRun(run: seq<State>, steps: seq<Step>) {
    IsRun(run, steps) && forall i | 0 <= i < |steps| :: Guarded(run[i], steps[i])
  }

  lemma {:induction false} RunKeepsGuard(run: seq<State>, steps: seq<Step>, i: nat)
    requires GuardedRun(run, steps) && i < |run|
    ensures Inv(run[i]) && GuardInv(run[i])
  {
    hide Inv, GuardInv, Apply, Enabled;
    RunKeepsInv(run, steps, i);
    if i == 0 {
      var proxies: nat, routers: nat :| run[0] == Init(proxies, routers);
      InitGuard(proxies, routers);
    } else {
      RunKeepsGuard(run, steps, i - 1);
      StepKeepsGuard(run[i - 1], steps[i - 1]);
    }
  }

  lemma InitGuard(proxies: nat, routers: nat)
    ensures GuardInv(Init(proxies, routers))
  {
  }

  // The answer about to be sent is for a waiting request whose router knows the flow.
  lemma NextAnswerIsOwn(s: State, p: nat, row: Row, b: Bsid)
    requires Inv(s) && WaitingOwn(s) && Enabled(s, ProxyReadsFlow(p))
    requires Apply(s, ProxyReadsFlow(p)).answers == s.answers + [Positive(row)] && b in row.bsids
    ensures HasOwnRoute(Apply(s, ProxyReadsFlow(p)), row, b)
  {
    var s' := Apply(s, ProxyReadsFlow(p));
    assert s'.answers[|s.answers|] == Positive(row);
    var e := s.flowLog[s.proxies[p].flowRead];
    assert e in s.flowLog && e.row == row && Honest(s, row) && Told(s, row);
    assert row.id in s.proxies[p].waiting && QueueOk(s.proxies[p], p);
    assert Told(s, s.table[row.uuid]) && Waits(s, row.id);
    assert HasOwnRoute(s, s.table[row.uuid], b);
  }

  // In every run that commits flows under the guard, each positive answer, when it is sent, names
  // only binding segments that are routed to segments committed for the flow answered for.
  lemma GuardedAnswersAreOwn(run: seq<State>, steps: seq<Step>, i: nat, row: Row, b: Bsid)
    requires GuardedRun(run, steps) && i < |steps| && steps[i].ProxyReadsFlow?
    requires run[i + 1].answers == run[i].answers + [Positive(row)] && b in row.bsids
    ensures HasOwnRoute(run[i + 1], row, b)
  {
    RunKeepsGuard(run, steps, i);
    NextAnswerIsOwn(run[i], steps[i].p, row, b);
  }
}
