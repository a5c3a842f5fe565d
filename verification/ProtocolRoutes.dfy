/**
 * Why a positive answer means installed routes: rows, what routers have been told, and what
 * they installed.
 */
module ProtocolRoutes {
  import opened Basics
  import opened Protocol

  // The columns that never change.
  ghost predicate SameFlow(a: Row, b: Row) {
    a.uuid == b.uuid && a.id == b.id && a.router == b.router && a.bsids == b.bsids
  }

  ghost predicate WellFormed(row: Row, routers: nat) {
    |row.bsids| == |row.segs| > 0 && row.router < routers
  }

  // The row is a former or present state of one in the table.
  ghost predicate Recorded(s: State, row: Row) {
    row.uuid in s.table && SameFlow(row, s.table[row.uuid]) && WellFormed(row, |s.routers|)
  }

  // The flow's router has read its insertion.
  ghost predicate Told(s: State, row: Row) {
    row.router < |s.routers| &&
    exists j :: 0 <= j < s.routers[row.router].read && j < |s.flowLog| && s.flowLog[j].Inserted? && s.flowLog[j].row.uuid == row.uuid
  }

  // Recorded, and reported running only once its router knows it.
  ghost predicate Honest(s: State, row: Row) {
    Recorded(s, row) && (row.status.Running? ==> Told(s, row))
  }

  ghost predicate RowsOk(s: State) {
    forall u | u in s.table :: s.table[u].uuid == u && Honest(s, s.table[u])
  }

  ghost predicate EventsOk(s: State) {
    forall e | e in s.flowLog :: Honest(s, e.row)
  }

  ghost predicate PositivesOk(s: State) {
    forall a | a in s.answers && a.Positive? :: Recorded(s, a.row) && Told(s, a.row)
  }

  ghost predicate ReadsOk(s: State) {
    forall r | 0 <= r < |s.routers| :: s.routers[r].read <= |s.flowLog|
  }

  // The event is one in which the controller wrote the segments of flow u, these among them.
  ghost predicate Writes(e: FlowEvent, u: Uuid, segs: SegList) {
    (e.Inserted? || e.segments) && e.row.uuid == u && segs in e.row.segs
  }

  // The controller committed these segments for the flow.
  ghost predicate Committed(log: seq<FlowEvent>, u: Uuid, segs: SegList) {
    exists k :: 0 <= k < |log| && Writes(log[k], u, segs)
  }

  // The binding segment is in the routes of the flow's router.
  ghost predicate HasRoute(s: State, row: Row, b: Bsid) {
    row.router < |s.routers| && b in s.routers[row.router].routes
  }

  // ... with segments committed for that flow.
  ghost predicate HasOwnRoute(s: State, row: Row, b: Bsid) {
    HasRoute(s, row, b) && Committed(s.flowLog, row.uuid, s.routers[row.router].routes[b])
  }

  ghost predicate RoutesThere(s: State) {
    forall u, b | u in s.table && Told(s, s.table[u]) && b in s.table[u].bsids :: HasRoute(s, s.table[u], b)
  }

  ghost predicate RoutesOwn(s: State) {
    forall u, b | u in s.table && Told(s, s.table[u]) && b in s.table[u].bsids :: HasOwnRoute(s, s.table[u], b)
  }

  // No two flows of a router have a binding segment in common.
  ghost predicate OneOwner(s: State) {
    forall u, v, b | u in s.table && v in s.table && u != v && b in s.table[u].bsids && b in s.table[v].bsids ::
      s.table[u].router != s.table[v].router
  }

  ghost predicate BaseOk(s: State) {
    RowsOk(s) && EventsOk(s) && PositivesOk(s) && ReadsOk(s)
  }

  ghost predicate FlowsOk(s: State) {
    BaseOk(s) && RoutesThere(s) && (OneOwner(s) ==> RoutesOwn(s))
  }

  // ------------------------------------------------------------ a row inserted or updated

  // The step from s to s' writes the row of event e and nothing else of the flow state.
  ghost predicate Writing(s: State, s': State, e: FlowEvent) {
    && s'.flowLog == s.flowLog + [e] && s'.table == s.table[e.row.uuid := e.row]
    && s'.routers == s.routers && s'.answers == s.answers
    && WellFormed(e.row, |s.routers|)
    && (if e.row.uuid in s.table then SameFlow(e.row, s.table[e.row.uuid]) && e.Updated? else e.Inserted?)
    && (e.row.status.Running? ==> Told(s, e.row))
  }

  lemma TellMore(s: State, s': State, e: FlowEvent, row: Row)
    requires Writing(s, s', e) && ReadsOk(s)
    ensures Told(s', row) <==> Told(s, row)
  {
    if Told(s, row) {
      var j :| 0 <= j < s.routers[row.router].read && j < |s.flowLog| && s.flowLog[j].Inserted? && s.flowLog[j].row.uuid == row.uuid;
      assert s'.flowLog[j] == s.flowLog[j];
    }
  }

  lemma CommittedMore(log: seq<FlowEvent>, e: FlowEvent, u: Uuid, segs: SegList)
    requires Committed(log, u, segs)
    ensures Committed(log + [e], u, segs)
  {
    var k :| 0 <= k < |log| && Writes(log[k], u, segs);
    assert (log + [e])[k] == log[k];
  }

  lemma RecordedMore(s: State, s': State, e: FlowEvent, row: Row)
    requires Writing(s, s', e) && Recorded(s, row)
    ensures Recorded(s', row)
  {
  }

  lemma WritingKeepsBase(s: State, s': State, e: FlowEvent)
    requires BaseOk(s) && Writing(s, s', e)
    ensures BaseOk(s')
  {
    TellMore(s, s', e, e.row);
    forall x | x in s'.flowLog
      ensures Honest(s', x.row)
    {
      if x in s.flowLog {
        RecordedMore(s, s', e, x.row);
        TellMore(s, s', e, x.row);
      }
    }
    forall u | u in s'.table
      ensures s'.table[u].uuid == u && Honest(s', s'.table[u])
    {
      if u != e.row.uuid {
        RecordedMore(s, s', e, s.table[u]);
        TellMore(s, s', e, s.table[u]);
      }
    }
    forall a | a in s'.answers && a.Positive?
      ensures Recorded(s', a.row) && Told(s', a.row)
    {
      RecordedMore(s, s', e, a.row);
      TellMore(s, s', e, a.row);
    }
  }

  // A flow not in the table has not been told of.
  lemma NewIsUntold(s: State, row: Row)
    requires EventsOk(s) && row.uuid !in s.table
    ensures !Told(s, row)
  {
  }

  lemma OwnersBefore(s: State, s': State, e: FlowEvent)
    requires Writing(s, s', e) && OneOwner(s')
    ensures OneOwner(s)
  {
    forall u, v, b | u in s.table && v in s.table && u != v && b in s.table[u].bsids && b in s.table[v].bsids
      ensures s.table[u].router != s.table[v].router
    {
      assert b in s'.table[u].bsids && b in s'.table[v].bsids;
    }
  }

  lemma WritingKeepsRoutes(s: State, s': State, e: FlowEvent)
    requires FlowsOk(s) && Writing(s, s', e)
    ensures FlowsOk(s')
  {
    hide OneOwner;
    WritingKeepsBase(s, s', e);
    if OneOwner(s') { OwnersBefore(s, s', e); }
    forall u, b | u in s'.table && Told(s', s'.table[u]) && b in s'.table[u].bsids
      ensures HasRoute(s', s'.table[u], b)
      ensures OneOwner(s') ==> HasOwnRoute(s', s'.table[u], b)
    {
      TellMore(s, s', e, s'.table[u]);
      if u !in s.table {
        NewIsUntold(s, s'.table[u]);
      }
      assert HasRoute(s, s.table[u], b);
      if OneOwner(s') {
        assert HasOwnRoute(s, s.table[u], b);
        CommittedMore(s.flowLog, e, u, s.routers[s.table[u].router].routes[b]);
      }
    }
  }

  // ------------------------------------------------------------ a router reading an event

  lemma {:induction false} InstallFacts(routes: map<Bsid, SegList>, bsids: seq<Bsid>, segs: seq<SegList>, i: nat, b: Bsid)
    requires |bsids| == |segs|
    ensures var m := Install(routes, bsids, segs, i);
      if b in bsids[if i < |bsids| then i else |bsids|..] then b in m && m[b] in segs
      else (b in m <==> b in routes) && (b in m ==> m[b] == routes[b])
    decreases |segs| - i
  {
    if i < |segs| {
      InstallFacts(routes[bsids[i] := segs[i]], bsids, segs, i + 1, b);
      assert bsids[i..] == [bsids[i]] + bsids[i + 1..];
    }
  }

  lemma {:induction false} RefreshFacts(routes: map<Bsid, SegList>, bsids: seq<Bsid>, segs: seq<SegList>, i: nat, b: Bsid)
    requires |bsids| == |segs|
    ensures var m := Refresh(routes, bsids, segs, i);
      && (b in m <==> b in routes)
      && (b in m ==> if b in bsids[if i < |bsids| then i else |bsids|..] then m[b] in segs else m[b] == routes[b])
    decreases |segs| - i
  {
    if i < |segs| {
      RefreshFacts(if bsids[i] in routes then routes[bsids[i] := segs[i]] else routes, bsids, segs, i + 1, b);
      assert bsids[i..] == [bsids[i]] + bsids[i + 1..];
    }
  }

  // Router r, reading event e, goes from its routes to routes'.
  ghost predicate Reading(s: State, s': State, r: nat, e: FlowEvent, routes': map<Bsid, SegList>) {
    && r < |s.routers| && s.routers[r].read < |s.flowLog| && e == s.flowLog[s.routers[r].read]
    && s'.routers == s.routers[r := Router(routes', s.routers[r].read + 1)]
    && s'.flowLog == s.flowLog && s'.table == s.table && s'.answers == s.answers
  }

  // What became of route b: kept, or set to one of the event's lists.
  ghost predicate RouteMoved(routes: map<Bsid, SegList>, routes': map<Bsid, SegList>, e: FlowEvent, b: Bsid) {
    && (b in routes ==> b in routes')
    && (b in routes' && !(b in routes && routes'[b] == routes[b]) ==>
          b in e.row.bsids && (e.Inserted? || e.segments) && routes'[b] in e.row.segs)
  }

  ghost predicate Moved(routes: map<Bsid, SegList>, routes': map<Bsid, SegList>, e: FlowEvent) {
    forall b :: RouteMoved(routes, routes', e, b)
  }

  lemma ToldOnReading(s: State, s': State, r: nat, e: FlowEvent, routes': map<Bsid, SegList>, row: Row)
    requires Reading(s, s', r, e, routes')
    ensures Told(s', row) <==> Told(s, row) || (row.router == r && e.Inserted? && e.row.uuid == row.uuid)
  {
    if Told(s, row) {
      var j :| 0 <= j < s.routers[row.router].read && j < |s.flowLog| && s.flowLog[j].Inserted? && s.flowLog[j].row.uuid == row.uuid;
      assert s'.flowLog[j] == s.flowLog[j];
    }
    if row.router == r && e.Inserted? && e.row.uuid == row.uuid {
      assert s'.flowLog[s.routers[r].read] == e;
    }
  }

  lemma ReadingKeepsBase(s: State, s': State, r: nat, e: FlowEvent, routes': map<Bsid, SegList>)
    requires BaseOk(s) && Reading(s, s', r, e, routes')
    ensures BaseOk(s')
  {
    hide Told;
    forall row
      ensures Told(s, row) ==> Told(s', row)
    {
      ToldOnReading(s, s', r, e, routes', row);
    }
  }

  // The route a flow has after its router read the event.
  lemma RouteOnReading(s: State, s': State, r: nat, e: FlowEvent, routes': map<Bsid, SegList>, u: Uuid, b: Bsid)
    requires FlowsOk(s) && Reading(s, s', r, e, routes') && Moved(s.routers[r].routes, routes', e)
    requires e.row.router == r || routes' == s.routers[r].routes
    requires e.row.router == r && e.Inserted? ==> forall b | b in e.row.bsids :: b in routes' && routes'[b] in e.row.segs
    requires u in s.table && Told(s', s.table[u]) && b in s.table[u].bsids
    ensures HasRoute(s', s.table[u], b)
    ensures OneOwner(s) ==> HasOwnRoute(s', s.table[u], b)
  {
    var row := s.table[u];
    ToldOnReading(s, s', r, e, routes', row);
    assert Honest(s, e.row);
    assert Told(s, row) ==> HasRoute(s, row, b) && (OneOwner(s) ==> HasOwnRoute(s, row, b));
    assert RouteMoved(s.routers[r].routes, routes', e, b);
    if row.router == r && b in routes' && (e.Inserted? || e.segments) && routes'[b] in e.row.segs {
      assert Writes(s'.flowLog[s.routers[r].read], e.row.uuid, routes'[b]);
    }
  }

  lemma ReadingKeepsRoutes(s: State, s': State, r: nat, e: FlowEvent, routes': map<Bsid, SegList>)
    requires FlowsOk(s) && Reading(s, s', r, e, routes') && Moved(s.routers[r].routes, routes', e)
    requires e.row.router == r || routes' == s.routers[r].routes
    requires e.row.router == r && e.Inserted? ==> forall b | b in e.row.bsids :: b in routes' && routes'[b] in e.row.segs
    ensures FlowsOk(s')
  {
    ReadingKeepsBase(s, s', r, e, routes');
    hide BaseOk, HasRoute, HasOwnRoute, Told, Reading, Moved;
    assert s'.table == s.table by { assert Reading(s, s', r, e, routes'); }
    forall u, b | u in s'.table && Told(s', s'.table[u]) && b in s'.table[u].bsids
      ensures HasRoute(s', s'.table[u], b)
      ensures OneOwner(s') ==> HasOwnRoute(s', s'.table[u], b)
    {
      RouteOnReading(s, s', r, e, routes', u, b);
    }
  }

  // ------------------------------------------------------------ all steps

  lemma RouterKeepsFlows(s: State, r: nat)
    requires FlowsOk(s) && Enabled(s, RouterReads(r))
    ensures FlowsOk(DoRouterReads(s, r))
  {
    var x := s.routers[r];
    var e := s.flowLog[x.read];
    assert Honest(s, e.row);
    hide FlowsOk, Install, Refresh;
    if e.row.router == r && e.Inserted? {
      var routes' := Install(x.routes, e.row.bsids, e.row.segs);
      var s1 := s.(routers := s.routers[r := Router(routes', x.read + 1)]);
      forall b
        ensures RouteMoved(x.routes, routes', e, b) && (b in e.row.bsids ==> b in routes' && routes'[b] in e.row.segs)
      {
        InstallFacts(x.routes, e.row.bsids, e.row.segs, 0, b);
      }
      assert Reading(s, s1, r, e, routes');
      ReadingKeepsRoutes(s, s1, r, e, routes');
      StatusKeepsFlows(s1, e.row.uuid, Running);
    } else if e.row.router == r && e.segments {
      var routes' := Refresh(x.routes, e.row.bsids, e.row.segs);
      forall b
        ensures RouteMoved(x.routes, routes', e, b)
      {
        RefreshFacts(x.routes, e.row.bsids, e.row.segs, 0, b);
      }
      ReadingKeepsRoutes(s, DoRouterReads(s, r), r, e, routes');
    } else {
      ReadingKeepsRoutes(s, DoRouterReads(s, r), r, e, x.routes);
    }
  }

  // Status changes: to running only where the router knows the flow.
  lemma StatusKeepsFlows(s: State, u: Uuid, st: FlowStatus)
    requires FlowsOk(s) && (u in s.table && st.Running? ==> Told(s, s.table[u]))
    ensures FlowsOk(SetStatus(s, u, st))
  {
    if u in s.table {
      var e := Updated(s.table[u].(status := st), false, true);
      assert Honest(s, s.table[u]) && s.table[u].uuid == u;
      WritingKeepsRoutes(s, SetStatus(s, u, st), e);
    }
  }

  // A positive answer is taken from a running row.
  lemma AnswerKeepsFlows(s: State, s': State, e: FlowEvent)
    requires FlowsOk(s) && e in s.flowLog
    requires s'.flowLog == s.flowLog && s'.table == s.table && s'.routers == s.routers
    requires s'.answers == s.answers || (s'.answers == s.answers + [Positive(e.row)] && e.row.status.Running?)
    ensures FlowsOk(s')
  {
    assert Honest(s, e.row);
    OtherKeepsFlows(s, s'.(answers := s.answers));
  }

  // The flow state is as before, and no positive answer is new.
  lemma OtherKeepsFlows(s: State, s': State)
    requires FlowsOk(s) && s'.flowLog == s.flowLog && s'.table == s.table && s'.routers == s.routers
    requires forall a | a in s'.answers && a.Positive? :: a in s.answers
    ensures FlowsOk(s')
  {
    assert forall row :: Told(s', row) <==> Told(s, row);
    hide Told;
  }

  lemma CommitKeepsFlows(s: State, k: nat, r: nat, b: Bsid, segs: SegList, n: nat, u: Uuid)
    requires FlowsOk(s) && Enabled(s, Commit(k, r, b, segs, n, u))
    ensures FlowsOk(DoCommit(s, k, r, b, segs, n, u))
  {
    var s' := DoCommit(s, k, r, b, segs, n, u);
    WritingKeepsRoutes(s, s', Inserted(s'.table[u]));
  }

  lemma RecomputeKeepsFlows(s: State, u: Uuid, segs: SegList)
    requires FlowsOk(s) && u in s.table
    ensures FlowsOk(DoRecompute(s, u, segs))
  {
    var s' := DoRecompute(s, u, segs);
    assert Honest(s, s.table[u]) && s.table[u].uuid == u;
    WritingKeepsRoutes(s, s', Updated(s'.table[u], true, false));
  }

  lemma StepKeepsFlows(s: State, a: Step)
    requires FlowsOk(s) && Enabled(s, a)
    ensures FlowsOk(Apply(s, a))
  {
    hide FlowsOk, DoRecompute, DoCommit, DoRouterReads, SetStatus, Without;
    match a
    case Commit(k, r, b, segs, n, u) => CommitKeepsFlows(s, k, r, b, segs, n, u);
    case Recompute(u, segs) => RecomputeKeepsFlows(s, u, segs);
    case MarkExpired(u) =>
      StatusKeepsFlows(s, u, Expired);
      OtherKeepsFlows(SetStatus(s, u, Expired), Apply(s, a));
    case RouterReads(r) => RouterKeepsFlows(s, r);
    case ProxyReadsFlow(p) => AnswerKeepsFlows(s, Apply(s, a), s.flowLog[s.proxies[p].flowRead]);
    case _ => OtherKeepsFlows(s, Apply(s, a));
  }
}
