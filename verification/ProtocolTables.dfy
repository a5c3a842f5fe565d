/**
 * What the routers' tables hold: under each binding segment the segments last written for it among
 * the changes the router has read, so that live flows are routed as the controller last decided.
 */
module ProtocolTables {
  import opened Basics
  import opened Protocol
  import opened ProtocolRoutes
  import opened ProtocolSafety
  import opened ProtocolGuard
  import opened ProtocolExact

  // The event writes segments for router r under binding segment b.
  ghost predicate Sets(e: FlowEvent, r: nat, b: Bsid) {
    WritesSegments(e) && e.row.router == r && b in e.row.bsids
  }

  // The last of the first n events to do so.
  ghost function Latest(log: seq<FlowEvent>, n: nat, r: nat, b: Bsid): (k: Option<nat>)
    requires n <= |log|
    ensures k.Some? ==> k.value < n && Sets(log[k.value], r, b) && forall i | k.value < i < n :: !Sets(log[i], r, b)
    ensures k.None? ==> forall i | 0 <= i < n :: !Sets(log[i], r, b)
  {
    if n == 0 then None else if Sets(log[n - 1], r, b) then Some(n - 1) else Latest(log, n - 1, r, b)
  }

  lemma LatestIsUnique(log: seq<FlowEvent>, n: nat, r: nat, b: Bsid, k: nat)
    requires n <= |log| && k < n && Sets(log[k], r, b) && forall i | k < i < n :: !Sets(log[i], r, b)
    ensures Latest(log, n, r, b) == Some(k)
  {
  }

  lemma {:induction false} LatestMore(log: seq<FlowEvent>, e: FlowEvent, n: nat, r: nat, b: Bsid)
    requires n <= |log|
    ensures Latest(log + [e], n, r, b) == Latest(log, n, r, b)
    decreases n
  {
    if n > 0 {
      LatestMore(log, e, n - 1, r, b);
    }
  }

  // The router's route for b is what the last event read says, and there is none without one.
  ghost predicate RouteOk(log: seq<FlowEvent>, x: Router, r: nat, b: Bsid)
    requires x.read <= |log|
  {
    match Latest(log, x.read, r, b)
    case None => b !in x.routes
    case Some(k) => b in x.routes && x.routes[b] in log[k].row.segs
  }

  ghost predicate RoutesOk(s: State) {
    ReadsOk(s) && forall r, b | 0 <= r < |s.routers| :: RouteOk(s.flowLog, s.routers[r], r, b)
  }

  // Changed segments come after the insertion.
  ghost predicate InsertedFirst(log: seq<FlowEvent>) {
    forall k | 0 <= k < |log| && WritesSegments(log[k]) :: HasInsertion(log[..k + 1], log[k].row.uuid)
  }

  // The event at k is the last to write segments of flow u.
  ghost predicate LastOf(log: seq<FlowEvent>, u: Uuid, k: nat) {
    k < |log| && WritesSegments(log[k]) && log[k].row.uuid == u
    && forall i | k < i < |log| && WritesSegments(log[i]) :: log[i].row.uuid != u
  }

  // The row holds the segments last written for the flow.
  ghost predicate RowCurrent(log: seq<FlowEvent>, row: Row) {
    exists k: nat :: LastOf(log, row.uuid, k) && log[k].row.segs == row.segs
  }

  ghost predicate RowsCurrent(s: State) {
    forall u | u in s.table :: RowCurrent(s.flowLog, s.table[u])
  }

  // The live holder of b has no other binding segment, and nobody else was written b since it got it.
  ghost predicate Holds(log: seq<FlowEvent>, table: map<Uuid, Row>, b: Bsid, u: Uuid) {
    && u in table && table[u].bsids != [] && (forall c | c in table[u].bsids :: c == b)
    && forall i | 0 <= i < |log| && WritesSegments(log[i]) && b in log[i].row.bsids && log[i].row.uuid != u :: InsertedAfter(log, i, u)
  }

  ghost predicate HoldersOk(s: State) {
    forall b | b in s.flows :: Holds(s.flowLog, s.table, b, s.flows[b])
  }

  ghost predicate TablesOk(s: State) {
    RoutesOk(s) && InsertedFirst(s.flowLog) && RowsCurrent(s) && HoldersOk(s)
  }

  // ------------------------------------------------------------ writing

  lemma WritingKeepsRouteTables(s: State, s': State, e: FlowEvent)
    requires RoutesOk(s) && Writing(s, s', e)
    ensures RoutesOk(s')
  {
    forall r, b | 0 <= r < |s'.routers|
      ensures RouteOk(s'.flowLog, s'.routers[r], r, b)
    {
      assert RouteOk(s.flowLog, s.routers[r], r, b);
      LatestMore(s.flowLog, e, s.routers[r].read, r, b);
    }
  }

  lemma WritingKeepsFirst(s: State, s': State, e: FlowEvent)
    requires InsertedFirst(s.flowLog) && Writing(s, s', e) && (e.row.uuid in s.table ==> HasInsertion(s.flowLog, e.row.uuid))
    ensures InsertedFirst(s'.flowLog)
  {
    var log, log' := s.flowLog, s'.flowLog;
    forall k | 0 <= k < |log'| && WritesSegments(log'[k])
      ensures HasInsertion(log'[..k + 1], log'[k].row.uuid)
    {
      if k < |log| {
        assert log'[..k + 1] == log[..k + 1];
      } else {
        assert log'[..k + 1] == log';
        InsertionMore(log, e, e.row.uuid);
      }
    }
  }

  lemma WritingKeepsRows(s: State, s': State, e: FlowEvent)
    requires BaseOk(s) && RowsCurrent(s) && Writing(s, s', e)
    requires !WritesSegments(e) ==> e.row.segs == s.table[e.row.uuid].segs
    ensures RowsCurrent(s')
  {
    var log, log' := s.flowLog, s'.flowLog;
    forall u | u in s'.table
      ensures RowCurrent(log', s'.table[u])
    {
      if u == e.row.uuid && WritesSegments(e) {
        assert LastOf(log', u, |log|);
      } else {
        assert s.table[u].uuid == u;
        var k: nat :| LastOf(log, u, k) && log[k].row.segs == s.table[u].segs;
        assert LastOf(log', u, k) && log'[k] == log[k];
      }
    }
  }

  lemma HoldsMore(s: State, s': State, e: FlowEvent, b: Bsid, u: Uuid)
    requires Writing(s, s', e) && Holds(s.flowLog, s.table, b, u) && (WritesSegments(e) && b in e.row.bsids ==> e.row.uuid == u)
    ensures Holds(s'.flowLog, s'.table, b, u)
  {
    forall i | 0 <= i < |s'.flowLog| && WritesSegments(s'.flowLog[i]) && b in s'.flowLog[i].row.bsids && s'.flowLog[i].row.uuid != u
      ensures InsertedAfter(s'.flowLog, i, u)
    {
      assert i < |s.flowLog| && s'.flowLog[i] == s.flowLog[i];
      InsertedAfterMore(s.flowLog, e, i, u);
    }
  }

  // A row is written whose binding segments, if it writes any, no other live flow holds.
  lemma WritingKeepsTables(s: State, s': State, e: FlowEvent)
    requires BaseOk(s) && ReportsOk(s) && TablesOk(s) && Writing(s, s', e)
    requires !WritesSegments(e) ==> e.row.segs == s.table[e.row.uuid].segs
    requires forall b | b in s'.flows :: b in s.flows && s'.flows[b] == s.flows[b] && (WritesSegments(e) && b in e.row.bsids ==> e.row.uuid == s.flows[b])
    ensures TablesOk(s')
  {
    WritingKeepsRouteTables(s, s', e);
    WritingKeepsFirst(s, s', e);
    WritingKeepsRows(s, s', e);
    hide RoutesOk, InsertedFirst, RowsCurrent, Holds, Writing;
    forall b | b in s'.flows
      ensures Holds(s'.flowLog, s'.table, b, s'.flows[b])
    {
      HoldsMore(s, s', e, b, s.flows[b]);
    }
  }

  lemma RowIsHonest(s: State, u: Uuid)
    requires BaseOk(s) && u in s.table
    ensures s.table[u].uuid == u && Honest(s, s.table[u])
  {
  }

  lemma EventIsHonest(s: State, k: nat)
    requires BaseOk(s) && k < |s.flowLog|
    ensures Honest(s, s.flowLog[k].row) && s.table[s.flowLog[k].row.uuid].uuid == s.flowLog[k].row.uuid
  {
    assert s.flowLog[k] in s.flowLog;
  }

  lemma StatusWrites(s: State, u: Uuid, st: FlowStatus)
    requires BaseOk(s) && u in s.table && (st.Running? ==> Told(s, s.table[u]))
    ensures Writing(s, SetStatus(s, u, st), Updated(s.table[u].(status := st), false, true))
  {
    hide BaseOk;
    RowIsHonest(s, u);
  }

  lemma StatusKeepsTables(s: State, u: Uuid, st: FlowStatus)
    requires BaseOk(s) && ReportsOk(s) && TablesOk(s) && (u in s.table && st.Running? ==> Told(s, s.table[u]))
    ensures TablesOk(SetStatus(s, u, st))
  {
    hide BaseOk, ReportsOk, TablesOk, Writing, Told;
    if u in s.table {
      RowIsHonest(s, u);
      StatusWrites(s, u, st);
      WritingKeepsTables(s, SetStatus(s, u, st), Updated(s.table[u].(status := st), false, true));
    }
  }

  lemma CommitWrites(s: State, a: Step)
    requires a.Commit? && Enabled(s, a)
    ensures var row := Apply(s, a).table[a.u]; Writing(s, Apply(s, a), Inserted(row)) && row.bsids != [] && forall c | c in row.bsids :: c == a.b
  {
    assert Apply(s, a).table[a.u].bsids[0] == a.b;
  }

  lemma CommitKeepsTables(s: State, a: Step)
    requires BaseOk(s) && ReportsOk(s) && TablesOk(s) && a.Commit? && Enabled(s, a)
    ensures TablesOk(Apply(s, a))
  {
    hide BaseOk, ReportsOk, RoutesOk, InsertedFirst, RowsCurrent, Holds, Writing, Copies, Without;
    var s' := Apply(s, a);
    var row := s'.table[a.u];
    CommitWrites(s, a);
    SameWriting(s, s', Inserted(row));
    WritingKeepsTables(s, s'.(flows := s.flows), Inserted(row));
    SameRoutes(s'.(flows := s.flows), s');
    forall b | b in s'.flows
      ensures Holds(s'.flowLog, s'.table, b, s'.flows[b])
    {
      if b == a.b {
        NewHolder(s, s', Inserted(row), b);
      } else {
        assert Holds(s'.flowLog, s'.table, b, s.flows[b]);
      }
    }
  }

  lemma SameWriting(s: State, s': State, e: FlowEvent)
    requires Writing(s, s', e)
    ensures Writing(s, s'.(flows := s.flows), e)
  {
  }

  lemma SameRoutes(s: State, s': State)
    requires RoutesOk(s) && RowsCurrent(s) && s' == s.(flows := s'.flows)
    ensures RoutesOk(s') && RowsCurrent(s')
  {
    hide RouteOk, RowCurrent;
  }

  lemma NewHolder(s: State, s': State, e: FlowEvent, b: Bsid)
    requires Writing(s, s', e) && e.Inserted? && e.row.bsids != [] && forall c | c in e.row.bsids :: c == b
    ensures Holds(s'.flowLog, s'.table, b, e.row.uuid)
  {
    forall i | 0 <= i < |s'.flowLog| && WritesSegments(s'.flowLog[i]) && b in s'.flowLog[i].row.bsids && s'.flowLog[i].row.uuid != e.row.uuid
      ensures InsertedAfter(s'.flowLog, i, e.row.uuid)
    {
      assert s'.flowLog[|s.flowLog|] == e;
    }
  }

  lemma RecomputeWrites(s: State, u: Uuid, segs: SegList)
    requires BaseOk(s) && u in s.table
    ensures Writing(s, DoRecompute(s, u, segs), Updated(DoRecompute(s, u, segs).table[u], true, false))
  {
    hide BaseOk;
    RowIsHonest(s, u);
  }

  lemma RecomputeKeepsTables(s: State, u: Uuid, segs: SegList)
    requires BaseOk(s) && ReportsOk(s) && TablesOk(s) && Enabled(s, Recompute(u, segs))
    ensures TablesOk(DoRecompute(s, u, segs))
  {
    hide BaseOk, ReportsOk, RoutesOk, InsertedFirst, RowsCurrent, Writing, Copies;
    var c :| c in s.flows && s.flows[c] == u;
    assert Holds(s.flowLog, s.table, c, u);
    forall b | b in s.flows && b in s.table[u].bsids
      ensures s.flows[b] == u
    {
    }
    hide TablesOk, Holds;
    RowIsHonest(s, u);
    RecomputeWrites(s, u, segs);
    WritingKeepsTables(s, DoRecompute(s, u, segs), Updated(DoRecompute(s, u, segs).table[u], true, false));
  }

  // ------------------------------------------------------------ reading

  lemma OthersRoutes(s: State, s': State, r: nat, e: FlowEvent, routes': map<Bsid, SegList>, q: nat, b: Bsid)
    requires RoutesOk(s) && Reading(s, s', r, e, routes') && q < |s.routers| && q != r
    ensures RouteOk(s'.flowLog, s'.routers[q], q, b)
  {
  }

  // A binding segment whose segments change has been given to the flow before.
  lemma SetBefore(s: State, k: nat, r: nat, b: Bsid)
    requires BaseOk(s) && InsertedFirst(s.flowLog) && k < |s.flowLog| && Sets(s.flowLog[k], r, b) && s.flowLog[k].Updated?
    ensures Latest(s.flowLog, k, r, b).Some?
  {
    hide BaseOk, Told, Latest;
    var log, u := s.flowLog, s.flowLog[k].row.uuid;
    var j :| 0 <= j < |log[..k + 1]| && log[..k + 1][j].Inserted? && log[..k + 1][j].row.uuid == u;
    EventIsHonest(s, j);
    EventIsHonest(s, k);
    assert log[j] == log[..k + 1][j] && j < k && Sets(log[j], r, b);
  }

  ghost function Routed(s: State, r: nat): map<Bsid, SegList>
    requires Enabled(s, RouterReads(r))
  {
    var x, e := s.routers[r], s.flowLog[s.routers[r].read];
    if e.row.router != r then x.routes
    else if e.Inserted? then Install(x.routes, e.row.bsids, e.row.segs)
    else if e.segments then Refresh(x.routes, e.row.bsids, e.row.segs) else x.routes
  }

  // What becomes of the route when the router reads the event.
  lemma RoutedFacts(s: State, r: nat, b: Bsid)
    requires BaseOk(s) && Enabled(s, RouterReads(r))
    ensures var x, e, m := s.routers[r], s.flowLog[s.routers[r].read], Routed(s, r);
      if Sets(e, r, b) then (e.Inserted? || b in x.routes ==> b in m && m[b] in e.row.segs)
      else (b in m <==> b in x.routes) && (b in m ==> m[b] == x.routes[b])
  {
    hide BaseOk, Told, Install, Refresh;
    var x, e := s.routers[r], s.flowLog[s.routers[r].read];
    EventIsHonest(s, x.read);
    InstallFacts(x.routes, e.row.bsids, e.row.segs, 0, b);
    RefreshFacts(x.routes, e.row.bsids, e.row.segs, 0, b);
    assert e.row.bsids[0..] == e.row.bsids;
  }

  lemma RouteRead(s: State, s': State, r: nat, b: Bsid)
    requires BaseOk(s) && RoutesOk(s) && InsertedFirst(s.flowLog) && Enabled(s, RouterReads(r))
    requires Reading(s, s', r, s.flowLog[s.routers[r].read], Routed(s, r))
    ensures RouteOk(s'.flowLog, s'.routers[r], r, b)
  {
    hide BaseOk, InsertedFirst, Routed, Sets;
    var log, x := s.flowLog, s.routers[r];
    var e := log[x.read];
    assert RouteOk(log, x, r, b);
    RoutedFacts(s, r, b);
    if e.Updated? && Sets(e, r, b) {
      SetBefore(s, x.read, r, b);
    }
    assert Latest(log, x.read + 1, r, b) == if Sets(e, r, b) then Some(x.read) else Latest(log, x.read, r, b);
  }

  lemma ReadingKeepsRouteTables(s: State, s1: State, r: nat)
    requires BaseOk(s) && RoutesOk(s) && InsertedFirst(s.flowLog) && Enabled(s, RouterReads(r))
    requires Reading(s, s1, r, s.flowLog[s.routers[r].read], Routed(s, r))
    ensures RoutesOk(s1)
  {
    hide BaseOk, InsertedFirst, RouteOk, Routed;
    forall q, b | 0 <= q < |s1.routers|
      ensures RouteOk(s1.flowLog, s1.routers[q], q, b)
    {
      if q == r {
        RouteRead(s, s1, r, b);
      } else {
        OthersRoutes(s, s1, r, s.flowLog[s.routers[r].read], Routed(s, r), q, b);
      }
    }
  }

  lemma RouterKeepsTables(s: State, r: nat)
    requires BaseOk(s) && ReportsOk(s) && TablesOk(s) && Enabled(s, RouterReads(r))
    ensures TablesOk(DoRouterReads(s, r))
  {
    hide Install, Refresh, BaseOk, ReportsOk, InsertedFirst, RowsCurrent, HoldersOk, RoutesOk, SetStatus;
    var x := s.routers[r];
    var e := s.flowLog[x.read];
    var s1 := s.(routers := s.routers[r := Router(Routed(s, r), x.read + 1)]);
    assert Reading(s, s1, r, e, Routed(s, r));
    ReadingKeepsRouteTables(s, s1, r);
    SameTables(s, s1);
    if e.row.router == r && e.Inserted? {
      ReportKeepsTables(s, s1, r, e, Routed(s, r));
    }
  }

  lemma SameTables(s: State, s1: State)
    requires InsertedFirst(s.flowLog) && RowsCurrent(s) && HoldersOk(s) && s1.flowLog == s.flowLog && s1.table == s.table
    requires forall b | b in s1.flows :: b in s.flows && s1.flows[b] == s.flows[b]
    ensures InsertedFirst(s1.flowLog) && RowsCurrent(s1) && HoldersOk(s1)
  {
  }

  // The router reports the flow it has just installed.
  lemma ReportKeepsTables(s: State, s1: State, r: nat, e: FlowEvent, routes': map<Bsid, SegList>)
    requires BaseOk(s) && ReportsOk(s) && TablesOk(s1) && Reading(s, s1, r, e, routes') && e.Inserted? && e.row.router == r
    ensures TablesOk(SetStatus(s1, e.row.uuid, Running))
  {
    hide BaseOk, RoutesOk, InsertedFirst, RowsCurrent, Holds, Writing, Told, HasInsertion;
    var u := e.row.uuid;
    EventIsHonest(s, s.routers[r].read);
    RowIsHonest(s, u);
    ReadingKeepsBase(s, s1, r, e, routes');
    ToldOnReading(s, s1, r, e, routes', s.table[u]);
    var s', e' := SetStatus(s1, u, Running), Updated(s.table[u].(status := Running), false, true);
    StatusWrites(s1, u, Running);
    WritingKeepsRouteTables(s1, s', e');
    WritingKeepsFirst(s1, s', e');
    WritingKeepsRows(s1, s', e');
    forall b | b in s'.flows
      ensures Holds(s'.flowLog, s'.table, b, s'.flows[b])
    {
      HoldsMore(s1, s', e', b, s1.flows[b]);
    }
  }

  lemma OtherKeepsTables(s: State, s': State)
    requires TablesOk(s) && s'.flowLog == s.flowLog && s'.table == s.table && s'.routers == s.routers
    requires forall b | b in s'.flows :: b in s.flows && s'.flows[b] == s.flows[b]
    ensures TablesOk(s')
  {
    hide RouteOk, RowCurrent, Holds;
  }

  lemma FullBase(s: State)
    requires Full(s)
    ensures BaseOk(s) && ReportsOk(s)
  {
  }

  // Every step keeps the routers' tables a function of what they have read.
  lemma StepKeepsTables(s: State, a: Step)
    requires Full(s) && TablesOk(s) && Enabled(s, a)
    ensures TablesOk(Apply(s, a))
  {
    hide Full, BaseOk, ReportsOk, TablesOk, DoRecompute, DoRouterReads, SetStatus, Without;
    FullBase(s);
    match a
    case Commit(_, _, _, _, _, _) => CommitKeepsTables(s, a);
    case Recompute(u, segs) => RecomputeKeepsTables(s, u, segs);
    case MarkExpired(u) =>
      StatusKeepsTables(s, u, Expired);
      OtherKeepsTables(SetStatus(s, u, Expired), Apply(s, a));
    case RouterReads(r) => RouterKeepsTables(s, r);
    case _ => OtherKeepsTables(s, Apply(s, a));
  }

  // ------------------------------------------------------------ the end of a flow

  ghost predicate HasExpiry(log: seq<FlowEvent>, u: Uuid) {
    exists j :: 0 <= j < |log| && log[j].Updated? && log[j].status && log[j].row.status.Expired? && log[j].row.uuid == u
  }

  // The row is that of a live flow, or its flow was collected and it is marked expired or about to be.
  ghost predicate Ending(s: State, u: Uuid) {
    u in s.flows.Values || u in s.doomed || HasExpiry(s.flowLog, u)
  }

  ghost predicate EndsOk(s: State) {
    forall u | u in s.table :: Ending(s, u)
  }

  lemma ExpiryMore(log: seq<FlowEvent>, log': seq<FlowEvent>, u: Uuid)
    requires log <= log' && HasExpiry(log, u)
    ensures HasExpiry(log', u)
  {
    var j :| 0 <= j < |log| && log[j].Updated? && log[j].status && log[j].row.status.Expired? && log[j].row.uuid == u;
    assert log'[j] == log[j];
  }

  lemma StepKeepsEnds(s: State, a: Step)
    requires BaseOk(s) && EndsOk(s) && Enabled(s, a)
    ensures EndsOk(Apply(s, a))
  {
    hide BaseOk, Install, Refresh, Without, Copies, HasExpiry;
    var s' := Apply(s, a);
    forall u | u in s'.table
      ensures Ending(s', u)
    {
      if HasExpiry(s.flowLog, u) {
        ExpiryMore(s.flowLog, s'.flowLog, u);
      } else if a.Commit? {
        assert a.b in s'.flows && s'.flows[a.b] == a.u;
        if u != a.u && u in s.flows.Values {
          var b :| b in s.flows && s.flows[b] == u;
          assert b in s'.flows && s'.flows[b] == u;
        }
      } else if a.Collect? && u in s.flows.Values {
        var b :| b in s.flows && s.flows[b] == u;
        assert b != a.b ==> b in s'.flows && s'.flows[b] == u;
      } else if a.MarkExpired? && u == a.u {
        RowIsHonest(s, u);
        MarkedExpired(s, u);
      }
    }
  }

  lemma MarkedExpired(s: State, u: Uuid)
    requires u in s.table && s.table[u].uuid == u
    ensures HasExpiry(SetStatus(s, u, Expired).flowLog, u)
  {
    var log' := SetStatus(s, u, Expired).flowLog;
    assert log'[|s.flowLog|] == Updated(s.table[u].(status := Expired), false, true);
  }

  // ------------------------------------------------------------ runs

  lemma {:induction false} RunKeepsTables(run: seq<State>, steps: seq<Step>, i: nat)
    requires IsRun(run, steps) && i < |run|
    ensures Full(run[i]) && TablesOk(run[i]) && EndsOk(run[i])
  {
    hide Full, TablesOk, Apply, Enabled, EndsOk, BaseOk;
    RunIsFull(run, steps, i);
    if i == 0 {
      var proxies: nat, routers: nat :| run[0] == Init(proxies, routers);
      InitTables(proxies, routers);
    } else {
      RunKeepsTables(run, steps, i - 1);
      StepKeepsTables(run[i - 1], steps[i - 1]);
      FullBase(run[i - 1]);
      StepKeepsEnds(run[i - 1], steps[i - 1]);
    }
  }

  lemma InitTables(proxies: nat, routers: nat)
    ensures TablesOk(Init(proxies, routers)) && EndsOk(Init(proxies, routers))
  {
  }

  // In every state of every run a router routes a binding segment if and only if it has read an event
  // that writes segments under it, and then by the last such event.
  lemma RoutersFollowTheLog(run: seq<State>, steps: seq<Step>, i: nat, r: nat, b: Bsid)
    requires IsRun(run, steps) && i < |run| && r < |run[i].routers|
    ensures run[i].routers[r].read <= |run[i].flowLog| && RouteOk(run[i].flowLog, run[i].routers[r], r, b)
  {
    RunKeepsTables(run, steps, i);
  }

  // The last event to write under a live flow's binding segment wrote what its row now holds.
  lemma LatestIsLive(s: State, b: Bsid) returns (k: nat)
    requires Full(s) && TablesOk(s) && b in s.flows
    ensures s.flows[b] in s.table && s.table[s.flows[b]].router < |s.routers|
    ensures Latest(s.flowLog, |s.flowLog|, s.table[s.flows[b]].router, b) == Some(k) && s.flowLog[k].row.segs == s.table[s.flows[b]].segs
  {
    hide Full, RoutesOk, InsertedFirst, BaseOk, ReportsOk, Latest, Told;
    var log, u := s.flowLog, s.flows[b];
    assert Holds(log, s.table, b, u);
    var row := s.table[u];
    assert row.bsids[0] in row.bsids;
    FullBase(s);
    RowIsHonest(s, u);
    k :| LastOf(log, u, k) && log[k].row.segs == row.segs;
    EventIsHonest(s, k);
    forall i | k < i < |log|
      ensures !Sets(log[i], row.router, b)
    {
    }
    LatestIsUnique(log, |log|, row.router, b, k);
  }

  // Once its router has read everything, a live flow's binding segment is routed to the segments the
  // controller decided on last.
  lemma LiveFlowsAreRouted(run: seq<State>, steps: seq<Step>, i: nat, b: Bsid)
    requires IsRun(run, steps) && i < |run| && b in run[i].flows
    ensures run[i].flows[b] in run[i].table
    ensures var row := run[i].table[run[i].flows[b]];
      row.router < |run[i].routers| && (run[i].routers[row.router].read == |run[i].flowLog| ==>
        b in run[i].routers[row.router].routes && run[i].routers[row.router].routes[b] in row.segs)
  {
    RunKeepsTables(run, steps, i);
    var s := run[i];
    var k := LatestIsLive(s, b);
    assert RouteOk(s.flowLog, s.routers[s.table[s.flows[b]].router], s.table[s.flows[b]].router, b);
  }

  // In every state of every run each row is that of a live flow, or of a collected one that is marked
  // expired or about to be.
  lemma RowsEnd(run: seq<State>, steps: seq<Step>, i: nat, u: Uuid)
    requires IsRun(run, steps) && i < |run| && u in run[i].table
    ensures Ending(run[i], u)
  {
    RunKeepsTables(run, steps, i);
  }

  // ------------------------------------------------------------ what a row says

  // The segments last decided on for flow u in the first n steps.
  ghost function LastSegments(steps: seq<Step>, n: nat, u: Uuid): Option<SegList>
    requires n <= |steps|
  {
    if n == 0 then None
    else
      var a := steps[n - 1];
      if (a.Commit? || a.Recompute?) && a.u == u then Some(a.segs) else LastSegments(steps, n - 1, u)
  }

  // At step j a worker committed flow u for the request, on that router and under that binding segment.
  ghost predicate CommittedAt(run: seq<State>, steps: seq<Step>, j: nat, u: Uuid, row: Row) {
    && j < |steps| && j < |run| && steps[j].Commit? && steps[j].u == u
    && steps[j].k < |run[j].buffer| && row.id == run[j].buffer[steps[j].k]
    && row.router == steps[j].router && |row.bsids| == |row.segs| == steps[j].n
    && forall c | c in row.bsids :: c == steps[j].b
  }

  ghost predicate AsDecided(run: seq<State>, steps: seq<Step>, i: nat, u: Uuid)
    requires i < |run| && i <= |steps| && u in run[i].table
  {
    && (exists j: nat :: j < i && CommittedAt(run, steps, j, u, run[i].table[u]))
    && LastSegments(steps, i, u).Some? && forall x | x in run[i].table[u].segs :: x == LastSegments(steps, i, u).value
  }

  lemma SameColumns(run: seq<State>, steps: seq<Step>, j: nat, u: Uuid, row: Row, row': Row)
    requires CommittedAt(run, steps, j, u, row) && SameFlow(row', row) && |row'.segs| == |row.segs|
    ensures CommittedAt(run, steps, j, u, row')
  {
  }

  // What a step does to a row that is there already.
  lemma RowKept(s: State, a: Step, u: Uuid)
    requires BaseOk(s) && Enabled(s, a) && u in s.table
    ensures u in Apply(s, a).table && SameFlow(Apply(s, a).table[u], s.table[u]) && |Apply(s, a).table[u].segs| == |s.table[u].segs|
    ensures Apply(s, a).table[u].segs == s.table[u].segs || (a.Recompute? && a.u == u && forall x | x in Apply(s, a).table[u].segs :: x == a.segs)
    ensures a.Recompute? && a.u == u ==> forall x | x in Apply(s, a).table[u].segs :: x == a.segs
    ensures !(a.Commit? && a.u == u)
  {
    hide BaseOk, Install, Refresh, Without, Told;
    RowIsHonest(s, u);
  }

  // A row that is new was committed in this step.
  lemma RowNew(s: State, a: Step, u: Uuid)
    requires Enabled(s, a) && u in Apply(s, a).table && u !in s.table
    ensures a.Commit? && a.u == u && var row := Apply(s, a).table[u];
      && row.id == s.buffer[a.k] && row.router == a.router && |row.bsids| == |row.segs| == a.n
      && (forall c | c in row.bsids :: c == a.b) && forall x | x in row.segs :: x == a.segs
  {
    hide Install, Refresh, Without;
  }

  // In every state of every run a row is that of a request some worker committed a flow for, with the
  // router and the binding segment chosen then and the segments decided on last.
  lemma {:induction false} RowsAreAsDecided(run: seq<State>, steps: seq<Step>, i: nat, u: Uuid)
    requires IsRun(run, steps) && i < |run| && u in run[i].table
    ensures AsDecided(run, steps, i, u)
  {
    hide Enabled, Apply, CommittedAt, BaseOk;
    assert i > 0 by { InitHasNoRows(run, steps); }
    var s, a := run[i - 1], steps[i - 1];
    assert Enabled(s, a) && run[i] == Apply(s, a);
    if u in s.table {
      RowsAreAsDecided(run, steps, i - 1, u);
      RunKeepsTables(run, steps, i - 1);
      FullBase(s);
      RowKept(s, a, u);
      var j: nat :| j < i - 1 && CommittedAt(run, steps, j, u, s.table[u]);
      SameColumns(run, steps, j, u, s.table[u], run[i].table[u]);
    } else {
      RowNew(s, a, u);
      JustCommitted(run, steps, i - 1, u);
    }
  }

  lemma InitHasNoRows(run: seq<State>, steps: seq<Step>)
    requires IsRun(run, steps)
    ensures run[0].table == map[]
  {
  }

  lemma JustCommitted(run: seq<State>, steps: seq<Step>, j: nat, u: Uuid)
    requires IsRun(run, steps) && j < |steps| && steps[j].Commit? && steps[j].u == u
    ensures u in run[j + 1].table && CommittedAt(run, steps, j, u, run[j + 1].table[u])
  {
    hide Without;
    assert Enabled(run[j], steps[j]) && run[j + 1] == Apply(run[j], steps[j]);
  }
}
