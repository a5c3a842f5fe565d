/**
 * The guard on commits is exact: a commit that breaks it can always be followed by a positive
 * answer that names another flow's route.
 */
module ProtocolExact {
  import opened Basics
  import opened Protocol
  import opened ProtocolRoutes
  import opened ProtocolSafety
  import opened ProtocolGuard

  // Guarded steps go from s to s'.
  ghost predicate Takes(s: State, steps: seq<Step>, s': State)
    decreases |steps|
  {
    if steps == [] then s' == s
    else Enabled(s, steps[0]) && Guarded(s, steps[0]) && Takes(Apply(s, steps[0]), steps[1..], s')
  }

  ghost predicate Leads(s: State, s': State) {
    exists steps :: Takes(s, steps, s')
  }

  lemma LeadsNowhere(s: State)
    ensures Leads(s, s)
  {
    assert Takes(s, [], s);
  }

  lemma {:induction false} TakesMore(s: State, steps: seq<Step>, s1: State, a: Step)
    requires Takes(s, steps, s1) && Enabled(s1, a) && Guarded(s1, a)
    ensures Takes(s, steps + [a], Apply(s1, a))
    decreases |steps|
  {
    hide Enabled, Guarded, Apply;
    if steps == [] {
      assert [a][1..] == [] && steps + [a] == [a];
      assert Takes(Apply(s1, a), [], Apply(s1, a));
    } else {
      TakesMore(Apply(s, steps[0]), steps[1..], s1, a);
      assert (steps + [a])[1..] == steps[1..] + [a];
    }
  }

  lemma LeadsOn(s: State, s1: State, a: Step)
    requires Leads(s, s1) && Enabled(s1, a) && Guarded(s1, a)
    ensures Leads(s, Apply(s1, a))
  {
    var steps :| Takes(s, steps, s1);
    TakesMore(s, steps, s1, a);
  }

  lemma {:induction false} TakesKeepsGuard(s: State, steps: seq<Step>, s': State)
    requires Inv(s) && GuardInv(s) && Takes(s, steps, s')
    ensures Inv(s') && GuardInv(s')
    decreases |steps|
  {
    hide Inv, GuardInv, Enabled, Apply, Guarded;
    if steps != [] {
      StepKeepsInv(s, steps[0]);
      StepKeepsGuard(s, steps[0]);
      TakesKeepsGuard(Apply(s, steps[0]), steps[1..], s');
    }
  }

  // ------------------------------------------------------------ what is reported is read

  ghost predicate IsRunning(e: FlowEvent) {
    e.Updated? && e.status && e.row.status.Running?
  }

  ghost predicate HasInsertion(log: seq<FlowEvent>, u: Uuid) {
    exists j :: 0 <= j < |log| && log[j].Inserted? && log[j].row.uuid == u
  }

  ghost predicate HasReport(log: seq<FlowEvent>, u: Uuid) {
    exists j :: 0 <= j < |log| && IsRunning(log[j]) && log[j].row.uuid == u
  }

  // Every row was inserted, and reported running once its router had read that.
  ghost predicate ReportsOk(s: State) {
    && (forall u | u in s.table :: HasInsertion(s.flowLog, u))
    && (forall u | u in s.table && Told(s, s.table[u]) :: HasReport(s.flowLog, u))
  }

  // The proxy has read the report.
  ghost predicate ReadBy(s: State, id: Id, i: nat) {
    id.proxy < |s.proxies| && i < s.proxies[id.proxy].flowRead
  }

  // A request whose proxy has read the report of its flow no longer waits.
  ghost predicate ReadReportsOk(s: State) {
    forall i | 0 <= i < |s.flowLog| && IsRunning(s.flowLog[i]) && ReadBy(s, s.flowLog[i].row.id, i) ::
      !Waits(s, s.flowLog[i].row.id)
  }

  ghost predicate ProxiesReadOk(s: State) {
    forall p | 0 <= p < |s.proxies| :: s.proxies[p].flowRead <= |s.flowLog|
  }

  ghost predicate ProgressOk(s: State) {
    ReportsOk(s) && ReadReportsOk(s) && ProxiesReadOk(s)
  }

  lemma InsertionMore(log: seq<FlowEvent>, e: FlowEvent, u: Uuid)
    ensures HasInsertion(log, u) ==> HasInsertion(log + [e], u)
    ensures HasReport(log, u) ==> HasReport(log + [e], u)
    ensures e.row.uuid == u ==> (e.Inserted? ==> HasInsertion(log + [e], u)) && (IsRunning(e) ==> HasReport(log + [e], u))
  {
    var log' := log + [e];
    assert log'[|log|] == e;
    if HasInsertion(log, u) {
      var j :| 0 <= j < |log| && log[j].Inserted? && log[j].row.uuid == u;
      assert log'[j] == log[j];
    }
    if HasReport(log, u) {
      var j :| 0 <= j < |log| && IsRunning(log[j]) && log[j].row.uuid == u;
      assert log'[j] == log[j];
    }
  }

  lemma WritingKeepsProgress(s: State, s': State, e: FlowEvent)
    requires BaseOk(s) && ProgressOk(s) && Writing(s, s', e) && s'.proxies == s.proxies
    ensures ProgressOk(s')
  {
    forall u | u in s'.table
      ensures HasInsertion(s'.flowLog, u) && (Told(s', s'.table[u]) ==> HasReport(s'.flowLog, u))
    {
      var row := s'.table[u];
      InsertionMore(s.flowLog, e, u);
      TellMore(s, s', e, row);
      if u !in s.table { NewIsUntold(s, row); }
    }
    forall i | 0 <= i < |s'.flowLog| && IsRunning(s'.flowLog[i]) && ReadBy(s', s'.flowLog[i].row.id, i)
      ensures !Waits(s', s'.flowLog[i].row.id)
    {
      assert i < |s.flowLog| ==> ReadBy(s, s.flowLog[i].row.id, i);
    }
  }

  lemma StatusKeepsProgress(s: State, u: Uuid, st: FlowStatus)
    requires BaseOk(s) && ProgressOk(s) && (u in s.table && st.Running? ==> Told(s, s.table[u]))
    ensures ProgressOk(SetStatus(s, u, st))
  {
    if u in s.table {
      assert Honest(s, s.table[u]) && s.table[u].uuid == u;
      WritingKeepsProgress(s, SetStatus(s, u, st), Updated(s.table[u].(status := st), false, true));
    }
  }

  // The router has read the insertion of a flow of its own, and reports it.
  lemma ReportKeepsProgress(s: State, s1: State, r: nat, e: FlowEvent, routes': map<Bsid, SegList>)
    requires BaseOk(s) && ProgressOk(s) && Reading(s, s1, r, e, routes') && s1.proxies == s.proxies
    requires e.Inserted? && e.row.router == r
    ensures ProgressOk(SetStatus(s1, e.row.uuid, Running))
  {
    var v := e.row.uuid;
    assert e in s.flowLog && Honest(s, e.row) && s.table[v].uuid == v && Honest(s, s.table[v]);
    ReadingKeepsBase(s, s1, r, e, routes');
    ToldOnReading(s, s1, r, e, routes', s.table[v]);
    var s' := SetStatus(s1, v, Running);
    var e' := Updated(s.table[v].(status := Running), false, true);
    assert Writing(s1, s', e');
    forall u | u in s'.table
      ensures HasInsertion(s'.flowLog, u) && (Told(s', s'.table[u]) ==> HasReport(s'.flowLog, u))
    {
      InsertionMore(s.flowLog, e', u);
      TellMore(s1, s', e', s'.table[u]);
      ToldOnReading(s, s1, r, e, routes', s'.table[u]);
    }
    forall i | 0 <= i < |s'.flowLog| && IsRunning(s'.flowLog[i]) && ReadBy(s', s'.flowLog[i].row.id, i)
      ensures !Waits(s', s'.flowLog[i].row.id)
    {
      assert i < |s.flowLog| ==> ReadBy(s, s.flowLog[i].row.id, i);
    }
  }

  // An event that is no insertion of one of the router's flows.
  lemma SkipKeepsProgress(s: State, s': State, r: nat, e: FlowEvent, routes': map<Bsid, SegList>)
    requires BaseOk(s) && ProgressOk(s) && Reading(s, s', r, e, routes') && s'.proxies == s.proxies
    requires !(e.Inserted? && e.row.router == r)
    ensures ProgressOk(s')
  {
    assert e in s.flowLog && Honest(s, e.row);
    forall u | u in s'.table && Told(s', s'.table[u])
      ensures HasReport(s'.flowLog, u)
    {
      assert s.table[u].uuid == u;
      ToldOnReading(s, s', r, e, routes', s.table[u]);
    }
    assert forall id, i: nat :: (ReadBy(s', id, i) <==> ReadBy(s, id, i)) && (Waits(s', id) <==> Waits(s, id));
  }

  lemma RouterKeepsProgress(s: State, r: nat)
    requires BaseOk(s) && ProgressOk(s) && Enabled(s, RouterReads(r))
    ensures ProgressOk(DoRouterReads(s, r))
  {
    hide BaseOk, ProgressOk, Install, Refresh;
    var x := s.routers[r];
    var e := s.flowLog[x.read];
    if e.row.router == r && e.Inserted? {
      var routes' := Install(x.routes, e.row.bsids, e.row.segs);
      ReportKeepsProgress(s, s.(routers := s.routers[r := Router(routes', x.read + 1)]), r, e, routes');
    } else {
      var s' := DoRouterReads(s, r);
      SkipKeepsProgress(s, s', r, e, s'.routers[r].routes);
    }
  }

  // What a proxy's reading of an event leaves in the queue.
  lemma ReadingAnswers(s: State, p: nat, id: Id)
    requires AnswersOk(s) && Enabled(s, ProxyReadsFlow(p)) && id.proxy < |s.proxies|
    ensures var s', e := Apply(s, ProxyReadsFlow(p)), s.flowLog[s.proxies[p].flowRead];
      && s' == s.(proxies := s'.proxies, answers := s'.answers) && |s'.proxies| == |s.proxies|
      && s'.proxies[p].flowRead == s.proxies[p].flowRead + 1
      && (forall q | 0 <= q < |s.proxies| && q != p :: s'.proxies[q] == s.proxies[q])
      && (Waits(s', id) <==> Waits(s, id) && !(IsRunning(e) && id == e.row.id && id.proxy == p))
  {
    var q, e := s.proxies[p].waiting, s.flowLog[s.proxies[p].flowRead];
    assert QueueOk(s.proxies[p], p);
    var k := Find(q, e.row.id);
    if k < |q| { WithoutMembers(q, k); }
  }

  lemma ProxyKeepsProgress(s: State, p: nat)
    requires AnswersOk(s) && ProgressOk(s) && Enabled(s, ProxyReadsFlow(p))
    ensures ProgressOk(Apply(s, ProxyReadsFlow(p)))
  {
    hide Apply, AnswersOk, Waits, IsRunning, ReportsOk;
    var s' := Apply(s, ProxyReadsFlow(p));
    ReadingAnswers(s, p, Id(p, 0));
    SameReports(s, s');
    forall i | 0 <= i < |s'.flowLog| && IsRunning(s'.flowLog[i]) && ReadBy(s', s'.flowLog[i].row.id, i)
      ensures !Waits(s', s'.flowLog[i].row.id)
    {
      ReadingAnswers(s, p, s.flowLog[i].row.id);
      assert !ReadBy(s, s.flowLog[i].row.id, i) ==> i == s.proxies[p].flowRead && s.flowLog[i].row.id.proxy == p;
    }
  }

  lemma SameReports(s: State, s': State)
    requires ReportsOk(s) && s'.flowLog == s.flowLog && s'.table == s.table && s'.routers == s.routers
    ensures ReportsOk(s')
  {
    assert forall row :: Told(s', row) <==> Told(s, row);
    hide Told;
  }

  lemma OtherKeepsProgress(s: State, s': State)
    requires BaseOk(s) && ProgressOk(s) && s'.flowLog == s.flowLog && s'.table == s.table && s'.routers == s.routers && FewerWait(s, s')
    requires |s'.proxies| == |s.proxies| && forall p | 0 <= p < |s.proxies| :: s'.proxies[p].flowRead == s.proxies[p].flowRead
    ensures ProgressOk(s')
  {
    hide ReportsOk;
    SameReports(s, s');
    forall i | 0 <= i < |s'.flowLog| && IsRunning(s'.flowLog[i]) && ReadBy(s', s'.flowLog[i].row.id, i)
      ensures !Waits(s', s'.flowLog[i].row.id)
    {
      assert s.flowLog[i] in s.flowLog && Honest(s, s.flowLog[i].row);
      assert ReadBy(s, s.flowLog[i].row.id, i);
    }
  }

  lemma StepKeepsProgress(s: State, a: Step)
    requires Inv(s) && ProgressOk(s) && Enabled(s, a)
    ensures ProgressOk(Apply(s, a))
  {
    StepFewerWait(s, a);
    assert BaseOk(s);
    hide BaseOk, ProgressOk, FlowsOk, AnswersOk, FatesOk, NegativesOk, DoRouterReads, SetStatus, Without, Waits, FewerWait, DoProxyReadsFlow;
    match a
    case Commit(_, _, _, _, _, u) => CommitKeepsProgress(s, a);
    case Recompute(u, segs) => RecomputeKeepsProgress(s, u, segs);
    case MarkExpired(u) =>
      StatusKeepsProgress(s, u, Expired);
      DoomedKeepsProgress(SetStatus(s, u, Expired), Apply(s, a).doomed);
    case RouterReads(r) => RouterKeepsProgress(s, r);
    case ProxyReadsFlow(p) => ProxyKeepsProgress(s, p);
    case _ => OtherKeepsProgress(s, Apply(s, a));
  }

  lemma CommitKeepsProgress(s: State, a: Step)
    requires BaseOk(s) && ProgressOk(s) && a.Commit? && Enabled(s, a)
    ensures ProgressOk(Apply(s, a))
  {
    var s' := Apply(s, a);
    WritingKeepsProgress(s, s', Inserted(s'.table[a.u]));
  }

  lemma RecomputeKeepsProgress(s: State, u: Uuid, segs: SegList)
    requires BaseOk(s) && ProgressOk(s) && u in s.table
    ensures ProgressOk(DoRecompute(s, u, segs))
  {
    var s' := DoRecompute(s, u, segs);
    assert Honest(s, s.table[u]) && s.table[u].uuid == u;
    WritingKeepsProgress(s, s', Updated(s'.table[u], true, false));
  }

  lemma DoomedKeepsProgress(s: State, doomed: set<Uuid>)
    requires ProgressOk(s)
    ensures ProgressOk(s.(doomed := doomed))
  {
    var s' := s.(doomed := doomed);
    assert forall id :: Waits(s', id) <==> Waits(s, id);
    assert forall row :: Told(s', row) <==> Told(s, row);
    assert forall id, i: nat :: ReadBy(s', id, i) <==> ReadBy(s, id, i);
    hide Waits, Told, ReadBy;
  }

  // ------------------------------------------------------------ from a bad commit to a bad answer

  // A list longer than every list written so far.
  lemma FreshSegments(log: seq<FlowEvent>) returns (segs: SegList)
    ensures forall u :: !Committed(log, u, segs)
  {
    var n: nat := 0;
    for i := 0 to |log|
      invariant forall k, x | 0 <= k < i && x in log[k].row.segs :: |x| < n
    {
      for j := 0 to |log[i].row.segs|
        invariant forall k, x | 0 <= k < i && x in log[k].row.segs :: |x| < n
        invariant forall k | 0 <= k < j :: |log[i].row.segs[k]| < n
      {
        var l := |log[i].row.segs[j]|;
        n := if n <= l then l + 1 else n;
      }
    }
    segs := Copies<nat>(0, n);
    assert |segs| == n;
    forall k | 0 <= k < |log|
      ensures segs !in log[k].row.segs
    {
    }
  }

  lemma {:induction false} RefreshAll(routes: map<Bsid, SegList>, b: Bsid, segs: SegList, n: nat, i: nat)
    requires b in routes && (i < n || routes[b] == segs)
    ensures var m := Refresh(routes, Copies(b, n), Copies(segs, n), i); b in m && m[b] == segs
    decreases n - i
  {
    if i < n {
      RefreshAll(routes[b := segs], b, segs, n, i + 1);
    }
  }

  // Only reports were added to the log, and no proxy did anything.
  ghost predicate Quiet(s: State, s': State) {
    && s'.proxies == s.proxies && |s'.routers| == |s.routers|
    && s.flowLog <= s'.flowLog && (forall k | |s.flowLog| <= k < |s'.flowLog| :: !WritesSegments(s'.flowLog[k]))
    && (forall u | u in s.table :: u in s'.table && SameFlow(s'.table[u], s.table[u]))
  }

  ghost predicate Full(s: State) {
    Inv(s) && ProgressOk(s)
  }

  lemma QuietTrans(s: State, s1: State, s2: State)
    requires Quiet(s, s1) && Quiet(s1, s2)
    ensures Quiet(s, s2)
  {
  }

  lemma RouterIsQuiet(s: State, r: nat)
    requires Enabled(s, RouterReads(r))
    ensures Quiet(s, DoRouterReads(s, r)) && DoRouterReads(s, r).routers[r].read == s.routers[r].read + 1
  {
    hide Install, Refresh;
  }

  lemma StepKeepsFull(s: State, a: Step)
    requires Full(s) && Enabled(s, a)
    ensures Full(Apply(s, a))
  {
    StepKeepsInv(s, a);
    StepKeepsProgress(s, a);
  }

  // The router reads on to any position of the log.
  lemma {:induction false} RouterCatchesUp(s0: State, s: State, r: nat, t: nat) returns (s': State)
    requires Leads(s0, s) && Full(s) && r < |s.routers| && s.routers[r].read <= t <= |s.flowLog|
    ensures Leads(s0, s') && Full(s') && Quiet(s, s') && s'.routers[r].read == t
    decreases t - s.routers[r].read
  {
    if s.routers[r].read == t {
      s' := s;
    } else {
      var s1 := Apply(s, RouterReads(r));
      hide Leads, Full, Quiet;
      LeadsOn(s0, s, RouterReads(r));
      StepKeepsFull(s, RouterReads(r));
      RouterIsQuiet(s, r);
      assert |s.routers| == |s1.routers| && |s.flowLog| <= |s1.flowLog| by { QuietSizes(s, s1); }
      s' := RouterCatchesUp(s0, s1, r, t);
      QuietTrans(s, s1, s');
    }
  }

  lemma QuietSizes(s: State, s': State)
    requires Quiet(s, s')
    ensures |s.routers| == |s'.routers| && |s.flowLog| <= |s'.flowLog|
  {
  }

  // The binding segment of the flow is routed to segments never committed for it.
  ghost predicate Astray(s: State, u: Uuid, b: Bsid) {
    u in s.table && b in s.table[u].bsids && !HasOwnRoute(s, s.table[u], b)
  }

  lemma FullAnswers(s: State)
    requires Full(s)
    ensures AnswersOk(s)
  {
  }

  lemma AstrayStill(s: State, s': State, u: Uuid, b: Bsid)
    requires Astray(s, u, b) && s' == s.(proxies := s'.proxies, answers := s'.answers)
    ensures Astray(s', u, b)
  {
  }

  // The request of flow u waits, and its proxy has yet to read the report of the flow at t.
  ghost predicate Ahead(s: State, u: Uuid, t: nat) {
    && u in s.table && Waits(s, s.table[u].id) && s.proxies[s.table[u].id.proxy].flowRead <= t < |s.flowLog|
    && IsRunning(s.flowLog[t]) && s.flowLog[t].row.id == s.table[u].id
  }

  ghost function Unread(s: State, u: Uuid, t: nat): (n: nat)
    requires Ahead(s, u, t)
  {
    t - s.proxies[s.table[u].id.proxy].flowRead
  }

  // The proxy reads another event.
  lemma StaysAhead(s: State, u: Uuid, t: nat)
    requires Full(s) && Ahead(s, u, t)
    requires var k := s.proxies[s.table[u].id.proxy].flowRead; !(IsRunning(s.flowLog[k]) && s.flowLog[k].row.id == s.table[u].id)
    ensures var p := s.table[u].id.proxy; Enabled(s, ProxyReadsFlow(p)) && var s' := Apply(s, ProxyReadsFlow(p));
      && s' == s.(proxies := s'.proxies, answers := s'.answers) && Ahead(s', u, t) && Unread(s', u, t) < Unread(s, u, t)
  {
    hide Apply, AnswersOk;
    FullAnswers(s);
    ReadingAnswers(s, s.table[u].id.proxy, s.table[u].id);
  }

  // The proxy reads on until it meets the report of the waiting request's flow.
  lemma {:induction false} ProxyCatchesUp(s0: State, s: State, u: Uuid, b: Bsid, t: nat) returns (s': State)
    requires Leads(s0, s) && Full(s) && Astray(s, u, b) && Ahead(s, u, t)
    ensures Leads(s0, s') && Misleads(s', s.table[u].id.proxy)
    decreases Unread(s, u, t)
  {
    hide Leads, Full, Misleads, Apply, HasOwnRoute, Unread;
    var a := ProxyReadsFlow(s.table[u].id.proxy);
    var e := s.flowLog[s.proxies[a.p].flowRead];
    if IsRunning(e) && e.row.id == s.table[u].id {
      s' := s;
      ReportMisleads(s, u, b);
    } else {
      StaysAhead(s, u, t);
      hide IsRunning, Ahead;
      LeadsOn(s0, s, a);
      StepKeepsFull(s, a);
      AstrayStill(s, Apply(s, a), u, b);
      s' := ProxyCatchesUp(s0, Apply(s, a), u, b, t);
    }
  }

  lemma ReportMisleads(s: State, u: Uuid, b: Bsid)
    requires Full(s) && Astray(s, u, b) && Waits(s, s.table[u].id)
    requires var k := s.proxies[s.table[u].id.proxy].flowRead;
      k < |s.flowLog| && IsRunning(s.flowLog[k]) && s.flowLog[k].row.id == s.table[u].id
    ensures Misleads(s, s.table[u].id.proxy)
  {
    var p := s.table[u].id.proxy;
    var e := s.flowLog[s.proxies[p].flowRead];
    assert e in s.flowLog && Honest(s, e.row) && s.table[u].uuid == u;
    assert e.row.uuid == u;
    var s' := Apply(s, ProxyReadsFlow(p));
    assert s'.answers == s.answers + [Positive(e.row)];
    assert !HasOwnRoute(s', e.row, b);
  }

  // No event of the log after these writes such segments for the flow.
  lemma StaysUncommitted(log: seq<FlowEvent>, e: FlowEvent, log': seq<FlowEvent>, u: Uuid, segs: SegList)
    requires log + [e] <= log' && !Committed(log, u, segs) && e.row.uuid != u
    requires forall k | |log| < k < |log'| :: !WritesSegments(log'[k])
    ensures !Committed(log', u, segs)
  {
    forall k | 0 <= k < |log'|
      ensures !Writes(log'[k], u, segs)
    {
      assert k < |log| ==> log'[k] == (log + [e])[k] == log[k];
      assert log'[|log|] == (log + [e])[|log|] == e;
    }
  }

  // The router reads the new segments of the flow that holds the binding segment.
  lemma RefreshStrays(s: State, r: nat, v: Uuid, b: Bsid, segs: SegList)
    requires Full(s) && Enabled(s, RouterReads(r)) && v in s.table && Told(s, s.table[v]) && b in s.table[v].bsids
    requires var e := s.flowLog[s.routers[r].read];
      && e.Updated? && e.segments && e.row.router == r && e.row.uuid == v && |e.row.bsids| > 0
      && e.row.bsids == Copies(b, |e.row.bsids|) && e.row.segs == Copies(segs, |e.row.bsids|)
    ensures var routes := DoRouterReads(s, r).routers[r].routes; b in routes && routes[b] == segs
  {
    var e := s.flowLog[s.routers[r].read];
    assert e in s.flowLog && Honest(s, e.row);
    assert HasRoute(s, s.table[v], b);
    RefreshAll(s.routers[r].routes, b, segs, |e.row.bsids|, 0);
  }

  // The flow's router has read its insertion once it has read the whole log up to there.
  lemma CaughtUpIsTold(s: State, u: Uuid, log: seq<FlowEvent>)
    requires u in s.table && s.table[u].uuid == u && s.table[u].router < |s.routers|
    requires HasInsertion(log, u) && log <= s.flowLog && |log| <= s.routers[s.table[u].router].read
    ensures Told(s, s.table[u])
  {
    var j :| 0 <= j < |log| && log[j].Inserted? && log[j].row.uuid == u;
    assert s.flowLog[j] == log[j];
  }

  lemma RowFacts(s: State, u: Uuid)
    requires Full(s) && u in s.table
    ensures s.table[u].uuid == u && HasInsertion(s.flowLog, u)
  {
  }

  // Flows u and v of router r share binding segment b, and flow v has no other.
  ghost predicate Shared(s: State, r: nat, u: Uuid, v: Uuid, b: Bsid) {
    && u in s.table && v in s.table && u != v && s.table[u].router == s.table[v].router == r < |s.routers|
    && b in s.table[u].bsids && b in s.table[v].bsids && s.table[v].bsids == Copies(b, |s.table[v].bsids|)
  }

  lemma QuietShared(s: State, s': State, r: nat, u: Uuid, v: Uuid, b: Bsid)
    requires Shared(s, r, u, v, b) && Quiet(s, s')
    ensures Shared(s', r, u, v, b)
  {
  }

  // The router, having read all before, reads the segments that flow v was recomputed to.
  lemma ReadsRefresh(s: State, segs: SegList, s1: State, r: nat, u: Uuid, v: Uuid, b: Bsid)
    requires Full(s) && Shared(s, r, u, v, b)
    requires Full(s1) && Quiet(DoRecompute(s, v, segs), s1) && s1.routers[r].read == |s.flowLog|
    ensures Enabled(s1, RouterReads(r)) && Shared(DoRouterReads(s1, r), r, u, v, b)
    ensures var routes := DoRouterReads(s1, r).routers[r].routes; b in routes && routes[b] == segs
  {
    var s2 := DoRecompute(s, v, segs);
    QuietShared(s2, s1, r, u, v, b);
    assert s1.flowLog[|s.flowLog|] == s2.flowLog[|s.flowLog|];
    RowFacts(s, v);
    hide Full, DoRouterReads, Quiet;
    assert s.flowLog <= s2.flowLog <= s1.flowLog by { QuietLog(s2, s1); }
    assert SameFlow(s1.table[v], s.table[v]) by { QuietRow(s2, s1, v); }
    CaughtUpIsTold(s1, v, s.flowLog);
    RefreshStrays(s1, r, v, b, segs);
    RouterIsQuiet(s1, r);
    QuietShared(s1, DoRouterReads(s1, r), r, u, v, b);
  }

  lemma QuietLog(s: State, s': State)
    requires Quiet(s, s')
    ensures s.flowLog <= s'.flowLog && forall k | |s.flowLog| <= k < |s'.flowLog| :: !WritesSegments(s'.flowLog[k])
  {
  }

  lemma QuietRow(s: State, s': State, u: Uuid)
    requires Quiet(s, s') && u in s.table
    ensures u in s'.table && SameFlow(s'.table[u], s.table[u])
  {
  }

  lemma ReadingStrays(s: State, segs: SegList, s1: State, r: nat, u: Uuid, v: Uuid, b: Bsid)
    requires Full(s) && Shared(s, r, u, v, b) && !Committed(s.flowLog, u, segs)
    requires Full(s1) && Quiet(DoRecompute(s, v, segs), s1) && s1.routers[r].read == |s.flowLog|
    ensures Enabled(s1, RouterReads(r)) && Astray(DoRouterReads(s1, r), u, b)
  {
    var s2, s' := DoRecompute(s, v, segs), DoRouterReads(s1, r);
    ReadsRefresh(s, segs, s1, r, u, v, b);
    RouterIsQuiet(s1, r);
    QuietTrans(s2, s1, s');
    RowFacts(s, v);
    RowFacts(s, u);
    QuietRow(s2, s', u);
    QuietLog(s2, s');
    hide Full, DoRouterReads, Quiet, Committed;
    StaysUncommitted(s.flowLog, Updated(s2.table[v], true, false), s'.flowLog, u, segs);
  }

  // The controller commits a flow and recomputes it; its router reads both.
  lemma CommitStrays(s: State, a: Step, u: Uuid) returns (s': State)
    requires Full(s) && a.Commit? && Enabled(s, a)
    requires u in s.table && s.table[u].router == a.router && a.b in s.table[u].bsids
    ensures Leads(Apply(s, a), s') && Full(s') && s'.proxies == s.proxies
    ensures Astray(s', u, a.b) && s'.table[u].id == s.table[u].id && Told(s', s'.table[u])
  {
    var s1, r, v := Apply(s, a), a.router, a.u;
    StepKeepsFull(s, a);
    assert s1.table[v].bsids[0] == a.b && Shared(s1, r, u, v, a.b);
    assert a.b in s1.flows && s1.flows[a.b] == v && v in s1.flows.Values;
    s' := RecomputeStrays(s1, r, u, v, a.b);
  }

  lemma LeadsToRecompute(s: State, v: Uuid, segs: SegList)
    requires Full(s) && v in s.table && v in s.flows.Values
    ensures Leads(s, DoRecompute(s, v, segs)) && Full(DoRecompute(s, v, segs))
  {
    LeadsNowhere(s);
    LeadsOn(s, s, Recompute(v, segs));
    StepKeepsFull(s, Recompute(v, segs));
  }

  lemma LeadsToRead(s0: State, s: State, r: nat)
    requires Leads(s0, s) && Full(s) && Enabled(s, RouterReads(r))
    ensures Leads(s0, DoRouterReads(s, r)) && Full(DoRouterReads(s, r))
  {
    LeadsOn(s0, s, RouterReads(r));
    StepKeepsFull(s, RouterReads(r));
  }

  lemma ReadWithinLog(s: State, r: nat)
    requires Full(s) && r < |s.routers|
    ensures s.routers[r].read <= |s.flowLog|
  {
  }

  lemma RecomputeStrays(s: State, r: nat, u: Uuid, v: Uuid, b: Bsid) returns (s': State)
    requires Full(s) && Shared(s, r, u, v, b) && v in s.flows.Values
    ensures Leads(s, s') && Full(s') && s'.proxies == s.proxies
    ensures Astray(s', u, b) && s'.table[u].id == s.table[u].id && Told(s', s'.table[u])
  {
    hide Leads, Full, DoRouterReads, Astray, Told, Committed, Enabled;
    var segs := FreshSegments(s.flowLog);
    var s1 := DoRecompute(s, v, segs);
    LeadsToRecompute(s, v, segs);
    ReadWithinLog(s, r);
    var s2 := RouterCatchesUp(s, s1, r, |s.flowLog|);
    ReadingStrays(s, segs, s2, r, u, v, b);
    s' := DoRouterReads(s2, r);
    LeadsToRead(s, s2, r);
    RouterIsQuiet(s2, r);
    QuietTrans(s1, s2, s');
    FirstIsTold(s, s1, s', r, u);
  }

  lemma FirstIsTold(s: State, s1: State, s': State, r: nat, u: Uuid)
    requires Full(s) && Quiet(s1, s') && s.flowLog <= s1.flowLog && u in s.table && u in s1.table && SameFlow(s1.table[u], s.table[u])
    requires s.table[u].router == r < |s'.routers| && s'.routers[r].read > |s.flowLog|
    ensures Told(s', s'.table[u])
  {
    RowFacts(s, u);
    CaughtUpIsTold(s', u, s.flowLog);
  }

  // A commit that breaks the guard can be followed by a misleading answer.
  lemma BadCommitMisleads(s: State, a: Step) returns (s': State, p: nat)
    requires Full(s) && Enabled(s, a) && !Guarded(s, a)
    ensures Leads(Apply(s, a), s') && Misleads(s', p)
  {
    var u :| u in s.table && s.table[u].router == a.router && a.b in s.table[u].bsids && Waits(s, s.table[u].id);
    var s1 := CommitStrays(s, a, u);
    p := s.table[u].id.proxy;
    hide Leads, Apply, Enabled, Guarded, Astray, Full, Told, Misleads;
    var t := ReportIsAhead(s1, u);
    s' := ProxyCatchesUp(Apply(s, a), s1, u, a.b, t);
  }

  // The report of a flow whose request waits is still to be read by the proxy.
  lemma ReportIsAhead(s: State, u: Uuid) returns (t: nat)
    requires Full(s) && u in s.table && Told(s, s.table[u]) && Waits(s, s.table[u].id)
    ensures Ahead(s, u, t)
  {
    assert HasReport(s.flowLog, u) && s.table[u].uuid == u;
    t :| t < |s.flowLog| && IsRunning(s.flowLog[t]) && s.flowLog[t].row.uuid == u;
    assert s.flowLog[t] in s.flowLog && Honest(s, s.flowLog[t].row);
    assert !ReadBy(s, s.table[u].id, t);
  }

  // ------------------------------------------------------------ the theorem

  lemma {:induction false} RunIsFull(run: seq<State>, steps: seq<Step>, i: nat)
    requires IsRun(run, steps) && i < |run|
    ensures Full(run[i])
  {
    hide Full, Apply, Enabled;
    if i == 0 {
      var proxies: nat, routers: nat :| run[0] == Init(proxies, routers);
      InitIsFull(proxies, routers);
    } else {
      RunIsFull(run, steps, i - 1);
      StepKeepsFull(run[i - 1], steps[i - 1]);
    }
  }

  lemma InitIsFull(proxies: nat, routers: nat)
    ensures Full(Init(proxies, routers))
  {
    InitInv(proxies, routers);
  }

  lemma MisleadingIsSeen(s: State, p: nat)
    requires Misleads(s, p)
    ensures !PositivesOwn(Apply(s, ProxyReadsFlow(p)))
  {
    var s' := Apply(s, ProxyReadsFlow(p));
    var row, b :| s'.answers == s.answers + [Positive(row)] && b in row.bsids && !HasOwnRoute(s', row, b);
    assert Positive(row) in s'.answers;
  }

  // No state that guarded steps can lead to sends a misleading answer next.
  ghost predicate NeverMisleads(s: State) {
    forall s', p | Leads(s, s') :: !Misleads(s', p)
  }

  // After a run that met the guard, the next step meets it if and only if no continuation that
  // meets it sends a positive answer with a binding segment routed to another flow's segments.
  lemma GuardIsExact(run: seq<State>, steps: seq<Step>, a: Step)
    requires GuardedRun(run, steps) && Enabled(run[|steps|], a)
    ensures Guarded(run[|steps|], a) <==> NeverMisleads(Apply(run[|steps|], a))
  {
    var s := run[|steps|];
    RunKeepsGuard(run, steps, |steps|);
    RunIsFull(run, steps, |steps|);
    hide Inv, GuardInv, Misleads, Leads, Apply, Enabled, Full, Guarded, GuardedRun;
    if Guarded(s, a) {
      StepKeepsInv(s, a);
      StepKeepsGuard(s, a);
      forall s', p | Leads(Apply(s, a), s')
        ensures !Misleads(s', p)
      {
        GuardedIsHonest(Apply(s, a), s', p);
      }
    } else {
      var s', p := BadCommitMisleads(s, a);
    }
  }

  lemma GuardedIsHonest(s: State, s': State, p: nat)
    requires Inv(s) && GuardInv(s) && Leads(s, s')
    ensures !Misleads(s', p)
  {
    var steps :| Takes(s, steps, s');
    TakesKeepsGuard(s, steps, s');
    if Misleads(s', p) {
      var s2 := Apply(s', ProxyReadsFlow(p));
      var row, b :| s2.answers == s'.answers + [Positive(row)] && b in row.bsids && !HasOwnRoute(s2, row, b);
      NextAnswerIsOwn(s', p, row, b);
    }
  }
}
