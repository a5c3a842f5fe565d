/**
 * The flow-request protocol between DNS proxies, the controller and access routers, which talk
 * only through the database tables FlowReq and FlowState. Each callback is one atomic step; the
 * monitors deliver the changes of a table to each client in the order they were made.
 */
module Protocol {
  import opened Basics

  type Bsid = nat
  type Uuid = nat
  type SegList = seq<nat>

  // A request: the proxy's thread and its running number.
  datatype Id = Id(proxy: nat, number: nat)

  datatype ReqStatus = Pending | Allowed | Denied | NoPrefix | Unavailable | Error

  datatype FlowStatus = Active | Running | Expired

  // A row of FlowState.
  datatype Row = Row(uuid: Uuid, id: Id, router: nat, bsids: seq<Bsid>, segs: seq<SegList>, status: FlowStatus)

  datatype ReqEvent = Asked(id: Id) | Decided(id: Id, status: ReqStatus)

  // A change of FlowState with the row after it, and which of the two columns it touched.
  datatype FlowEvent = Inserted(row: Row) | Updated(row: Row, segments: bool, status: bool)

  datatype Answer = Positive(row: Row) | Negative(id: Id)

  // The replies held back by a proxy, and how far its two monitors have read.
  datatype Proxy = Proxy(counter: nat, waiting: seq<Id>, reqRead: nat, flowRead: nat)

  datatype Router = Router(routes: map<Bsid, SegList>, read: nat)

  datatype State = State(
    proxies: seq<Proxy>,
    routers: seq<Router>,
    reqLog: seq<ReqEvent>,
    flowLog: seq<FlowEvent>,
    table: map<Uuid, Row>,
    reqRead: nat,             // the controller's monitor of FlowReq
    buffer: seq<Id>,          // requests handed to the workers
    committed: set<Id>,       // flows committed whose request is not yet marked
    flows: map<Bsid, Uuid>,   // the controller's live flows
    doomed: set<Uuid>,        // flows collected whose row is not yet marked
    answers: seq<Answer>)

  datatype Step =
    | Ask(p: nat)
    | Receive
    | Reject(k: nat, status: ReqStatus)
    | Commit(k: nat, router: nat, b: Bsid, segs: SegList, n: nat, u: Uuid)
    | MarkAllowed(id: Id)
    | Recompute(u: Uuid, segs: SegList)
    | Collect(b: Bsid)
    | MarkExpired(u: Uuid)
    | RouterReads(r: nat)
    | ProxyReadsReq(p: nat)
    | ProxyReadsFlow(p: nat)

  function Init(proxies: nat, routers: nat): State {
    State(seq(proxies, _ => Proxy(0, [], 0, 0)), seq(routers, _ => Router(map[], 0)),
          [], [], map[], 0, [], {}, map[], {}, [])
  }

  // ------------------------------------------------------------ pieces

  // The first position of the request in the queue, or the queue's length.
  function Find(q: seq<Id>, id: Id): (k: nat)
    ensures k <= |q| && (k < |q| ==> q[k] == id) && id !in q[..k]
  {
    if q == [] || q[0] == id then 0
    else
      assert forall k: nat | k < |q[1..]| :: ([q[0]] + q[1..][..k]) == q[..k + 1];
      1 + Find(q[1..], id)
  }

  function Copies<T>(x: T, n: nat): seq<T> {
    seq(n, _ => x)
  }

  // The routes after the lists from i on are put in under their binding segments.
  function Install(routes: map<Bsid, SegList>, bsids: seq<Bsid>, segs: seq<SegList>, i: nat := 0): map<Bsid, SegList>
    decreases |segs| - i
  {
    if i >= |segs| || i >= |bsids| then routes else Install(routes[bsids[i] := segs[i]], bsids, segs, i + 1)
  }

  // The same for routes that exist already.
  function Refresh(routes: map<Bsid, SegList>, bsids: seq<Bsid>, segs: seq<SegList>, i: nat := 0): map<Bsid, SegList>
    decreases |segs| - i
  {
    if i >= |segs| || i >= |bsids| then routes
    else Refresh(if bsids[i] in routes then routes[bsids[i] := segs[i]] else routes, bsids, segs, i + 1)
  }

  // ------------------------------------------------------------ steps

  predicate Enabled(s: State, a: Step) {
    match a
    case Ask(p) => p < |s.proxies|
    case Receive => s.reqRead < |s.reqLog|
    case Reject(k, st) => k < |s.buffer| && !st.Pending? && !st.Allowed?
    case Commit(k, r, b, _, n, u) => k < |s.buffer| && r < |s.routers| && b !in s.flows && n > 0 && u !in s.table
    case MarkAllowed(id) => id in s.committed
    case Recompute(u, _) => u in s.table && u in s.flows.Values
    case Collect(b) => b in s.flows
    case MarkExpired(u) => u in s.doomed
    case RouterReads(r) => r < |s.routers| && s.routers[r].read < |s.flowLog|
    case ProxyReadsReq(p) => p < |s.proxies| && s.proxies[p].reqRead < |s.reqLog|
    case ProxyReadsFlow(p) => p < |s.proxies| && s.proxies[p].flowRead < |s.flowLog|
  }

  // The proxy numbers a held-back reply, queues it and inserts the request.
  function DoAsk(s: State, p: nat): State
    requires p < |s.proxies|
  {
    var x := s.proxies[p];
    var id := Id(p, x.counter);
    s.(proxies := s.proxies[p := x.(counter := x.counter + 1, waiting := x.waiting + [id])],
       reqLog := s.reqLog + [Asked(id)])
  }

  // The controller's monitor hands new requests to the workers.
  function DoReceive(s: State): State
    requires s.reqRead < |s.reqLog|
  {
    var e := s.reqLog[s.reqRead];
    s.(reqRead := s.reqRead + 1, buffer := if e.Asked? then s.buffer + [e.id] else s.buffer)
  }

  // A worker turns the request down.
  function DoReject(s: State, k: nat, st: ReqStatus): State
    requires k < |s.buffer|
  {
    s.(buffer := Without(s.buffer, k), reqLog := s.reqLog + [Decided(s.buffer[k], st)])
  }

  // A worker admits the request: every source prefix gets the same binding segment and segments.
  function DoCommit(s: State, k: nat, r: nat, b: Bsid, segs: SegList, n: nat, u: Uuid): State
    requires k < |s.buffer|
  {
    var row := Row(u, s.buffer[k], r, Copies(b, n), Copies(segs, n), Active);
    s.(buffer := Without(s.buffer, k), flows := s.flows[b := u], table := s.table[u := row],
       flowLog := s.flowLog + [Inserted(row)], committed := s.committed + {s.buffer[k]})
  }

  function DoMarkAllowed(s: State, id: Id): State {
    s.(committed := s.committed - {id}, reqLog := s.reqLog + [Decided(id, Allowed)])
  }

  // The path of a live flow changed: the monitor thread collects and recomputes one after the other.
  function DoRecompute(s: State, u: Uuid, segs: SegList): State
    requires u in s.table
  {
    var row := s.table[u].(segs := Copies(segs, |s.table[u].bsids|));
    s.(table := s.table[u := row], flowLog := s.flowLog + [Updated(row, true, false)])
  }

  // The flow is collected: its binding segment is free again before its row is marked.
  function DoCollect(s: State, b: Bsid): State
    requires b in s.flows
  {
    s.(flows := s.flows - {b}, doomed := s.doomed + {s.flows[b]})
  }

  // An update of a row that is not there changes nothing.
  function SetStatus(s: State, u: Uuid, st: FlowStatus): State {
    if u !in s.table then s else
    var row := s.table[u].(status := st);
    s.(table := s.table[u := row], flowLog := s.flowLog + [Updated(row, false, true)])
  }

  // The access router installs new flows and reports them, and follows changes of segments.
  function DoRouterReads(s: State, r: nat): State
    requires Enabled(s, RouterReads(r))
  {
    var x := s.routers[r];
    var e := s.flowLog[x.read];
    if e.row.router != r then s.(routers := s.routers[r := x.(read := x.read + 1)])
    else if e.Inserted? then
      var s1 := s.(routers := s.routers[r := Router(Install(x.routes, e.row.bsids, e.row.segs), x.read + 1)]);
      SetStatus(s1, e.row.uuid, Running)
    else if e.segments then
      s.(routers := s.routers[r := Router(Refresh(x.routes, e.row.bsids, e.row.segs), x.read + 1)])
    else s.(routers := s.routers[r := x.(read := x.read + 1)])
  }

  // The reply leaves the queue and is sent, if the request is one of this proxy's.
  function DoAnswer(s: State, p: nat, x: Proxy, id: Id, answer: Answer): State
    requires p < |s.proxies|
  {
    var k := Find(x.waiting, id);
    if k == |x.waiting| then s.(proxies := s.proxies[p := x])
    else s.(proxies := s.proxies[p := x.(waiting := Without(x.waiting, k))], answers := s.answers + [answer])
  }

  function DoProxyReadsReq(s: State, p: nat): State
    requires Enabled(s, ProxyReadsReq(p))
  {
    var x := s.proxies[p].(reqRead := s.proxies[p].reqRead + 1);
    var e := s.reqLog[s.proxies[p].reqRead];
    if e.Decided? && !e.status.Pending? && !e.status.Allowed? then DoAnswer(s, p, x, e.id, Negative(e.id))
    else s.(proxies := s.proxies[p := x])
  }

  function DoProxyReadsFlow(s: State, p: nat): State
    requires Enabled(s, ProxyReadsFlow(p))
  {
    var x := s.proxies[p].(flowRead := s.proxies[p].flowRead + 1);
    var e := s.flowLog[s.proxies[p].flowRead];
    if e.Updated? && e.status && e.row.status.Running? then DoAnswer(s, p, x, e.row.id, Positive(e.row))
    else s.(proxies := s.proxies[p := x])
  }

  function Apply(s: State, a: Step): State
    requires Enabled(s, a)
  {
    match a
    case Ask(p) => DoAsk(s, p)
    case Receive => DoReceive(s)
    case Reject(k, st) => DoReject(s, k, st)
    case Commit(k, r, b, segs, n, u) => DoCommit(s, k, r, b, segs, n, u)
    case MarkAllowed(id) => DoMarkAllowed(s, id)
    case Recompute(u, segs) => DoRecompute(s, u, segs)
    case Collect(b) => DoCollect(s, b)
    case MarkExpired(u) => SetStatus(s, u, Expired).(doomed := s.doomed - {u})
    case RouterReads(r) => DoRouterReads(s, r)
    case ProxyReadsReq(p) => DoProxyReadsReq(s, p)
    case ProxyReadsFlow(p) => DoProxyReadsFlow(s, p)
  }

  // The states of a run of steps from the start.
  ghost predicate IsRun(run: seq<State>, steps: seq<Step>) {
    && |run| == |steps| + 1
    && (exists proxies: nat, routers: nat :: run[0] == Init(proxies, routers))
    && forall i | 0 <= i < |steps| :: Enabled(run[i], steps[i]) && run[i + 1] == Apply(run[i], steps[i])
  }

  ghost predicate Ends(run: seq<State>, steps: seq<Step>, s: State) {
    IsRun(run, steps) && run[|steps|] == s
  }

  // Some run ends in the state.
  ghost predicate Reached(s: State) {
    exists run, steps :: Ends(run, steps, s)
  }

  lemma GoOn(s: State, a: Step, s': State)
    requires Reached(s) && Enabled(s, a) && s' == Apply(s, a)
    ensures Reached(s')
  {
    hide Enabled, Apply;
    var run, steps :| Ends(run, steps, s);
    var run', steps' := run + [s'], steps + [a];
    forall i | 0 <= i < |steps'|
      ensures Enabled(run'[i], steps'[i]) && run'[i + 1] == Apply(run'[i], steps'[i])
    {
      assert i < |steps| ==> run'[i] == run[i] && run'[i + 1] == run[i + 1] && steps'[i] == steps[i];
    }
    assert Ends(run', steps', s');
  }
}
