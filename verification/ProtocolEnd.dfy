/**
 * No request can be stuck: from every state the steps of workers, routers and proxies alone lead to
 * one in which everything is read and everyone answered.
 */
module ProtocolEnd {
  import opened Basics
  import opened Protocol
  import opened ProtocolRoutes
  import opened ProtocolSafety
  import opened ProtocolGuard
  import opened ProtocolExact
  import opened ProtocolAnswers

  ghost predicate Good(s: State) {
    Full(s) && AnswerInv(s)
  }

  lemma GoodReads(s: State)
    requires Good(s)
    ensures s.reqRead <= |s.reqLog| && ReadsOk(s) && ReqReadsOk(s) && ProxiesReadOk(s)
  {
  }

  lemma StepKeepsGood(s0: State, s: State, a: Step)
    requires Leads(s0, s) && Good(s) && Enabled(s, a) && !a.Commit?
    ensures Leads(s0, Apply(s, a)) && Good(Apply(s, a))
  {
    hide Full, AnswerInv, Inv, Leads, Enabled, Apply;
    LeadsOn(s0, s, a);
    StepKeepsFull(s, a);
    FullIsInv(s);
    StepKeepsAnswered(s, a);
  }

  // ------------------------------------------------------------ the workers

  lemma {:induction false} MonitorReads(s0: State, s: State) returns (s': State)
    requires Leads(s0, s) && Good(s)
    ensures Leads(s0, s') && Good(s') && s' == s.(reqRead := |s.reqLog|, buffer := s'.buffer)
    decreases |s.reqLog| - s.reqRead
  {
    hide Good, Leads;
    GoodReads(s);
    if s.reqRead == |s.reqLog| {
      s' := s;
    } else {
      StepKeepsGood(s0, s, Receive);
      s' := MonitorReads(s0, Apply(s, Receive));
    }
  }

  // The workers turn down what is left.
  lemma {:induction false} WorkersFinish(s0: State, s: State) returns (s': State)
    requires Leads(s0, s) && Good(s) && s.reqRead == |s.reqLog|
    ensures Leads(s0, s') && Good(s') && s' == s.(reqRead := |s'.reqLog|, reqLog := s'.reqLog, buffer := [])
    decreases |s.buffer|
  {
    hide Good, Leads;
    if s.buffer == [] {
      s' := s;
    } else {
      var a := Reject(0, Denied);
      StepKeepsGood(s0, s, a);
      var s1 := Apply(s, a);
      StepKeepsGood(s0, s1, Receive);
      s' := WorkersFinish(s0, Apply(s1, Receive));
    }
  }

  // ------------------------------------------------------------ the routers

  // Only router r, the log and the rows changed, and whatever was logged is no insertion.
  ghost predicate RouterMoved(s: State, s': State, r: nat) {
    && r < |s.routers| == |s'.routers| && s' == s.(routers := s.routers[r := s'.routers[r]], flowLog := s'.flowLog, table := s'.table)
    && s.flowLog <= s'.flowLog && (forall k | |s.flowLog| <= k < |s'.flowLog| :: s'.flowLog[k].Updated?)
  }

  lemma RouterMoves(s: State, r: nat)
    requires Enabled(s, RouterReads(r))
    ensures var s' := DoRouterReads(s, r); RouterMoved(s, s', r) && s'.routers[r].read == s.routers[r].read + 1
    ensures s.flowLog[s.routers[r].read].Updated? ==> DoRouterReads(s, r).flowLog == s.flowLog
  {
    hide Install, Refresh;
  }

  // Events from the position on are no insertions.
  ghost predicate NoMoreInsertions(log: seq<FlowEvent>, n: nat) {
    forall k | n <= k < |log| :: log[k].Updated?
  }

  lemma {:induction false} RouterReadsTo(s0: State, s: State, r: nat, t: nat) returns (s': State)
    requires Leads(s0, s) && Good(s) && r < |s.routers| && t <= |s.flowLog|
    ensures Leads(s0, s') && Good(s') && RouterMoved(s, s', r) && s'.routers[r].read >= t
    ensures NoMoreInsertions(s.flowLog, s.routers[r].read) ==> s'.flowLog == s.flowLog
    decreases t - s.routers[r].read
  {
    hide Good, Leads;
    if s.routers[r].read >= t {
      s' := s;
    } else {
      StepKeepsGood(s0, s, RouterReads(r));
      RouterMoves(s, r);
      hide DoRouterReads;
      var s1 := DoRouterReads(s, r);
      s' := RouterReadsTo(s0, s1, r, t);
    }
  }

  ghost predicate RoutersMoved(s: State, s': State) {
    && |s.routers| == |s'.routers| && s' == s.(routers := s'.routers, flowLog := s'.flowLog, table := s'.table)
    && s.flowLog <= s'.flowLog && (forall k | |s.flowLog| <= k < |s'.flowLog| :: s'.flowLog[k].Updated?)
  }

  // The first n routers read up to t, the others are where they were.
  lemma {:induction false} RoutersReadTo(s0: State, s: State, n: nat, t: nat) returns (s': State)
    requires Leads(s0, s) && Good(s) && n <= |s.routers| && t <= |s.flowLog|
    ensures Leads(s0, s') && Good(s') && RoutersMoved(s, s')
    ensures forall r | 0 <= r < n :: s'.routers[r].read >= t
    ensures forall r | n <= r < |s.routers| :: s'.routers[r] == s.routers[r]
    ensures (forall r | 0 <= r < n :: NoMoreInsertions(s.flowLog, s.routers[r].read)) ==> s'.flowLog == s.flowLog
    decreases n
  {
    hide Good, Leads, NoMoreInsertions;
    if n == 0 {
      s' := s;
    } else {
      var s1 := RoutersReadTo(s0, s, n - 1, t);
      s' := RouterReadsTo(s0, s1, n - 1, t);
    }
  }

  // All routers read everything: first what was logged, then the reports that adds.
  lemma RoutersReadAll(s0: State, s: State) returns (s': State)
    requires Leads(s0, s) && Good(s)
    ensures Leads(s0, s') && Good(s') && RoutersMoved(s, s')
    ensures forall r | 0 <= r < |s'.routers| :: s'.routers[r].read == |s'.flowLog|
  {
    hide Good, Leads;
    var s1 := RoutersReadTo(s0, s, |s.routers|, |s.flowLog|);
    s' := RoutersReadTo(s0, s1, |s1.routers|, |s1.flowLog|);
    GoodReads(s');
  }

  // ------------------------------------------------------------ the proxies

  ghost predicate ProxyOnly(s: State, s': State, p: nat) {
    && p < |s.proxies| == |s'.proxies| && s'.proxies[p].counter == s.proxies[p].counter
    && s' == s.(proxies := s.proxies[p := s'.proxies[p]], answers := s'.answers)
  }

  lemma ProxyMoves(s: State, p: nat)
    ensures Enabled(s, ProxyReadsReq(p)) ==>
      var s' := DoProxyReadsReq(s, p);
      ProxyOnly(s, s', p) && s'.proxies[p].reqRead == s.proxies[p].reqRead + 1 && s'.proxies[p].flowRead == s.proxies[p].flowRead
    ensures Enabled(s, ProxyReadsFlow(p)) ==>
      var s' := DoProxyReadsFlow(s, p);
      ProxyOnly(s, s', p) && s'.proxies[p].flowRead == s.proxies[p].flowRead + 1 && s'.proxies[p].reqRead == s.proxies[p].reqRead
  {
    hide Without, Find;
  }

  predicate ProxyDone(s: State, x: Proxy) {
    x.reqRead == |s.reqLog| && x.flowRead == |s.flowLog|
  }

  lemma {:induction false} ProxyReadsAll(s0: State, s: State, p: nat) returns (s': State)
    requires Leads(s0, s) && Good(s) && p < |s.proxies|
    ensures Leads(s0, s') && Good(s') && ProxyOnly(s, s', p) && ProxyDone(s', s'.proxies[p])
    decreases |s.reqLog| - s.proxies[p].reqRead, |s.flowLog| - s.proxies[p].flowRead
  {
    hide Good, Leads, DoProxyReadsReq, DoProxyReadsFlow;
    GoodReads(s);
    ProxyMoves(s, p);
    if s.proxies[p].reqRead < |s.reqLog| {
      StepKeepsGood(s0, s, ProxyReadsReq(p));
      s' := ProxyReadsAll(s0, DoProxyReadsReq(s, p), p);
    } else if s.proxies[p].flowRead < |s.flowLog| {
      StepKeepsGood(s0, s, ProxyReadsFlow(p));
      s' := ProxyReadsAll(s0, DoProxyReadsFlow(s, p), p);
    } else {
      s' := s;
    }
  }

  lemma {:induction false} ProxiesReadAll(s0: State, s: State, n: nat) returns (s': State)
    requires Leads(s0, s) && Good(s) && n <= |s.proxies|
    ensures Leads(s0, s') && Good(s') && |s'.proxies| == |s.proxies| && s' == s.(proxies := s'.proxies, answers := s'.answers)
    ensures forall p | 0 <= p < |s.proxies| :: s'.proxies[p].counter == s.proxies[p].counter
    ensures forall p | 0 <= p < n :: ProxyDone(s', s'.proxies[p])
    decreases n
  {
    hide Good, Leads;
    if n == 0 {
      s' := s;
    } else {
      var s1 := ProxiesReadAll(s0, s, n - 1);
      s' := ProxyReadsAll(s0, s1, n - 1);
    }
  }

  // ------------------------------------------------------------ the theorem

  lemma GoodWhenRead(s: State, id: Id)
    requires Good(s) && AllRead(s) && Known(s.proxies, id)
    ensures WellAnswered(s, id)
  {
    DecidedWhenRead(s, id);
    AnsweredWell(s, id);
  }

  lemma RunIsGood(run: seq<State>, steps: seq<Step>, i: nat)
    requires IsRun(run, steps) && i < |run|
    ensures Good(run[i])
  {
    RunKeepsAnswered(run, steps, i);
  }

  // From every state of every run the workers, the routers and the proxies can go on, without a new
  // request, to a state in which every request made so far is answered as it was decided.
  lemma EveryoneCanBeAnswered(run: seq<State>, steps: seq<Step>, i: nat) returns (s': State)
    requires IsRun(run, steps) && i < |run|
    ensures Leads(run[i], s') && AllRead(s')
    ensures forall id :: Known(s'.proxies, id) <==> Known(run[i].proxies, id)
    ensures forall id | Known(run[i].proxies, id) :: WellAnswered(s', id)
  {
    hide Good, Leads, WellAnswered;
    var s := run[i];
    RunIsGood(run, steps, i);
    LeadsNowhere(s);
    var s1 := MonitorReads(s, s);
    var s2 := WorkersFinish(s, s1);
    var s3 := RoutersReadAll(s, s2);
    s' := ProxiesReadAll(s, s3, |s3.proxies|);
    forall id | Known(s.proxies, id)
      ensures WellAnswered(s', id)
    {
      GoodWhenRead(s', id);
    }
  }
}
