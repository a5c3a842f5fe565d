/**
 * The monitor thread, the workers and the database callbacks of the controller as one
 * transition system over the staging graph, the published graph and the table of flows.
 */
module FlowTable {
  import opened Basics
  import opened ShortestPaths
  import opened Graphs
  import Dijkstra
  import opened Flows

  type Bsid = nat

  // The graphs the controller deals with: no cost or delay sum reaches infinity.
  type Network = g: Topo | Tame(g) ghost witness Topo([], [])

  // Where the monitor thread is: waiting, past the synchronization, or working off the flows it
  // found affected.
  datatype Phase = Idle | Synced | Fixing(todo: set<Bsid>)

  datatype State = State(published: Network, staging: Network, dirty: bool, phase: Phase, flows: map<Bsid, Flow>)

  datatype Step =
    | Edit(g: Network)           // a callback changed the staging graph
    | Sync
    | Scan
    | Fix(b: Bsid)
    | Finish
    | Admit(b: Bsid, fl: Flow)   // a worker admitted a flow, under the read lock
    | Drop(b: Bsid)              // a flow was collected, or its commit failed

  // The worker found the flow's path in the published graph.
  ghost predicate RoutedIn(g: Network, fl: Flow) {
    fl.src in g.nodes && fl.dst in g.nodes && TripOf(g, fl).Some? && fl == Rerouted(g, fl)
  }

  ghost predicate Enabled(s: State, a: Step) {
    match a
    case Edit(_) => true
    case Sync => s.phase.Idle? && s.dirty
    case Scan => s.phase.Synced?
    case Fix(b) => s.phase.Fixing? && b in s.phase.todo
    case Finish => s.phase.Fixing? && s.phase.todo == {}
    case Admit(b, fl) => b !in s.flows && RoutedIn(s.published, fl)
    case Drop(b) => true
  }

  ghost function Affected(s: State): set<Bsid> {
    set b | b in s.flows && !Intact(s.published.edges, s.flows[b])
  }

  ghost function Apply(s: State, a: Step): State
    requires Enabled(s, a)
  {
    match a
    case Edit(g) => s.(staging := g, dirty := true)
    case Sync => s.(published := s.staging, dirty := false, phase := Synced)
    case Scan => s.(phase := Fixing(Affected(s)))
    case Fix(b) =>
      s.(phase := Fixing(s.phase.todo - {b}),
         flows := if b in s.flows then s.flows[b := Rerouted(s.published, s.flows[b])] else s.flows)
    case Finish => s.(phase := Idle)
    case Admit(b, fl) => s.(flows := s.flows[b := fl])
    case Drop(b) => s.(flows := s.flows - {b})
  }

  ghost predicate AllSettled(g: Topo, flows: map<Bsid, Flow>, todo: set<Bsid>) {
    forall b | b in flows && b !in todo :: Settled(g, flows[b])
  }

  // Every flow is settled but those the monitor thread still has to see to.
  ghost predicate Inv(s: State) {
    && (s.dirty || s.published == s.staging)
    && (s.phase.Idle? ==> AllSettled(s.published, s.flows, {}))
    && (s.phase.Fixing? ==> AllSettled(s.published, s.flows, s.phase.todo))
  }

  lemma RoutedIsSettled(g: Network, fl: Flow)
    requires RoutedIn(g, fl)
    ensures Settled(g, fl)
  {
    hide Tame, TripOf;
    RoutedIsIntact(g, fl);
    TameFacts(g, fl.bw, Hook(fl));
    IntactIsPublished(g, fl);
  }

  // A flow the monitor did not find affected is settled.
  lemma UnaffectedIsSettled(s: State, b: Bsid)
    requires b in s.flows && b !in Affected(s)
    ensures Settled(s.published, s.flows[b])
  {
    hide Tame;
    TameFacts(s.published, 0, Dijkstra.ByMetric);
    IntactIsPublished(s.published, s.flows[b]);
  }

  lemma StepKeepsInv(s: State, a: Step)
    requires Inv(s) && Enabled(s, a)
    ensures Inv(Apply(s, a))
  {
    hide Tame, Rerouted, RoutedIn, Settled, Intact;
    match a
    case Scan =>
      forall b | b in s.flows && b !in Affected(s)
        ensures Settled(s.published, s.flows[b])
      {
        UnaffectedIsSettled(s, b);
      }
    case Fix(b) => if b in s.flows { ReroutedIsSettled(s.published, s.flows[b]); }
    case Admit(b, fl) => RoutedIsSettled(s.published, fl);
    case _ =>
  }

  // The states of a run from an empty controller.
  ghost predicate IsRun(run: seq<State>, steps: seq<Step>) {
    && |run| == |steps| + 1
    && run[0] == State(Topo([], []), Topo([], []), false, Idle, map[])
    && forall i | 0 <= i < |steps| :: Enabled(run[i], steps[i]) && run[i + 1] == Apply(run[i], steps[i])
  }

  lemma {:induction false} RunKeepsInv(run: seq<State>, steps: seq<Step>, i: nat)
    requires IsRun(run, steps) && i < |run|
    ensures Inv(run[i])
  {
    if i > 0 {
      RunKeepsInv(run, steps, i - 1);
      hide Inv, Enabled, Apply;
      StepKeepsInv(run[i - 1], steps[i - 1]);
    }
  }

  // The flow's segments and edges were computed together, in a graph published at some time.
  ghost predicate WasRouted(run: seq<State>, i: nat, fl: Flow) {
    exists j :: 0 <= j <= i && j < |run| && Routed(run[j].published, fl)
  }

  lemma WasRoutedLater(run: seq<State>, i: nat, fl: Flow)
    requires WasRouted(run, i, fl)
    ensures WasRouted(run, i + 1, fl)
  {
  }

  lemma OrphanToo(g: Topo, fl: Flow)
    requires Routed(g, fl)
    ensures Routed(g, fl.(orphan := true))
  {
    var w :| Follows(g, fl, w);
    assert Follows(g, fl.(orphan := true), w);
  }

  // Rerouting computes both anew or leaves both.
  lemma FixKeepsRouted(run: seq<State>, i: nat, g: Network, fl: Flow)
    requires WasRouted(run, i, fl) && i < |run| && g == run[i].published
    ensures WasRouted(run, i, Rerouted(g, fl))
  {
    hide Tame, TripOf, Routed;
    if fl.src !in g.nodes || fl.dst !in g.nodes {
      var j :| 0 <= j <= i && j < |run| && Routed(run[j].published, fl);
      OrphanToo(run[j].published, fl);
    } else if TripOf(g, fl).Some? {
      RoutedFollows(g, fl);
    }
  }

  lemma {:induction false} FlowsWereRouted(run: seq<State>, steps: seq<Step>, i: nat, b: Bsid)
    requires IsRun(run, steps) && i < |run| && b in run[i].flows
    ensures WasRouted(run, i, run[i].flows[b])
  {
    hide Tame, Rerouted, TripOf, WasRouted, Routed;
    assert i > 0;
    var s, a := run[i - 1], steps[i - 1];
    assert Enabled(s, a) && run[i] == Apply(s, a);
    if a.Admit? && a.b == b {
      RoutedFollows(s.published, a.fl);
      RoutedNow(run, i - 1, a.fl);
    } else {
      FlowsWereRouted(run, steps, i - 1, b);
      if a.Fix? && a.b == b {
        FixKeepsRouted(run, i - 1, s.published, s.flows[b]);
      }
    }
    WasRoutedLater(run, i - 1, run[i].flows[b]);
  }

  lemma RoutedNow(run: seq<State>, i: nat, fl: Flow)
    requires i < |run| && Routed(run[i].published, fl)
    ensures WasRouted(run, i, fl)
  {
  }

  // In every state each flow's segments and edges belong together: they were computed for one walk in
  // a graph published before. And whenever the monitor thread is not between a synchronization and the
  // end of the recomputation, each flow has every edge of its stored path in the published graph at
  // the metric it was routed by, or no path there, or is orphaned; and an unmarked staging graph is the
  // published one.
  lemma FlowsFollowTheGraph(run: seq<State>, steps: seq<Step>, i: nat, b: Bsid)
    requires IsRun(run, steps) && i < |run|
    ensures b in run[i].flows ==> WasRouted(run, i, run[i].flows[b])
    ensures run[i].phase.Idle? && b in run[i].flows ==> Settled(run[i].published, run[i].flows[b])
    ensures !run[i].dirty ==> run[i].published == run[i].staging
  {
    hide WasRouted, Settled, Enabled, Apply;
    RunKeepsInv(run, steps, i);
    if b in run[i].flows {
      FlowsWereRouted(run, steps, i, b);
    }
  }

  // ------------------------------------------------------------ which flows there are

  // The flow asks for the same as the one admitted.
  predicate SameAsk(fl: Flow, fl': Flow) {
    fl'.src == fl.src && fl'.dst == fl.dst && fl'.bw == fl.bw && fl'.byDelay == fl.byDelay
  }

  // A worker admitted a flow under b at step j, and it has not been collected since.
  ghost predicate Admitted(steps: seq<Step>, i: nat, b: Bsid, j: nat) {
    j < i <= |steps| && steps[j].Admit? && steps[j].b == b && forall k | j < k < i :: steps[k] != Drop(b)
  }

  ghost predicate AdmittedAs(steps: seq<Step>, i: nat, b: Bsid, j: nat, fl: Flow) {
    Admitted(steps, i, b, j) && SameAsk(steps[j].fl, fl)
  }

  lemma RerouteKeepsAsk(g: Network, fl: Flow)
    ensures SameAsk(fl, Rerouted(g, fl))
  {
    hide Tame, TripOf;
  }

  lemma NextFlows(s: State, a: Step, b: Bsid)
    requires Enabled(s, a)
    ensures b in Apply(s, a).flows <==> (a.Admit? && a.b == b) || (b in s.flows && a != Drop(b))
    ensures a.Admit? && a.b == b ==> Apply(s, a).flows[b] == a.fl
    ensures !(a.Admit? && a.b == b) && b in Apply(s, a).flows ==> SameAsk(s.flows[b], Apply(s, a).flows[b])
  {
    hide Tame, Rerouted, RoutedIn, Intact;
    if a.Fix? && a.b in s.flows {
      RerouteKeepsAsk(s.published, s.flows[a.b]);
    }
  }

  lemma AdmittedNext(steps: seq<Step>, i: nat, b: Bsid, j: nat)
    requires i < |steps|
    ensures Admitted(steps, i + 1, b, j) <==> (if j == i then steps[i].Admit? && steps[i].b == b else Admitted(steps, i, b, j) && steps[i] != Drop(b))
  {
  }

  // The flows in the table are those admitted and not collected since, with what they asked for.
  lemma {:induction false} TableHoldsTheAdmitted(run: seq<State>, steps: seq<Step>, i: nat, b: Bsid)
    requires IsRun(run, steps) && i < |run|
    ensures b in run[i].flows <==> exists j: nat :: Admitted(steps, i, b, j)
    ensures b in run[i].flows ==> exists j: nat :: AdmittedAs(steps, i, b, j, run[i].flows[b])
  {
    hide Enabled, Apply, Admitted, IsRun, Tame;
    if i == 0 {
      StartIsEmpty(run, steps, b);
    } else {
      TableHoldsTheAdmitted(run, steps, i - 1, b);
      RunStep(run, steps, i - 1);
      var s, a := run[i - 1], steps[i - 1];
      NextFlows(s, a, b);
      AdmittedNext(steps, i - 1, b, i - 1);
      if b in s.flows {
        var j: nat :| AdmittedAs(steps, i - 1, b, j, s.flows[b]);
        AdmittedNext(steps, i - 1, b, j);
        AdmittedBefore(steps, i - 1, b, j);
        assert a != Drop(b) ==> AdmittedAs(steps, i, b, j, run[i].flows[b]);
      }
      if exists j: nat :: Admitted(steps, i, b, j) {
        var j: nat :| Admitted(steps, i, b, j);
        AdmittedNext(steps, i - 1, b, j);
      }
      assert a.Admit? && a.b == b ==> AdmittedAs(steps, i, b, i - 1, run[i].flows[b]);
    }
  }

  lemma RunStep(run: seq<State>, steps: seq<Step>, i: nat)
    requires IsRun(run, steps) && i + 1 < |run|
    ensures |run| == |steps| + 1 && Enabled(run[i], steps[i]) && run[i + 1] == Apply(run[i], steps[i])
  {
  }

  lemma StartIsEmpty(run: seq<State>, steps: seq<Step>, b: Bsid)
    requires IsRun(run, steps)
    ensures b !in run[0].flows && forall j: nat :: !Admitted(steps, 0, b, j)
  {
  }

  lemma AdmittedBefore(steps: seq<Step>, i: nat, b: Bsid, j: nat)
    requires Admitted(steps, i, b, j)
    ensures j < i && steps[j].Admit?
  {
  }
}
