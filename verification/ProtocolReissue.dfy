/**
 * Why the answers need every binding segment to stay with its flow: the controller takes a
 * binding segment as free once its flow is collected, even if the answer is still to come.
 */
module ProtocolReissue {
  import opened Basics
  import opened Protocol
  import opened ProtocolRoutes
  import opened ProtocolSafety

  const FIRST: Row := Row(0, Id(0, 0), 0, Copies(7, 1), Copies([1], 1), Active)
  const SECOND: Row := Row(1, Id(0, 1), 0, Copies(7, 1), Copies([2], 1), Active)

  const LOG: seq<ReqEvent> := [Asked(Id(0, 0)), Asked(Id(0, 1))]

  // Two requests have reached the workers.
  ghost function Requested(): State {
    State([Proxy(2, [Id(0, 0), Id(0, 1)], 0, 0)], [Router(map[], 0)], LOG, [], map[], 2, [Id(0, 0), Id(0, 1)], {}, map[], {}, [])
  }

  lemma ReachRequested()
    ensures Reached(Requested())
  {
    var s0 := Init(1, 1);
    assert Ends([s0], [], s0);
    assert s0 == State([Proxy(0, [], 0, 0)], [Router(map[], 0)], [], [], map[], 0, [], {}, map[], {}, []);
    hide Reached;
    var a, b := Id(0, 0), Id(0, 1);
    var s1 := s0.(proxies := [Proxy(1, [a], 0, 0)], reqLog := [Asked(a)]);
    assert [] + [a] == [a] && [] + [Asked(a)] == [Asked(a)] && s0.proxies[0 := s1.proxies[0]] == s1.proxies;
    GoOn(s0, Ask(0), s1);
    var s2 := s1.(proxies := [Proxy(2, [a, b], 0, 0)], reqLog := [Asked(a), Asked(b)]);
    assert [a] + [b] == [a, b] && [Asked(a)] + [Asked(b)] == [Asked(a), Asked(b)] && s1.proxies[0 := s2.proxies[0]] == s2.proxies;
    GoOn(s1, Ask(0), s2);
    var s3 := s2.(reqRead := 1, buffer := [a]);
    GoOn(s2, Receive, s3);
    GoOn(s3, Receive, Requested());
  }

  // The first request's flow was committed and collected, and the second got its binding segment.
  ghost function Reissued(): State {
    State([Proxy(2, [Id(0, 0), Id(0, 1)], 0, 0)], [Router(map[], 0)], LOG, [Inserted(FIRST), Inserted(SECOND)],
          map[0 := FIRST, 1 := SECOND], 2, [], {Id(0, 0), Id(0, 1)}, map[7 := 1], {0}, [])
  }

  lemma ReachReissued()
    ensures Reached(Reissued())
  {
    hide Reached;
    ReachRequested();
    var s := Requested();
    var c1 := Commit(0, 0, 7, [1], 1, 0);
    var s5 := Apply(s, c1);
    GoOn(s, c1, s5);
    assert s5.buffer == [Id(0, 1)] && s5.flows == map[7 := 0];
    var s6 := Apply(s5, Collect(7));
    GoOn(s5, Collect(7), s6);
    assert s6.flows == map[];
    var c2 := Commit(0, 0, 7, [2], 1, 1);
    assert Apply(s6, c2).buffer == [];
    GoOn(s6, c2, Reissued());
  }

  const ROUTED: seq<FlowEvent> := [Inserted(FIRST), Inserted(SECOND),
                                   Updated(FIRST.(status := Running), false, true), Updated(SECOND.(status := Running), false, true)]

  // The router installed both flows, the second over the first.
  ghost function Routed(read: nat, waiting: seq<Id>, answers: seq<Answer>): State {
    State([Proxy(2, waiting, 0, read)], [Router(map[7 := [2]], 2)], LOG, ROUTED,
          map[0 := FIRST.(status := Running), 1 := SECOND.(status := Running)], 2, [], {Id(0, 0), Id(0, 1)}, map[7 := 1], {0}, answers)
  }

  lemma InstallOne(routes: map<Bsid, SegList>, b: Bsid, segs: SegList)
    ensures Install(routes, Copies(b, 1), Copies(segs, 1)) == routes[b := segs]
  {
    assert Install(routes[b := segs], Copies(b, 1), Copies(segs, 1), 1) == routes[b := segs];
  }

  lemma ReachRouted()
    ensures Reached(Routed(0, [Id(0, 0), Id(0, 1)], []))
  {
    hide Reached, Install;
    ReachReissued();
    var s := Reissued();
    InstallOne(map[], 7, [1]);
    var s1 := Apply(s, RouterReads(0));
    GoOn(s, RouterReads(0), s1);
    assert s1.routers == [Router(map[7 := [1]], 1)];
    var first: map<Bsid, SegList>, second: map<Bsid, SegList> := map[7 := [1]], map[7 := [2]];
    InstallOne(first, 7, [2]);
    assert first[7 := [2]] == second;
    assert s1.routers[0].routes == first && s1.flowLog[1] == Inserted(SECOND);
    var s2 := Apply(s1, RouterReads(0));
    assert s2.routers == [Router(map[7 := [2]], 2)];
    assert s2.flowLog == ROUTED && s2.table == Routed(0, [], []).table;
    GoOn(s1, RouterReads(0), s2);
  }

  lemma ReachAnswered()
    ensures Reached(Routed(3, [Id(0, 1)], [Positive(FIRST.(status := Running))]))
  {
    hide Reached;
    ReachRouted();
    var q := [Id(0, 0), Id(0, 1)];
    GoOn(Routed(0, q, []), ProxyReadsFlow(0), Routed(1, q, []));
    GoOn(Routed(1, q, []), ProxyReadsFlow(0), Routed(2, q, []));
    assert Without(q, 0) == [Id(0, 1)];
    GoOn(Routed(2, q, []), ProxyReadsFlow(0), Routed(3, [Id(0, 1)], [Positive(FIRST.(status := Running))]));
  }

  // A run after which a positive answer names a binding segment that is routed to segments never
  // committed for the flow it answers for.
  lemma ReissueBreaksAnswer()
    ensures var s := Routed(3, [Id(0, 1)], [Positive(FIRST.(status := Running))]);
      Reached(s) && !OneOwner(s) && !PositivesOwn(s)
  {
    hide Reached;
    ReachAnswered();
    var a := Positive(FIRST.(status := Running));
    var s := Routed(3, [Id(0, 1)], [a]);
    var b: Bsid := 7;
    assert FIRST.bsids[0] == b && SECOND.bsids[0] == b;
    assert 7 in s.table[0].bsids && 7 in s.table[1].bsids;
    assert a in s.answers && 7 in a.row.bsids;
    assert s.flowLog == ROUTED && !Committed(ROUTED, 0, [2]);
    assert !HasOwnRoute(s, a.row, 7);
  }
}
