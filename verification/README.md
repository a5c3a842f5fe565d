# SRN in Dafny

SRN is a software-resolved network: a DNS proxy turns name lookups into flow requests, a
controller computes segment-routed paths for them, and access routers install the paths under
binding segments. The parties talk only through database tables. This project models the parts in
which that can go wrong and proves what they keep.

| part | modules |
|---|---|
| Path engine (`sr-ctrl/graph.c`) | `ShortestPaths`, `Graphs`, `Dijkstra`, `DijkstraProofs`, `DijkstraTheorems`, `PathShapes`, `PathCosts`, `Segments`, `SegmentTheorems`, `SegmentMinimum`, `SegPaths`, `SegPathTheorems`, `Bandwidth`, `DelayBound`, `DelayAlternatives`, `PathEngine` |
| Controller state (`sr-ctrl/sr-ctrl.c`) | `NetState`, `Flows`, `FlowTable`, `FlowPackets` |
| Flow-request protocol | `Protocol`, `ProtocolRoutes`, `ProtocolSafety`, `ProtocolAnswers`, `ProtocolEnd`, `ProtocolTables`, `ProtocolReissue`, `ProtocolGuard`, `ProtocolExact`, `ProtocolRing`, `ProtocolSizes` |
| Longest-prefix-match trie (`lib/lpm.c`) | `Tries`, `TrieEdits`, `TrieDelete`, `TrieSlots`, `TrieHides`, `TrieDefault`, `TrieStore`, `Lpm` |
| Red-black tree (`lib/libredblack-1.3`) | `RedBlackTrees`, `RedBlackStore`, `RedBlackInsert`, `RedBlackDelete`, `RedBlack`, `RedBlackLookup`, `RedBlackRuns` |
| Plumbing (`lib/`) | `ClosableQueue`, `RingMask`, `Rings`, `RingBuffer`, `Transactions`, `TransactionProgress`, `TransactionShares`, `HashMap`, `HashMapRuns`, `RefCounts`, `RefCountRuns`, `Memory`, `Basics` |

## How it is modelled

- A graph is a list of node numbers and a list of directed edges with 32-bit metric, total and available
  bandwidth and delay; the largest value is infinity. The class `PathEngine.Graph` has the source's
  fields and loops; each method is tied to a function, and the theorems are about those functions.
- Segments are executed by an independent definition of forwarding (sections 3.2 and 3.4 of
  RFC 8402): a node segment lets every router choose any neighbour that starts a least-cost walk, an
  adjacency segment crosses its link.
- Linked structures (red-black tree, trie, hash map) keep their records in a map from addresses to
  records, so that links, aliasing, in-place updates and freeing are explicit. Ghost trees and places
  say what the records spell out. Addresses of new records are parameters.
- Concurrent parts (protocol, flow table, queue, ring buffer, transaction workers) are transition
  systems; a run is a sequence of states joined by enabled steps, and the theorems hold in every state
  of every run. Each database callback is one atomic step, and a table's changes reach each client in
  order (sections 4.1.5 and 4.1.6 of RFC 7047).
- The transaction workers take from the ring buffer, as in the source. The protocol is stated first over a
  queue that hands each request out once; `ProtocolRing` runs the same steps over the ring, where a worker
  thread holds a request from taking it to deciding it, and `ProtocolSizes` says for which sizes the two
  agree. A full ring makes the callback wait (sbuf.c:32-39); the documentation says that requests are
  dropped (sr-ctrl/README.md:21).
- Random numbers, time, allocation addresses and network replies are parameters of the steps.

## Findings

- `graph_minseg` looks only at the number of predecessors at graph.c:892. The segments keep packets
  on the path exactly when every hop is good: its link is a least-cost way to the next node, or the
  next node has several tight predecessors seen from the hop's start (`SegmentsPreservePath` for one
  leg, `TripIsExact` for whole trips). Pruning for bandwidth can lose the path: with a dear direct link
  and a cheap way round that lacks the bandwidth, the direct link is found and its segments take every
  packet the cheap way (`PruningCanLoseThePath`).
- `graph_minseg` does not always use the fewest segments: before it names a link it names the node in
  front of it even where the list already leads there, the path's own start among them (`StartNamedInVain`).
  For a path of good hops the list is longer than the shortest list that pins packets to the path by exactly
  the number of such places, plus one for a path without hops (`FewestSegments`, `ShortestListIffNoExtra`).
- The controller recomputes a flow only if an edge of its path is gone or changed. When a cheaper way round
  appears elsewhere, a flow that counts as unaffected can have all its packets on that way, off the links it
  was admitted for (`UnaffectedFlowStrays`). Its packets keep to a walk if and only if the walk passes a
  check against the predecessor lists the controller has cached (`PacketsStayIffChecked`).
- A flow is stored with an edge path if and only if it has no waypoint, since a waypoint appears twice
  among the collected nodes (`EdgePathNeedsNoWaypoint`).
- Under a delay bound the first path listed is within it, and so is every path whose nodes before the
  last have one predecessor (`OneWayPathsWithinDelay`); another equal-cost alternative can exceed it
  (`AlternativeExceedsBound`). The search keeps one delay per node, that of its cheapest way, so it can find
  no path although one is within the bound (`BoundMissesPath`); a bound no simple chain exceeds changes nothing
  (`LooseBoundIsMetric`).
- The covering insertion of the trie picks the displaced child's slot from the new prefix's own
  padding bit (lpm.c:229-233). `FitsByContents` gives the exact condition in terms of the stored
  prefixes for the slots to stay right, `WrongSlotHidesMatch` four insertions after which a lookup misses
  the longest match. In any trie, once an insertion has put a child more than one bit longer into the wrong
  slot, one or two further insertions that meet the condition make a lookup miss the longest match
  (`OneInsertHides`, `TwoInsertsHide`).
- Deleting the empty prefix makes the head virtual. If it has children, the lookups right after it are
  right if and only if it has both (`DefaultDeleteServes`), that is, if the other prefixes begin with both bits
  (`DefaultDeleteByContents`); an only child is taken over and its bits are no longer compared. Without
  children the head's missing parent is read.
- The ring buffer masks counters with capacity - 1, which is first in, first out exactly for powers
  of two (`RingIsFifoIffPowerOfTwo`); for every other capacity some run loses a value and hands another out
  twice (`OnceIffPowerOfTwo`). Both queues built on it inherit this. Unless the number of transaction workers
  is a power of two, two of them can hold the same transaction (`SharesIffNotPowerOfTwo`). Unless
  `req_buffer_size` is one, a request can be taken twice (`TakenOnceIffPowerOfTwo`) and, with two or more
  worker threads, a request turned down can have a flow (`FatesIffPowerOfTwo`). The documented
  `req_buffer_size 10` (sr-ctrl/README.md:34) is not one (`DocumentedSizeFails`).
- A binding segment is free again as soon as its flow is collected. If it is issued anew before the
  first flow's answer is sent, the answer can name a route of another flow (`ReissueBreaksAnswer`). The
  exact condition is a guard on the commit of a flow: no flow of that router with that binding segment has a
  request still waiting at its proxy. The waiting requests are inside the proxies, so the controller would
  have to be told which ones are answered; the tables do not say. Under the guard every positive answer
  names the flow's own routes (`GuardedAnswersAreOwn`), and every commit that breaks it can be followed
  by an answer that does not (`GuardIsExact`).
- `graph_prune` drops list entries without releasing them (graph.c:658-678). Counts are exactly the
  references plus those dropped, so an edge pruned from a copy is never freed, and nothing else leaks
  (`RefCountRuns.Replay`).
- `linkstate_update` writes bandwidth and delay twice into the same direction (sr-ctrl.c:944); the
  opposite direction keeps the old values. An update keeps the directions alike if and only if it leaves
  both bandwidths and the delay as they are (`UpdateKeepsSymmetry`).

## Model

| member | source | states |
|---|---|---|
| `Graphs.MinEdgeIsLeast` | sr-ctrl/graph.c:302-323 | The minimal edge joins the two nodes, is usable, none usable is cheaper, and there is one exactly when some usable edge joins them |
| `Graphs.NeighboursAreUsable` | sr-ctrl/graph.c:350-376 | A node's neighbours are exactly the remote ends of its usable edges, each listed once |
| `Graphs.FinalizedIsConsistent` | sr-ctrl/graph.h:180-185 | After finalizing, both indexes describe the same usable links between listed nodes |
| `PathEngine.Graph.GetMinimalEdge` | sr-ctrl/graph.c:302-323 | The scan returns the minimal edge of the edge list |
| `PathEngine.Graph.ComputeMinimalEdges` | sr-ctrl/graph.c:325-348 | The index holds the minimal edge of every ordered pair and nothing else |
| `PathEngine.Graph.ComputeNeighbours` | sr-ctrl/graph.c:350-376 | The scan returns the usable neighbours in order of first appearance |
| `PathEngine.Graph.ComputeAllNeighbours` | sr-ctrl/graph.c:378-396 | The index holds every node's neighbours |
| `PathEngine.Graph.Finalize` | sr-ctrl/graph.h:180-185 | Both indexes agree with the nodes and edges, and the graph is unmarked |
| `PathEngine.Graph.Clone` | sr-ctrl/graph.c:399-425 | A new graph with the same nodes and edges, marked as a clone, without indexes or cache |
| `PathEngine.Graph.DeepCopy` | sr-ctrl/graph.c:427-467 | A new graph with equal nodes, edges, numbers and counters |
| `PathEngine.Graph.AddNode` | sr-ctrl/graph.c:142-161 | A node numbered one past the last is appended and the graph is marked |
| `PathEngine.Graph.AddEdge` | sr-ctrl/graph.c:254-284 | An edge numbered one past the last is appended, for a symmetric one after the edge the other way, and the graph is marked |
| `PathEngine.Graph.RemoveEdge` | sr-ctrl/graph.c:286-300 | Exactly the given edge leaves the list and the graph is marked; nothing happens if it is not there |
| `PathEngine.Graph.RemoveNode` | sr-ctrl/graph.c:163-185 | The node and exactly the edges from or to it leave the lists; nothing happens if it is not there |
| `PathEngine.RemovedTopology` | sr-ctrl/graph.c:163-185 | What is left is a topology in which nothing names the node |
| `PathEngine.Graph.FindEdge` | sr-ctrl/graph.c:240-252 | The first edge with the given address pair, or none |
| `PathEngine.Graph.FindEdgeById` | sr-ctrl/graph.c:226-238 | The first edge with the given number, or none |
| `PathEngine.Graph.Prune` | sr-ctrl/graph.c:658-678 | Exactly the edges with too little bandwidth leave the list, and their number is returned |
| `PathEngine.ComputePaths` | sr-ctrl/graph.c:472-500 | Every chain of predecessors back to the source is appended to the result, prefixed by the path so far |
| `PathEngine.PickLeast` | sr-ctrl/graph.c:559-575 | The first queued node of least finite distance, or none |
| `DijkstraProofs.TryEdgeInv` | sr-ctrl/graph.c:605-624 | Offering an edge to a queued neighbour keeps settled distances exact and predecessors tight, and leaves one link fewer to relax |
| `PathEngine.Graph.SettleNext` | sr-ctrl/graph.c:577-625 | One iteration of the main loop equals one step of the functional search |
| `PathEngine.Graph.Dijkstra` | sr-ctrl/graph.c:517-636 | The search returns the tables of the functional search, whose paths are of least delay under the delay hook and of least metric otherwise (`PathCosts`), and the minimal edge it looks up is always there |
| `DijkstraTheorems.DistancesAreExact` | sr-ctrl/graph.c:517-636 | Over links that cost their delay under the delay hook and their metric otherwise, without overflow: all distances are least, unreachable nodes keep infinity and empty path lists, and every listed path is a simple least-cost walk, listed once |
| `DijkstraTheorems.EqualCostPathsAreAllFound` | sr-ctrl/graph.c:472-500 | The predecessor lists hold exactly the tight predecessors, each once, and no least-cost walk from the source is missing from a node's paths, which are reversed and without the source |
| `PathCosts.LeastDelay` | sr-ctrl/sr-ctrl.c:485-496 | With the delay hook the first path has the least sum of link delays of all chains of links to the node, and there is none only if no chain leads there |
| `PathCosts.LeastMetric` | sr-ctrl/graph.c:517-636 | Without a hook the first path has the least sum of link metrics, and there is none only if no chain leads there |
| `PathShapes.FirstPathIsChain` | sr-ctrl/graph.c:517-636 | Under any cost hooks, whatever sums they form, the first path listed is a chain of links from the source to the node without repetition |
| `SegmentTheorems.ForwardingIsShortest` | sr-ctrl/graph.c:851-936 | Forwarding towards a node under arbitrary equal-cost choices delivers along exactly the least-cost walks |
| `SegmentTheorems.GoodHopByPrev` | sr-ctrl/graph.c:889-892 | A hop is good exactly when its start is among the next node's predecessors computed from that start, or there are several of these |
| `SegmentTheorems.LegIsExact` | sr-ctrl/graph.c:851-936 | Segments for a path of good hops, appended to segments that pin the packet to the path's start, pin it to the whole path |
| `SegmentTheorems.SegmentsPreservePath` | sr-ctrl/graph.c:851-936 | The segments of a simple path let packets follow exactly that path if and only if all its hops are good |
| `SegmentTheorems.BadPathIsLost` | sr-ctrl/graph.c:889-894 | With a bad hop no packet can follow the path through its segments |
| `SegmentTheorems.ShortestIsGood` | sr-ctrl/graph.c:1059-1072 | Every least-cost path has only good hops |
| `SegmentMinimum.NamesNothingIffUnique` | sr-ctrl/graph.c:889-918 | A hop adds no segment if and only if the stretch from where the list leads through the next node is the only least-cost walk |
| `SegmentMinimum.UniqueTakesOneSegment` | sr-ctrl/graph.c:851-936 | The only least-cost walk gets one segment, its last node |
| `SegmentMinimum.PinnedIsExact` | sr-ctrl/graph.c:851-936 | Any list carries packets along a walk and nowhere else if and only if the walk falls into one stretch for each segment: the only least-cost walk to a node named, or a link named |
| `SegmentMinimum.UniqueByPrev` | sr-ctrl/graph.c:889-892 | A walk is the only least-cost one if and only if each node but the first has the one before as its sole predecessor seen from the first |
| `SegmentMinimum.ChecksAreExact` | sr-ctrl/graph.c:851-936 | Any list carries packets along a walk and nowhere else if and only if the walk passes a check that reads only predecessor lists and links |
| `SegmentMinimum.FewestSegments` | sr-ctrl/graph.c:851-936 | For a path of good hops no list that pins packets to it is shorter than the lean one, and that of the loop is longer by exactly the nodes named where the list already led, and one for a path without hops |
| `SegmentMinimum.ShortestListIffNoExtra` | sr-ctrl/graph.c:889-918 | The list is a shortest one if and only if nothing was named in vain |
| `SegmentMinimum.StartNamedInVain` | sr-ctrl/graph.c:889-918 | A link that is one of several least-cost ways gets its own start named before it, one segment too many |
| `PathEngine.Graph.ResultFor` | sr-ctrl/graph.c:876-887 | A cached and a fresh result are the same |
| `PathEngine.Graph.OneHop` | sr-ctrl/graph.c:889-918 | One hop of the segment computation, all branches; `NamesNothingIffUnique` says when it adds nothing and `LegIsExact` what is added |
| `PathEngine.Graph.MinSeg` | sr-ctrl/graph.c:851-936 | The loop appends the segments of the functional definition, with or without cache, and fails on a missing link; `SegmentsPreservePath` says where they lead and `FewestSegments` how many they are |
| `PathEngine.Graph.BuildCache` | sr-ctrl/graph.c:802-837 | The cache holds every node's result and each equals recomputation |
| `PathEngine.Graph.EdgePath` | sr-ctrl/graph.c:938-973 | The minimal edge of every hop, or failure if a link is missing |
| `PathEngine.Graph.PrunedCopy` | sr-ctrl/graph.c:1037-1043 | A finalized copy without the edges that lack bandwidth; the graph itself is untouched |
| `PathEngine.Graph.BuildSegpath` | sr-ctrl/graph.c:1010-1111 | Segments and edge path leg by leg over the waypoints, failing exactly when a leg fails |
| `SegPathTheorems.TripFails` | sr-ctrl/graph.c:1052-1062 | The computation fails exactly when some waypoint cannot be reached from the one before in the pruned graph |
| `SegPathTheorems.TripIsExact` | sr-ctrl/graph.c:1052-1088 | Under any cost hooks: every leg is a simple chain of links, of least cost in the pruned graph if the hooks add up metrics, and the segments pin packets to the legs one after the other if and only if every hop is good in the full graph |
| `SegPathTheorems.TripIsLost` | sr-ctrl/graph.c:1052-1088 | Under any cost hooks: once a leg has a bad hop, no packet follows the legs, whatever segments come after |
| `SegPathTheorems.PlainTripIsExact` | sr-ctrl/graph.c:1052-1088 | Without pruning and by metric the segments always pin packets to the legs |
| `Bandwidth.PrunedKeeps` | sr-ctrl/sr-ctrl.c:406-422 | Pruning keeps exactly the edges with enough available bandwidth |
| `Bandwidth.PrunedInOrder` | sr-ctrl/graph.c:658-678 | Pruning keeps the order of the edges kept |
| `Bandwidth.DemandIsMet` | sr-ctrl/graph.c:1010-1111 | With one link per ordered pair and no waypoint: failure exactly when no chain of links has the bandwidth, otherwise the edge path is such a chain of least total cost |
| `Bandwidth.EdgePathNeedsNoWaypoint` | sr-ctrl/graph.c:1074-1100 | Under any cost hooks: a trip that is found has an edge path if and only if it has no waypoint |
| `Bandwidth.PruningCanLoseThePath` | sr-ctrl/graph.c:892-894 | A dear link with bandwidth beside a cheap detour without: the trip found is the link, and its segments take every packet over the detour and none over the link |
| `DelayBound.FirstPathWithinDelay` | sr-ctrl/sr-ctrl.c:424-483 | Under the delay-bounded cost the first path listed leads to the node over links whose delays sum to at most the bound |
| `DelayBound.OneWayPathsWithinDelay` | sr-ctrl/sr-ctrl.c:424-483 | The same for every path listed whose nodes before the last have one predecessor each |
| `DelayAlternatives.AlternativeExceedsBound` | sr-ctrl/sr-ctrl.c:424-483 | In a graph where a router is reached twice at equal cost, a path listed for the next router exceeds the bound |
| `DelayAlternatives.ForkGraph` | sr-ctrl/sr-ctrl.c:424-483 | Four links with such metrics and delays make such a graph |
| `DelayAlternatives.BoundMissesPath` | sr-ctrl/sr-ctrl.c:424-483 | In a graph where the cheapest way to a router is slow, no path is found to the next one although a chain of links within the bound leads there |
| `DelayAlternatives.SlowGraph` | sr-ctrl/sr-ctrl.c:424-483 | Four links with such metrics and delays make such a graph |
| `PathCosts.LooseBoundIsMetric` | sr-ctrl/sr-ctrl.c:424-483 | Under a bound no simple chain from the source exceeds, the bounded search returns what plain metrics return |
| `NetState.NetState.NodeRead` | sr-ctrl/sr-ctrl.c:756-821 | A new router gets a node of its own, a known one is refused; the state stays valid |
| `NetState.NetState.LinkRead` | sr-ctrl/sr-ctrl.c:823-910 | Two opposite edges, alike, are added exactly when both routers are known and neither direction is; they have the metric read, infinity for zero; the state stays valid |
| `NetState.NetState.LinkUpdate` | sr-ctrl/sr-ctrl.c:912-988 | Exactly when both directions are known both get the metric and the first also bandwidths and delay, all other edges and columns staying; the state stays valid, and both directions stay alike exactly when only the metric changes |
| `NetState.NetState.LinkDelete` | sr-ctrl/sr-ctrl.c:990-1019 | Exactly the edges that run between the two addresses go; the graph is marked in any case and the state stays valid |
| `NetState.ReadThenDelete` | sr-ctrl/sr-ctrl.c:823-1019 | Deleting a link right after it was read leaves the edges as they were |
| `NetState.NetState.GraphSync` | sr-ctrl/sr-ctrl.c:166-201 | Afterwards the published graph equals the unmarked staging graph, its indexes and cache agree with recomputation, and an unmarked staging graph leaves it alone |
| `NetState.UpdateKeepsSymmetry` | sr-ctrl/sr-ctrl.c:940-973 | In the edge list after an update the two directions of a link are alike, as before, exactly when bandwidths and delay do not change |
| `Flows.FlowAffected` | sr-ctrl/sr-ctrl.c:1235-1256 | True exactly when an edge of the stored path has no edge in the graph with its number and metric |
| `Flows.IntactIsPublished` | sr-ctrl/sr-ctrl.c:1235-1256 | With distinct edge numbers the look-up by number finds a path unchanged exactly when the graph has each of its edges at the same metric |
| `Flows.CompareSegments` | sr-ctrl/graph.c:773-800 | True exactly when the lists have the same kinds and numbers in the same order |
| `Flows.SameIsEqual` | sr-ctrl/graph.c:773-800 | Two lists over the links of one graph compare equal exactly when they are the same |
| `Flows.TripFacts` | sr-ctrl/graph.c:1052-1062 | A flow without waypoints gets a path exactly when its destination is reachable over links with its bandwidth, and the path runs over such links |
| `Flows.RoutedIsIntact` | sr-ctrl/graph.c:938-973 | The stored edges of a routed flow are edges of the graph it was routed in |
| `Flows.RoutedFollows` | sr-ctrl/sr-ctrl.c:1158-1233 | A flow a path is found for gets the edges of a least-cost walk over links with its bandwidth, and segments that carry every packet along that walk and nowhere else if and only if its hops are good in the full graph |
| `Flows.ReroutedIsSettled` | sr-ctrl/sr-ctrl.c:1158-1233 | A recomputed flow has its edges published at their metrics, or has no path, or is orphaned; if there is a path, segments and edges are those of one walk as in `RoutedFollows` |
| `Flows.RecomputeFlow` | sr-ctrl/sr-ctrl.c:1158-1233 | Orphaned, left alone or rerouted as specified; if there is a path, segments and edges are those of one walk as in `RoutedFollows`; the row is updated exactly when the segments name other nodes or links |
| `FlowTable.StepKeepsInv` | sr-ctrl/sr-ctrl.c:1258-1342 | Every step of callbacks, workers and monitor thread keeps all flows settled but those the monitor still has to see to |
| `FlowTable.FlowsFollowTheGraph` | sr-ctrl/sr-ctrl.c:1299-1342 | In every state of every run each flow's segments and edges are those of one walk, as in `RoutedFollows`, in a graph published then or before; outside the time from synchronization to the end of recomputation each flow has its edges published at the same metric, or no path, or is orphaned; an unmarked staging graph is the published one |
| `FlowTable.TableHoldsTheAdmitted` | sr-ctrl/sr-ctrl.c:693-745 | The table holds exactly the flows admitted and not collected since, with the ends, bandwidth and hook asked for |
| `FlowPackets.PacketsStayIffChecked` | sr-ctrl/sr-ctrl.c:1235-1256 | In every state of every run a flow's packets keep to a walk of the published graph and nowhere else if and only if the walk passes the check of `ChecksAreExact` |
| `FlowPackets.UnaffectedFlowStrays` | sr-ctrl/sr-ctrl.c:1235-1256 | A run to a state at rest with the graph up to date in which a flow has all its edges published at their metrics and every packet takes another way |
| `ProtocolSafety.StepKeepsAnswers` | sr-dnsproxy/client.c:201-238 | Every step keeps queued requests distinct and unanswered, and no request answered twice |
| `ProtocolSafety.StepKeepsFates` | sr-ctrl/sr-ctrl.c:583-745 | With a queue that hands each request out once, as the ring does exactly for power-of-two sizes, every step keeps each request read in exactly one of: with the workers, turned down, having one flow |
| `ProtocolSafety.StepKeepsNegatives` | sr-dnsproxy/monitor.c:31-81 | Every step keeps: a negative answer comes from a request turned down; `RefusalsAreAnswered` is the converse |
| `ProtocolRoutes.RouterKeepsFlows` | sr-routed/sr-routed.c:106-216 | Installing and refreshing keeps every reported flow's binding segments routed, each to segments committed for that flow while no binding segment is shared |
| `ProtocolRoutes.InstallFacts` | sr-routed/sr-routed.c:133-153 | After installing, every binding segment of the row has one of the row's segment lists and all other routes are as before |
| `ProtocolRoutes.RefreshFacts` | sr-routed/sr-routed.c:185-210 | Refreshing adds and drops no route; every routed binding segment of the row gets one of the row's lists and all other routes stay |
| `ProtocolRoutes.CommitKeepsFlows` | sr-ctrl/sr-ctrl.c:693-721 | Committing a flow keeps the flow invariants |
| `ProtocolRoutes.StepKeepsFlows` | sr-routed/sr-routed.c:106-163 | Every step keeps rows, reports and routes in line |
| `ProtocolSafety.RunsAreSafe` | sr-dnsproxy/monitor.c:31-118 | With such a queue, in every state of every run: no request answered twice; requests turned down have no flow; every binding segment in a positive answer is routed by its access router, to segments committed for that flow while no router's binding segment is in two rows |
| `ProtocolAnswers.StepKeepsAnswered` | sr-dnsproxy/monitor.c:31-118 | Every step keeps: each number given out is in the request table and waits or is answered, a request whose proxy read the refusal no longer waits, and a request with a flow is marked allowed or about to be |
| `ProtocolAnswers.WaitingOrAnswered` | sr-dnsproxy/monitor.c:31-118 | In every state of every run each number given out is waiting or answered, never both; one answered is answered negatively if it was turned down and positively, with its own flow, if it has one |
| `ProtocolAnswers.RefusalsAreAnswered` | sr-dnsproxy/monitor.c:31-81 | In every state of every run a refusal its proxy has read no longer waits and has a negative answer |
| `ProtocolAnswers.ReportsAreAnswered` | sr-dnsproxy/monitor.c:83-118 | In every state of every run a report its proxy has read no longer waits and has a positive answer with the flow reported |
| `ProtocolAnswers.AllAnsweredInTheEnd` | sr-dnsproxy/monitor.c:31-118 | Once the workers are idle and everything is read, every request made is answered as it was decided, and exactly those without a flow were turned down |
| `ProtocolEnd.EveryoneCanBeAnswered` | sr-dnsproxy/monitor.c:31-118 | From every state of every run some continuation without new requests reads everything and answers every request as it was decided |
| `ProtocolTables.RoutersFollowTheLog` | sr-routed/sr-routed.c:106-216 | In every state of every run a router has a route for a binding segment if and only if it has read an event that writes one, and then the last such event's |
| `ProtocolTables.LiveFlowsAreRouted` | sr-routed/sr-routed.c:106-216 | In every state of every run a live flow has its row, and once its router has read everything its binding segment is routed to that row's segments |
| `ProtocolTables.RowsEnd` | sr-ctrl/sr-ctrl.c:1113-1156 | In every state of every run each row is that of a live flow, or of a collected one that is marked expired or about to be |
| `ProtocolTables.RowsAreAsDecided` | sr-ctrl/sr-ctrl.c:693-721 | In every state of every run each row is that of a request a worker committed, with the router and binding segment chosen then and the segments decided on last |
| `ProtocolReissue.ReissueBreaksAnswer` | sr-ctrl/sr-ctrl.c:399-404 | A run in which a collected flow's binding segment is reissued and a positive answer names a route never committed for its flow |
| `ProtocolGuard.StepKeepsGuard` | sr-ctrl/sr-ctrl.c:399-404 | Every step that commits only under binding segments no waiting flow of the router holds keeps: waiting flows their router knows have their own routes |
| `ProtocolGuard.GuardedAnswersAreOwn` | sr-dnsproxy/monitor.c:83-118 | In every run of such steps each positive answer, when sent, names only binding segments routed to segments committed for the flow answered for |
| `ProtocolExact.StepKeepsProgress` | sr-routed/sr-routed.c:106-163 | Every step keeps: a flow known to its router is reported, and a request whose proxy read the report no longer waits |
| `ProtocolExact.BadCommitMisleads` | sr-ctrl/sr-ctrl.c:399-404 | After a commit that breaks the guard some continuation sends a positive answer that names another flow's route |
| `ProtocolExact.GuardIsExact` | sr-ctrl/sr-ctrl.c:399-404 | After every guarded run, a step meets the guard if and only if no guarded continuation sends such an answer |
| `ProtocolRing.RingIsQueue` | sr-ctrl/sr-ctrl.c:1095-1112 | For a power-of-two ring every run over the ring is, with taken and unread requests in one queue, a run of the protocol |
| `ProtocolRing.RingRunsAreSafe` | sr-ctrl/sr-ctrl.c:1095-1112 | For a power-of-two ring, in every state of every run over the ring: each request read is in exactly one of ring or worker's hands, turned down, having one flow; and all of `RunsAreSafe` |
| `ProtocolRing.RingAnswersAreOwn` | sr-dnsproxy/monitor.c:83-118 | For a power-of-two ring and guarded commits each positive answer, when sent, names only binding segments routed to segments committed for the flow answered for |
| `ProtocolRing.RingAnswersAll` | sr-ctrl/sr-ctrl.c:1095-1112 | For a power-of-two ring, once it is empty, the workers are idle and everything is read, every request made is answered as it was decided |
| `ProtocolSizes.TakenOnceIffPowerOfTwo` | sr-ctrl/sr-ctrl.c:1467 | No run over the ring takes a request twice if and only if the ring has a power of two of slots |
| `ProtocolSizes.FatesIffPowerOfTwo` | sr-ctrl/sr-ctrl.c:1467 | With two or more worker threads, requests turned down never have a flow if and only if the ring has a power of two of slots |
| `ProtocolSizes.DocumentedSizeFails` | sr-ctrl/README.md:34 | With ten slots one worker thread takes a request twice, and with two a request turned down has a flow |
| `Tries.FindIsBest` | lib/lpm.c:79-116 | In a trie with children in their slots the walk returns the longest match below, or what came from above |
| `Tries.LookupIsLongestMatch` | lib/lpm.c:79-128 | From the head the walk returns the value of the longest stored prefix of the address, none if there is none |
| `TrieEdits.CommonLen` | lib/lpm.c:172-188 | The bits agree up to the result and differ there unless the maximum is reached |
| `TrieEdits.StoredWhere` | lib/lpm.c:130-170 | A prefix is stored exactly when the exact walk stops at a real node of that length, with that node's value |
| `TrieEdits.SharedIsBetween` | lib/lpm.c:225-241 | What a displaced child shares with the new prefix is longer than the parent and shorter than the child, so the asserts of the insertion hold |
| `TrieEdits.InsertRefinesMap` | lib/lpm.c:190-257 | Insertion keeps slots and canonical form exactly when it displaces no child into the wrong slot, and then sets that prefix and no other |
| `TrieSlots.FitsByContents` | lib/lpm.c:229-233 | That condition in terms of contents: the prefix is stored, or no stored prefix continues it with the bit opposite to its padding bit, or one continues it with the padding bit |
| `TrieSlots.WrongSlotHidesMatch` | lib/lpm.c:229-233 | Four insertions into an empty trie after which a lookup returns a shorter match than the longest stored one |
| `TrieHides.OneInsertHides` | lib/lpm.c:229-233 | In every trie: after an insertion that displaces a child more than one bit longer into slot one instead of zero, one insertion that meets the condition makes a lookup return another value than the longest match's |
| `TrieHides.TwoInsertsHide` | lib/lpm.c:229-233 | In every trie: after one that displaces such a child into slot zero instead of one, two such insertions do |
| `TrieDelete.MergeStep` | lib/lpm.c:279-307 | Merging a virtual node with its only child keeps slots, canonical form elsewhere, and contents |
| `TrieDelete.DropStep` | lib/lpm.c:309-322 | Dropping a childless virtual node keeps slots, canonical form elsewhere, and contents |
| `TrieDelete.ForkIsTight` | lib/lpm.c:259-277 | The children of a node share exactly the node's bits, so the assert holds and the length never changes |
| `TrieDefault.DefaultDeleteServes` | lib/lpm.c:324-354 | After deleting the empty prefix of a trie with children, every lookup returns the longest match among the other prefixes if and only if the head had both children |
| `TrieDefault.DefaultDeleteByContents` | lib/lpm.c:324-354 | The same in terms of contents: the other prefixes begin with both bits |
| `TrieDefault.FindSkipsBits` | lib/lpm.c:79-116 | The walk never looks at the bits its first node stands for |
| `Lpm.CommonPrefixLen` | lib/lpm.c:172-188 | The loop computes the number of common leading bits |
| `Lpm.LpmTree.Lookup` | lib/lpm.c:79-128 | Returns the value of the longest stored prefix of the address |
| `Lpm.LpmTree.LookupExact` | lib/lpm.c:130-170 | Returns the node of exactly that prefix if it is real, and the node where the walk ends |
| `Lpm.LpmTree.Insert` | lib/lpm.c:190-257 | The records spell out the trie after the insertion; the tree stays valid exactly when the contents satisfy the slot condition, and then maps the prefix to the value and is otherwise unchanged |
| `Lpm.LpmTree.MergeChild` | lib/lpm.c:279-307 | The node's record takes over the child's, grandchildren get new parents, the child's record is freed |
| `Lpm.LpmTree.DropEmpty` | lib/lpm.c:309-322 | The parent's slot is cleared and the record freed |
| `Lpm.LpmTree.OptimizeVirtual` | lib/lpm.c:324-342 | Terminates, restores the canonical form, keeps the contents and frees only |
| `Lpm.LpmTree.Delete` | lib/lpm.c:344-365 | Removes exactly the prefix, returns its value if it was stored, keeps the tree valid and allocates nothing |
| `Lpm.LpmTree.DeleteDefault` | lib/lpm.c:344-365 | For the empty prefix of a tree with more: the records spell out the head made virtual, merged with an only child, and the value is returned |
| `Lpm.Replay` | lib/lpm.c:118-365 | In every run of admissible insertions, replacements, non-default deletions and lookups each lookup returns the longest match among the prefixes then stored |
| `RedBlackTrees.HeightIsLogarithmic` | lib/libredblack-1.3/redblack.c:294-439 | The height h of a red-black tree of n keys satisfies 2^((h+1)/2) <= n+1, halving rounded down, so h is at most 2*log2(n+1) |
| `RedBlackInsert.PushKeeps` | lib/libredblack-1.3/redblack.c:371-386 | Recolouring moves the only possible violation two levels up |
| `RedBlackInsert.OutwardKeeps` | lib/libredblack-1.3/redblack.c:389-395 | The inner rotation keeps the violation where the outer one expects it |
| `RedBlackInsert.RaiseKeeps` | lib/libredblack-1.3/redblack.c:397-402 | The outer rotation ends the violation |
| `RedBlackDelete.RedSibling` | lib/libredblack-1.3/redblack.c:768-775 | A red sibling is turned into a black one with the same shortage |
| `RedBlackDelete.BlackFamily` | lib/libredblack-1.3/redblack.c:777-781 | With black nephews the shortage moves to the parent |
| `RedBlackDelete.RedNear` | lib/libredblack-1.3/redblack.c:784-790 | A red near nephew becomes a red far one |
| `RedBlackDelete.RedFar` | lib/libredblack-1.3/redblack.c:793-797 | A red far nephew ends the shortage |
| `RedBlack.RbTree.LeftRotate` | lib/libredblack-1.3/redblack.c:563-606 | The records spell out the rotated tree, parent links included, and no key changes |
| `RedBlack.RbTree.RightRotate` | lib/libredblack-1.3/redblack.c:608-651 | The same for the right rotation |
| `RedBlack.RbTree.Descend` | lib/libredblack-1.3/redblack.c:302-325 | The walk ends at the key's node, or at the empty place between its neighbours |
| `RedBlack.RbTree.Mend` | lib/libredblack-1.3/redblack.c:361-436 | The fix-up ends with a red-black tree of the same keys in the same order |
| `RedBlack.RbTree.Insert` | lib/libredblack-1.3/redblack.c:294-439 | The tree stays a linked red-black search tree with no record besides its own, its keys gain exactly the key, and nothing changes if it was there |
| `RedBlack.RbTree.Restore` | lib/libredblack-1.3/redblack.c:759-836 | The fix-up after a removal ends with a red-black tree of the same keys in the same order |
| `RedBlack.RbTree.Delete` | lib/libredblack-1.3/redblack.c:718-756 | The tree stays a linked red-black search tree with no record besides its own, and its keys lose exactly the key |
| `RedBlack.OneRecordEach` | lib/libredblack-1.3/redblack.c:294-836 | The records allocated are exactly those of the tree's nodes and the sentinel |
| `RedBlack.RbTree.Successor` | lib/libredblack-1.3/redblack.c:655-682 | The node of the next key in order, none at the end |
| `RedBlack.RbTree.Predecessor` | lib/libredblack-1.3/redblack.c:686-713 | The node of the previous key in order, none at the start |
| `RedBlackLookup.Lookup` | lib/libredblack-1.3/redblack.c:444-527 | For each of the nine modes the extreme key among those the mode admits, none if there is none |
| `RedBlackLookup.RbList.Read` | lib/libredblack-1.3/redblack.c:890-902 | The next key in ascending order, none at the end |
| `RedBlackLookup.ReadAll` | lib/libredblack-1.3/redblack.c:867-902 | Repeated reading of an unchanged tree yields every key once in ascending order |
| `RedBlackRuns.Replay` | lib/libredblack-1.3/redblack.c:294-836 | In every run of insertions, deletions and lookups the tree holds exactly the keys of a plain set and each lookup gets the key it names |
| `ClosableQueue.StepKeepsCounts` | lib/linked_list.c:35-151 | Every action keeps the books of slots and elements, including the closing thread's extra tokens |
| `ClosableQueue.QueueIsSafe` | lib/linked_list.c:35-138 | In every interleaving the list stays within its maximum, nobody takes from an empty list, nothing is lost or made up, and order is kept unless an element is removed from the middle |
| `ClosableQueue.NobodyIsStuck` | lib/linked_list.c:140-151 | After closing with a token posted to a semaphore, that semaphore is at zero only while some caller is bound to post to it |
| `ClosableQueue.ClosingAddsUp` | lib/linked_list.c:140-151 | In every interleaving the queue is closed exactly after a close, and the tokens posted and still owed to each semaphore are those asked for |
| `ClosableQueue.EntersWhatWasCalled` | lib/linked_list.c:35-60 | What a caller puts at the end of the list is the argument of its call |
| `ClosableQueue.EveryoneGetsOut` | lib/linked_list.c:140-151 | In every interleaving, once closing has posted to both semaphores, every caller can return by actions of callers alone |
| `RingMask.SlotIsModulo` | lib/sbuf.h:17-22 | For a power of two the masked counter is the count modulo the capacity, also after the 64-bit counter wraps |
| `RingMask.MaskNeedsPowerOfTwo` | lib/sbuf.h:17 | The mask keeps every window of capacity-many counters apart exactly when the capacity is a power of two |
| `RingMask.TenOverwrites` | sr-ctrl/README.md:34 | With capacity ten the first and third counter share a slot |
| `Rings.PushAppends` | lib/sbuf.h:17-22 | For a power of two, storing a value in a ring with room appends it to the unread ones |
| `Rings.PopDrops` | lib/sbuf.h:17-22 | Loading returns what the slot of the oldest unread count holds and leaves those of the others |
| `RingBuffer.StoreKeepsContents` | lib/sbuf.c:32-39 | A push overwrites no value still to be read |
| `RingBuffer.LoadKeepsContents` | lib/sbuf.c:54-65 | A pop returns the oldest value still to be read |
| `RingBuffer.RingIsFifoIffPowerOfTwo` | lib/sbuf.c:32-78 | The popped values are a prefix of the pushed ones in every interleaving exactly when the capacity is a power of two |
| `RingBuffer.OnceIffPowerOfTwo` | lib/sbuf.c:32-78 | In every interleaving that pushes distinct values none is popped twice exactly when the capacity is a power of two |
| `RingBuffer.TransactionQueueIsFifo` | lib/srdb.c:1458 | The transaction queue is first in, first out exactly when the number of workers is a power of two |
| `Transactions.StepKeepsAwake` | lib/srdb.c:1652-1725 | Every step keeps: a worker asleep with nothing under way has not been signalled for any queued transaction |
| `Transactions.HandleKeepsCore` | lib/srdb.c:1687-1696 | A message handled hands over a result exactly when it is one, to the transaction it answers, which the worker has and which had none and is not freed |
| `Transactions.WorkersAreSafe` | lib/srdb.c:1652-1725 | With a power of two of workers, in every run over the ring of twice that size: results reach the transaction they answer, a transaction in use is with one worker and neither answered nor freed, a busy worker's result is owed or sent, and no live worker signalled for a queued transaction is asleep |
| `Transactions.OneResultEach` | lib/srdb.c:1687-1696 | With a power of two of workers no run hands a transaction a second result; a step hands one over if and only if a worker handles a result it received, and then to a transaction not freed |
| `TransactionProgress.NothingIsLost` | lib/srdb.c:1652-1725 | With a power of two of workers, in every later state of every run: a transaction pushed is queued, with a worker or has its result, and one the server has answered has its result or has it in its worker's inbox |
| `TransactionProgress.FirstIsServed` | lib/srdb.c:1652-1725 | The first transaction of the queue gets its result by steps of one ready worker and one answer of the server |
| `TransactionProgress.ResultIsHandedOver` | lib/srdb.c:1687-1696 | A worker with a result in its inbox hands it over by its own steps |
| `TransactionProgress.WorkersMakeProgress` | lib/srdb.c:1652-1725 | Both in every state of every run with a power of two of workers, even if no other worker moves |
| `TransactionShares.SharesIffNotPowerOfTwo` | lib/srdb.c:1458 | No reached state has a transaction with two workers if and only if the number of workers is a power of two |
| `HashMap.FindAfterPut` | lib/hashmap.c:86-121 | Setting a key is seen by that key alone, keeps keys distinct and every key in its place, and makes the list longer exactly for a new key |
| `HashMap.FindAfterDrop` | lib/hashmap.c:138-154 | Deleting a key is seen by that key alone and keeps keys distinct |
| `HashMap.HashMap.FindEntry` | lib/hashmap.c:94-99 | Searching the one bucket the hash names finds the entry exactly when some entry compares equal |
| `HashMap.HashMap.Get` | lib/hashmap.c:123-136 | The value of the key in the association list, none if it is missing |
| `HashMap.HashMap.Grow` | lib/hashmap.c:59-84 | Every entry moves to the bucket its hash names in the larger table, in key order |
| `HashMap.HashMap.Set` | lib/hashmap.c:86-121 | The association list changes in place for a known key and at the end for a new one; the load stays at most three quarters of the size plus one |
| `HashMap.HashMap.Delete` | lib/hashmap.c:138-154 | Exactly the key's pair leaves the association list and its record is freed |
| `HashMap.HashMap.Flush` | lib/hashmap.c:156-167 | Nothing is left in the lists or in memory |
| `HashMapRuns.Replay` | lib/hashmap.c:86-167 | In every run of sets, gets, deletions and flushes each get returns the value last set under an equal key since it was last deleted |
| `RefCounts.Heap.AddEdge` | sr-ctrl/graph.c:254-284 | The new edge holds its two ends, and counts still are references plus leaks |
| `RefCounts.Heap.Hold` | sr-ctrl/graph.h:62-65 | A further reference is counted |
| `RefCounts.Heap.NodeRelease` | sr-ctrl/graph.h:67-74 | Giving a reference back lowers the count by it, and the node is freed exactly at zero |
| `RefCounts.Heap.EdgeRelease` | sr-ctrl/graph.h:81-90 | The same for an edge, whose ends are released exactly when it is freed |
| `RefCounts.Heap.Release` | sr-ctrl/graph.c:286-300 | A list entry and its reference go; all other lists and all counts stay in order |
| `RefCounts.Heap.CopyList` | sr-ctrl/graph.c:742-771 | A copied list refers to the same objects in the same order, each counted once more |
| `RefCounts.Heap.ReleaseList` | sr-ctrl/graph.c:725-740 | The list is empty, its references are given back, other lists are unchanged |
| `RefCounts.Heap.PruneList` | sr-ctrl/graph.c:658-678 | The list keeps exactly the entries not pruned, and the references of the others leak |
| `RefCounts.Heap.RemoveNode` | sr-ctrl/graph.c:163-185 | The node and the edges from or to it leave their lists and are given back; nothing happens if the node is not listed |
| `RefCounts.Heap.DeepCopy` | sr-ctrl/graph.c:427-467 | The copy's lists hold new objects in the same order, and each new edge joins the copies of the old one's ends |
| `RefCounts.Heap.ReferredIsAllocated` | sr-ctrl/graph.h:11-26 | Whatever is referred to is allocated, with a count of exactly its references plus those pruning leaked |
| `RefCountRuns.Replay` | sr-ctrl/graph.c:142-467 | In every run of additions, single references taken and given back, list copies, deep copies, prunings, node removals and discards each list holds what the operations made of it, everything listed is counted at least as often as listed, and an object is allocated exactly if it is on a list, an end of an edge that is, or leaked; without prunings nothing leaks |
| `RefCountRuns.AllocatedIffNeeded` | sr-ctrl/graph.h:62-90 | An object is allocated exactly if it is on a list, a reference to it was leaked, or it is an end of an edge of which either holds |

## Left out

- Sockets, polling, netlink, the database connection and JSON: only the order of events they deliver is modelled.
- Configuration, rule files, provider selection and DNS packet editing: parsing and copying without state of their own.
- The linked lists under the sequences (`lib/llist.c`, `lib/arraylist.c`): they would add easy members only.
- The rule engine's waypoints as strings: waypoints are taken as nodes.
- ProtocolSafety.RunsAreSafe: own segments are promised only while no binding segment is in two rows of a router; `ProtocolExact.GuardIsExact` has the exact condition, at the step that sends the answer.
- Shutdown of the DNS proxy: once `replies_waiting_controller` is closed, `mqueue_remove` fails and the callbacks answer without removing; the protocol model has an open queue.
- Callbacks, workers and the monitor thread of the concurrent parts: their updates in place are whole steps of a transition system over values; what happens inside one critical section is not interleaved.
- Failed or partial database updates after a commit, and restarts of any party.
- FlowTable.FlowsFollowTheGraph: about flows without waypoints in graphs where no cost or delay sum reaches infinity; a flow with waypoints has no stored edge path for the controller to compare, and recomputation ignores waypoints.
- DijkstraTheorems.DistancesAreExact: excludes cost sums that reach 2^32 - 1, which the 32-bit code cannot represent.
- TrieHides.OneInsertHides: a displaced child exactly one bit longer, /127 over /128 among them, is left open: whether a lookup can go wrong then turns on later deletions below the child.
- TrieDefault.DefaultDeleteServes: about the lookups right after the deletion; operations after it are not followed.
- ProtocolRing: a request taken again after its entry was freed is handled again as it was read; what the freed entry holds by then has no model. A push and a pop are whole steps; their interleaving is in `RingBuffer`.
- ProtocolSizes.FatesIffPowerOfTwo: in the failing run both threads take the request before either decides, since a decision is written into the entry they share.
- DelayBound.FirstPathWithinDelay: excludes bounds and delays whose sum wraps at 32 bits. That a path is found whenever one is within the bound is false (`BoundMissesPath`).
- PathCosts.LooseBoundIsMetric: one direction only. Which paths a tighter bound cuts off depends on every tie and detour of the search, so no condition simpler than the search itself is given; the controller never installs this hook (sr-ctrl/sr-ctrl.c:682 and 1188 use the least-delay one).
- RedBlackLookup.Lookup: the four inexact modes are taken on non-empty trees, since on an empty one the code reads an uninitialized comparison result.
- RedBlack.RbTree.Delete: the record is freed before the fix-up instead of after it; the fix-up never touches it.
- Lpm.LpmTree.Delete: the empty prefix is in `DeleteDefault`; with no child below the head the code reads a missing parent, which has no model.
- Bandwidth.DemandIsMet: graphs with parallel links are excluded, since the stored edge path takes the cheapest link of each pair whatever its bandwidth.
- NetState.NetState.NodeRead: the router's prefixes and their insertion into the prefix tree are left out; the tree has its own model.
- Lpm.LpmTree.OptimizeVirtual: the branch that lengthens a virtual node is proved never to be taken and has no code.
- HashMap.HashMap.Grow: entries are appended to the new table; unlinking them from the old one, which is freed, is not spelled out.
- Node and edge numbers, request numbers and row identifiers are unbounded and do not wrap.
- Allocation failures, logging, locks that are never contended, and exact timing of the monitor thread.
