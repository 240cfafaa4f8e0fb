# Metro-Booking route finder and graph repository, in Dafny

This project models the core of the Metro-Booking backend:

- **`MetroGraphRepository`** files stops and routes by id. Its `buildGraph` turns the routes into an adjacency list. For every consecutive pair of stops on a route it adds a five-minute edge in each direction, tagged with the route's id as the line. `initData` seeds five stations and two lines: the Red Line S1–S2–S3–S4 and the Blue Line S5–S3, which meet at the interchange S3.
- **`PathOptimizationService.findShortestPath`** runs Dijkstra's algorithm over states (stop, line currently ridden):
  - Changing line adds a transfer penalty of 10 to the priority key, but not to the reported travel time.
  - A `minCostMap` drops queue entries that are dearer than the cost already recorded for their state (lazy deletion).
  - Three failures are reported in the result: same source and destination, an unknown station, and no connecting path.

The files:

- `model.dfy` holds the records (`Stop`, `Edge`, `Route`, `PathResult`) and the adjacency map.
- `walks.dfy` holds the cost model. A walk is a sequence of edges from the source. Its real time, transfer count and priority cost are defined recursively, and optimality is stated over all walks.
- `search_invariants.dfy` holds the invariants of the main loop and the lemmas that carry them across a poll and a push. The key invariant is the frontier: every expanded state has its neighbours either queued or recorded at no greater cost. This file also holds the termination measure.
- `path_optimization.dfy` holds `findShortestPath` as a method with its loops.
- `graph_repository.dfy` holds the repository as a class. `buildGraph` is proved against a function of the route iteration order, and that function is characterised independently: adjacency order, membership, symmetry, five-minute weights, key set, edge count, and independence from the order.
- `scenarios.dfy` states the four JUnit cases as verified methods on a freshly seeded repository.

Nothing is run: the properties below are proved by the Dafny verifier.

The test `testInterchangeRoute_WithTransferPenalty` expects 15 minutes for S1 to S5, with a comment saying the 10-minute penalty is included. In the code, 15 is the pure travel time of S1, S2, S3, S5 (three five-minute edges). The penalty only enters the priority key, where this route costs 25. The model follows the code, and `Scenarios.InterchangeRouteIsShortest` proves 15 minutes and one transfer.

## Model

| member | source | states |
|---|---|---|
| PathOptimization.FindShortestPath | backend/src/main/java/com/moveinsync/alertsystem/service/PathOptimizationService.java:37-94 | Same source and destination gives the same-stop error with an empty path. An id missing from the graph gives the invalid-station error. Otherwise the result has no error exactly when the destination is reachable, and no path gives the no-path error with a null path. A success is the stop list, real time and transfer count of a walk whose time-plus-penalty cost no other walk to the destination beats. The path starts at the source, ends at the destination and follows graph edges. The loop terminates. |
| PathOptimization.PushNeighbors | backend/src/main/java/com/moveinsync/alertsystem/service/PathOptimizationService.java:71-90 | Appends to the queue one successor per outgoing edge of the polled state, in edge order, each built as the Java loop builds it: the edge's stop and line, travel time added to the real time, a transfer counted when the line changes, the penalty added to the key only, the stop appended to the path. Afterwards the loop invariant holds at the polled cost and the live-entry count is unchanged. |
| PathOptimization.CompareTo | backend/src/main/java/com/moveinsync/alertsystem/service/PathOptimizationService.java:32-34 | Returns -1, 0 or 1, negative exactly when the first state's key is lower and positive exactly when it is higher. |
| PathOptimization.ExtractMin | backend/src/main/java/com/moveinsync/alertsystem/service/PathOptimizationService.java:58 | `poll` returns a queue entry whose priority key no other entry undercuts. |
| MetroModel.Neighbors | backend/src/main/java/com/moveinsync/alertsystem/service/PathOptimizationService.java:71 | `graph.getOrDefault(stop, empty list)`: the list filed under a stop, and the empty list for a stop with no entry. |
| PathOptimization.StateKeyString | backend/src/main/java/com/moveinsync/alertsystem/service/PathOptimizationService.java:65 | The dominance key as written: the stop id, an underscore, and the line id, with a null line printed as "null". |
| PathOptimization.StateKeyInjective | backend/src/main/java/com/moveinsync/alertsystem/service/PathOptimizationService.java:65 | When stop ids have no `_` and no line is called "null", equal key strings `stop + "_" + line` mean equal (stop, line) pairs. |
| PathOptimization.UniverseKeysDistinct | backend/src/main/java/com/moveinsync/alertsystem/service/PathOptimizationService.java:65 | Under those id conditions, two states a search can produce share a key string exactly when they are the same state. |
| PathOptimization.StateKeyCollisions | backend/src/main/java/com/moveinsync/alertsystem/service/PathOptimizationService.java:65 | The key string as written collides for a stop id containing `_` and for a line called "null". |
| Walks.TransferStep | backend/src/main/java/com/moveinsync/alertsystem/service/PathOptimizationService.java:77-80 | A transfer is counted, as 1 rather than 0, exactly when a line was being ridden and the next edge's line differs from it. |
| Walks.Extend | backend/src/main/java/com/moveinsync/alertsystem/service/PathOptimizationService.java:82-89 | Riding one more edge adds its travel time to the real time, adds the transfer step to the transfer count, adds travel time plus penalty to the cost, and appends the target to the path. |
| Walks.PrefixCostBelow | backend/src/main/java/com/moveinsync/alertsystem/service/PathOptimizationService.java:82-84 | With positive travel times, no prefix of a walk has a higher real time, transfer count or cost than the walk. |
| Walks.StopsOfWalk | backend/src/main/java/com/moveinsync/alertsystem/service/PathOptimizationService.java:86-89 | The stop list of a walk starts at the source, ends at the walk's last stop and is connected by graph edges. |
| Walks.StopsStep | backend/src/main/java/com/moveinsync/alertsystem/service/PathOptimizationService.java:86-89 | Edge `i` of a walk leaves stop `i` of its stop list and arrives at stop `i + 1`. |
| Walks.StopAt | backend/src/main/java/com/moveinsync/alertsystem/service/PathOptimizationService.java:86-89 | Entry `i` of the stop list is the stop reached after `i` edges. |
| Walks.PrefixIsWalk | backend/src/main/java/com/moveinsync/alertsystem/service/PathOptimizationService.java:71-72 | Every prefix of a walk is a walk. |
| Walks.TransfersNonNegative | backend/src/main/java/com/moveinsync/alertsystem/service/PathOptimizationService.java:73-84 | The transfer count of any walk is at least zero. |
| Walks.LineChangeIsTransfer | backend/src/main/java/com/moveinsync/alertsystem/service/PathOptimizationService.java:77-80 | A walk whose first and last lines differ has at least one transfer. |
| SearchInvariants.Remove | backend/src/main/java/com/moveinsync/alertsystem/service/PathOptimizationService.java:58 | Removing entry `i` keeps the other entries in their order. |
| SearchInvariants.StartInvariant | backend/src/main/java/com/moveinsync/alertsystem/service/PathOptimizationService.java:52-55 | The queue holding only the start state, with no line, cost 0 and path [source], and an empty cost map satisfy the loop invariant. |
| SearchInvariants.CoveredAfterRemove | backend/src/main/java/com/moveinsync/alertsystem/service/PathOptimizationService.java:58-69 | Removing a polled entry whose key is recorded at no greater cost keeps every covered state covered. |
| SearchInvariants.CoveredAfterPush | backend/src/main/java/com/moveinsync/alertsystem/service/PathOptimizationService.java:89 | Pushing keeps every covered state covered. |
| SearchInvariants.CoveredByPush | backend/src/main/java/com/moveinsync/alertsystem/service/PathOptimizationService.java:89 | A pushed state is covered at its own cost. |
| SearchInvariants.FrontierAfterPoll | backend/src/main/java/com/moveinsync/alertsystem/service/PathOptimizationService.java:58-69 | Polling a non-destination entry and recording its key keeps the frontier for every other key. It keeps the whole frontier when the key was recorded already. |
| SearchInvariants.FrontierAfterPush | backend/src/main/java/com/moveinsync/alertsystem/service/PathOptimizationService.java:72-90 | Pushing a neighbour keeps the partial frontier and the children covered so far. |
| SearchInvariants.FrontierAfterExpand | backend/src/main/java/com/moveinsync/alertsystem/service/PathOptimizationService.java:71-90 | Once all neighbours of the expanded key are pushed, the full frontier holds again. |
| SearchInvariants.FrontierBoundsWalk | backend/src/main/java/com/moveinsync/alertsystem/service/PathOptimizationService.java:57-91 | Under the frontier, a walk to the destination whose prefix is covered has its cost bounded below by some queued entry. |
| SearchInvariants.FrontierStep | backend/src/main/java/com/moveinsync/alertsystem/service/PathOptimizationService.java:57-91 | Under the frontier, a covered prefix of a walk to the destination that is not itself queued at its cost is a proper prefix, and the next longer prefix is covered too. |
| SearchInvariants.CoveredMono | backend/src/main/java/com/moveinsync/alertsystem/service/PathOptimizationService.java:65-69 | A state covered at some cost is covered at every higher cost. |
| SearchInvariants.FrontierLowerBound | backend/src/main/java/com/moveinsync/alertsystem/service/PathOptimizationService.java:57-93 | Under the frontier, every walk to the destination costs at least as much as some queued entry. So an empty queue means no path. |
| SearchInvariants.WalkKeyInUniverse | backend/src/main/java/com/moveinsync/alertsystem/service/PathOptimizationService.java:65 | The (stop, line) state at the end of any walk is one of finitely many: the start, or the target and line of some edge. |
| SearchInvariants.TallyConcat | backend/src/main/java/com/moveinsync/alertsystem/service/PathOptimizationService.java:57-91 | Counts of live and stale queue entries add over concatenation. |
| SearchInvariants.TallyRemove | backend/src/main/java/com/moveinsync/alertsystem/service/PathOptimizationService.java:58 | Polling removes one entry from its class's count. |
| SearchInvariants.TallyPush | backend/src/main/java/com/moveinsync/alertsystem/service/PathOptimizationService.java:89 | Pushing adds one entry to its class's count. |
| SearchInvariants.PolledDestinationIsShortest | backend/src/main/java/com/moveinsync/alertsystem/service/PathOptimizationService.java:61-63 | A minimum entry that stands at the destination describes a walk that no walk to the destination beats. |
| SearchInvariants.PollStale | backend/src/main/java/com/moveinsync/alertsystem/service/PathOptimizationService.java:66-68 | Discarding a dearer entry keeps the loop invariant, leaves the live count and lowers the stale count. |
| SearchInvariants.RemoveMin | backend/src/main/java/com/moveinsync/alertsystem/service/PathOptimizationService.java:58 | After polling a minimum, every remaining entry is consistent with its walk and no cheaper than the polled one. |
| SearchInvariants.PollExpand | backend/src/main/java/com/moveinsync/alertsystem/service/PathOptimizationService.java:65-71 | Recording a non-stale polled state sets up the neighbour loop's invariant. |
| SearchInvariants.PollLiveProgress | backend/src/main/java/com/moveinsync/alertsystem/service/PathOptimizationService.java:66-69 | Re-expanding a recorded state leaves the map as it was and lowers the live count. |
| SearchInvariants.PollNewKeyProgress | backend/src/main/java/com/moveinsync/alertsystem/service/PathOptimizationService.java:69 | Recording a new state shrinks the set of states not yet recorded. |
| SearchInvariants.PushNeighbor | backend/src/main/java/com/moveinsync/alertsystem/service/PathOptimizationService.java:73-89 | Pushing the neighbour state built as in the Java loop keeps the neighbour loop's invariant and leaves the live count unchanged. |
| GraphRepository.MetroGraphRepository.constructor | backend/src/main/java/com/moveinsync/alertsystem/repository/MetroGraphRepository.java:15-19 | A new repository has no stops, no routes and an empty graph. |
| GraphRepository.MetroGraphRepository.AddStop | backend/src/main/java/com/moveinsync/alertsystem/repository/MetroGraphRepository.java:41 | Files the stop under its id and changes nothing else. |
| GraphRepository.MetroGraphRepository.AddRoute | backend/src/main/java/com/moveinsync/alertsystem/repository/MetroGraphRepository.java:42 | Files the route under its id, leaving the graph as last built. |
| GraphRepository.MetroGraphRepository.BuildGraph | backend/src/main/java/com/moveinsync/alertsystem/repository/MetroGraphRepository.java:44-57 | Clears the graph and rebuilds it from the routes in some iteration order that lists each route once. The result is that order's Build. |
| GraphRepository.MetroGraphRepository.GetGraph | backend/src/main/java/com/moveinsync/alertsystem/repository/MetroGraphRepository.java:59 | The adjacency list under every stop is exactly the edges the last build's routes added there, in order. The graph is symmetric. |
| GraphRepository.MetroGraphRepository.InitData | backend/src/main/java/com/moveinsync/alertsystem/repository/MetroGraphRepository.java:22-39 | Registers stations S1 to S5 with their names and the Red and Blue Lines under R1 and R2, then builds the graph from them. |
| GraphRepository.Append | backend/src/main/java/com/moveinsync/alertsystem/repository/MetroGraphRepository.java:53-54 | `computeIfAbsent(s, new list).add(e)`: the list under `s`, or an empty one, with `e` appended; the properties are in AppendNeighbors. |
| GraphRepository.AddLegs | backend/src/main/java/com/moveinsync/alertsystem/repository/MetroGraphRepository.java:48-55 | The graph after the first `n` iterations of the inner loop over a route: leg `i` appends the edge from stop `i` to stop `i + 1`, then the reverse edge, both five minutes on the route's line; the properties are in AddLegsNeighbors, AddLegsKeys and AddLegsEdgeCount. |
| GraphRepository.Build | backend/src/main/java/com/moveinsync/alertsystem/repository/MetroGraphRepository.java:44-57 | The graph `buildGraph` leaves after visiting routes in a given order, starting from an empty map; the properties are in BuildNeighbors, BuildEdges, BuildKeys, BuildIsSymmetric, BuildEdgeCount and RebuildIsOrderIndependent. |
| GraphRepository.AppendNeighbors | backend/src/main/java/com/moveinsync/alertsystem/repository/MetroGraphRepository.java:53-54 | `computeIfAbsent(s, ...).add(e)` appends `e` to the list under `s` and leaves every other list alone. |
| GraphRepository.AddLegNeighbors | backend/src/main/java/com/moveinsync/alertsystem/repository/MetroGraphRepository.java:49-54 | One leg appends the forward edge under its first stop, then the reverse edge under its second. |
| GraphRepository.AddLegsNeighbors | backend/src/main/java/com/moveinsync/alertsystem/repository/MetroGraphRepository.java:48-55 | The inner loop appends, under each stop, exactly the edges of the route's legs at that stop, leg by leg. |
| GraphRepository.AddLegsKeys | backend/src/main/java/com/moveinsync/alertsystem/repository/MetroGraphRepository.java:48-55 | After the inner loop a stop is a key exactly when it was one before or received an edge. |
| GraphRepository.BuildNeighbors | backend/src/main/java/com/moveinsync/alertsystem/repository/MetroGraphRepository.java:44-57 | Under each stop, the built list is the route-by-route, leg-by-leg sequence of the edges at that stop, and a stop is a key exactly when that sequence is non-empty. |
| GraphRepository.RouteEdgesAtMembers | backend/src/main/java/com/moveinsync/alertsystem/repository/MetroGraphRepository.java:48-55 | An edge a route adds at a stop is exactly a forward or reverse edge of one of its legs. |
| GraphRepository.LegEdgesAtMembers | backend/src/main/java/com/moveinsync/alertsystem/repository/MetroGraphRepository.java:53-54 | The edges one leg adds at a stop are exactly its forward edge at its first stop and its reverse edge at its second. |
| GraphRepository.EdgesAtMembers | backend/src/main/java/com/moveinsync/alertsystem/repository/MetroGraphRepository.java:46-56 | An edge the routes add at a stop is exactly one that some route adds there. |
| GraphRepository.BuildEdges | backend/src/main/java/com/moveinsync/alertsystem/repository/MetroGraphRepository.java:44-57 | An edge is listed under a stop exactly when some leg of some route has that stop as an end and the edge leads to the other end on the route's line. |
| GraphRepository.LegsArePresent | backend/src/main/java/com/moveinsync/alertsystem/repository/MetroGraphRepository.java:53-54 | Every consecutive pair of stops on every route is joined in both directions by five-minute edges on the route's line. |
| GraphRepository.BuildIsSymmetric | backend/src/main/java/com/moveinsync/alertsystem/repository/MetroGraphRepository.java:52-54 | Every edge has its reverse on the same line with the same time, and every edge takes five minutes. |
| GraphRepository.BuildKeys | backend/src/main/java/com/moveinsync/alertsystem/repository/MetroGraphRepository.java:44-57 | The keys of the graph are exactly the stops of routes with at least two stops. |
| GraphRepository.KeyIsOnSomeRoute | backend/src/main/java/com/moveinsync/alertsystem/repository/MetroGraphRepository.java:44-57 | A stop that is a key of the built graph lies on some route with at least two stops. |
| GraphRepository.OnSomeRouteIsKey | backend/src/main/java/com/moveinsync/alertsystem/repository/MetroGraphRepository.java:44-57 | A stop on some route with at least two stops is a key of the built graph. |
| GraphRepository.BuildAdjacency | backend/src/main/java/com/moveinsync/alertsystem/repository/MetroGraphRepository.java:44-57 | The neighbour-list description holds for all stops at once. |
| GraphRepository.EdgeCountWithout | backend/src/main/java/com/moveinsync/alertsystem/repository/MetroGraphRepository.java:19 | The edge total splits into one list plus the rest. |
| GraphRepository.EdgeCountAppend | backend/src/main/java/com/moveinsync/alertsystem/repository/MetroGraphRepository.java:53-54 | Appending one edge raises the edge total by one. |
| GraphRepository.AddLegsEdgeCount | backend/src/main/java/com/moveinsync/alertsystem/repository/MetroGraphRepository.java:48-55 | The inner loop adds two edges per leg. |
| GraphRepository.BuildEdgeCount | backend/src/main/java/com/moveinsync/alertsystem/repository/MetroGraphRepository.java:44-57 | The built graph holds twice as many edges as the routes have legs. |
| GraphRepository.DistinctMultiplicity | backend/src/main/java/com/moveinsync/alertsystem/repository/MetroGraphRepository.java:46 | A route listed once by an iteration order occurs there exactly once. |
| GraphRepository.EnumerationsPermute | backend/src/main/java/com/moveinsync/alertsystem/repository/MetroGraphRepository.java:46 | Two iteration orders of the same routes are permutations of each other. |
| GraphRepository.EdgesAtConcat | backend/src/main/java/com/moveinsync/alertsystem/repository/MetroGraphRepository.java:46-56 | The edges at a stop from a concatenation of route lists are those from the first list followed by those from the second. |
| GraphRepository.EdgesAtSplit | backend/src/main/java/com/moveinsync/alertsystem/repository/MetroGraphRepository.java:46-56 | Taking one route out of a list removes exactly that route's edges from the sequence of edges at each stop and keeps the rest in order. |
| GraphRepository.EdgesAtPermutation | backend/src/main/java/com/moveinsync/alertsystem/repository/MetroGraphRepository.java:46-56 | Permuting the routes permutes the edges under each stop. |
| GraphRepository.RebuildIsOrderIndependent | backend/src/main/java/com/moveinsync/alertsystem/repository/MetroGraphRepository.java:44-57 | Whatever order `routes.values()` yields, every stop gets the same multiset of edges and the key set is the same. |
| Scenarios.SeedOrderMembers | backend/src/main/java/com/moveinsync/alertsystem/repository/MetroGraphRepository.java:32-34 | Any iteration order of the seeded routes holds exactly the Red and Blue Lines. |
| Scenarios.SeedLegEdge | backend/src/main/java/com/moveinsync/alertsystem/repository/MetroGraphRepository.java:32-34 | Every leg of the seed lines lists only seed edges. |
| Scenarios.SeedBuildSound | backend/src/main/java/com/moveinsync/alertsystem/repository/MetroGraphRepository.java:32-37 | In either route order, every edge of the seeded graph is one of the eight seed edges. |
| Scenarios.SeedBuildComplete | backend/src/main/java/com/moveinsync/alertsystem/repository/MetroGraphRepository.java:22-39 | In either route order, the seeded graph has keys S1 to S5 and lists all eight seed edges. |
| Scenarios.SeedBuild | backend/src/main/java/com/moveinsync/alertsystem/repository/MetroGraphRepository.java:22-39 | The seeded graph has keys S1 to S5, and an edge is listed under a stop exactly when it is a seed edge there; SeedBuildDegrees adds that each is listed once. |
| Scenarios.SeedOrders | backend/src/main/java/com/moveinsync/alertsystem/repository/MetroGraphRepository.java:32-34 | Any iteration order of the two seeded routes is Red then Blue or Blue then Red. |
| Scenarios.SeedBuildDegrees | backend/src/main/java/com/moveinsync/alertsystem/repository/MetroGraphRepository.java:22-39 | In either route order, the seeded graph lists exactly one edge under S1, two under S2, three under the interchange S3, one under S4 and one under S5, so no seed edge is listed twice. |
| Scenarios.SeedRides | backend/src/main/java/com/moveinsync/alertsystem/repository/MetroGraphRepository.java:32-34 | The seed network has the Red Line edges S1 to S2 and S2 to S3 and the Blue Line edge S3 to S5. |
| Scenarios.SeedWalkTime | backend/src/main/java/com/moveinsync/alertsystem/repository/MetroGraphRepository.java:53-54 | Every walk on the seed network takes five minutes per edge. |
| Scenarios.FirstFromS1 | backend/src/main/java/com/moveinsync/alertsystem/repository/MetroGraphRepository.java:32 | Every walk from S1 starts with the Red Line edge to S2. |
| Scenarios.DirectWalk | backend/src/test/java/com/moveinsync/alertsystem/PathOptimizationServiceTest.java:23-29 | The one-edge walk S1 to S2 costs 5 and reports path S1, S2, 5 minutes and no transfer. |
| Scenarios.InterchangeWalk | backend/src/test/java/com/moveinsync/alertsystem/PathOptimizationServiceTest.java:32-37 | The walk S1, S2, S3 on R1 then S5 on R2 costs 25 and reports 15 minutes and one transfer. |
| Scenarios.ThreeEdgeWalkToS5 | backend/src/test/java/com/moveinsync/alertsystem/PathOptimizationServiceTest.java:32-37 | The only three-edge walk from S1 to S5 is S1, S2, S3 on R1, then S5 on R2. |
| Scenarios.DirectRouteIsShortest | backend/src/test/java/com/moveinsync/alertsystem/PathOptimizationServiceTest.java:23-29 | Any shortest walk from S1 to S2 reports path S1, S2, 5 minutes and 0 transfers. |
| Scenarios.InterchangeRouteIsShortest | backend/src/test/java/com/moveinsync/alertsystem/PathOptimizationServiceTest.java:32-37 | Any shortest walk from S1 to S5 reports path S1, S2, S3, S5, 15 minutes and 1 transfer. |
| Scenarios.SeededRepository | backend/src/test/java/com/moveinsync/alertsystem/PathOptimizationServiceTest.java:15-20 | A new repository after `initData` is valid, holds the seed network, and lists one, two, three, one and one edges under S1 to S5. |
| Scenarios.DirectRoute | backend/src/test/java/com/moveinsync/alertsystem/PathOptimizationServiceTest.java:23-29 | On the seeded repository, S1 to S2 succeeds with path S1, S2, 5 minutes and 0 transfers. |
| Scenarios.InterchangeRoute | backend/src/test/java/com/moveinsync/alertsystem/PathOptimizationServiceTest.java:32-37 | On the seeded repository, S1 to S5 succeeds with path S1, S2, S3, S5, 15 minutes and 1 transfer. |
| Scenarios.SameStop | backend/src/test/java/com/moveinsync/alertsystem/PathOptimizationServiceTest.java:40-44 | S1 to S1 fails with "Source and destination cannot be the same." |
| Scenarios.InvalidStation | backend/src/test/java/com/moveinsync/alertsystem/PathOptimizationServiceTest.java:47-51 | INVALID to S2 fails with "Invalid source or destination station." |
| Scenarios.SeedInputs | backend/src/main/java/com/moveinsync/alertsystem/repository/MetroGraphRepository.java:52-54 | Seed edges take five minutes, so they are positive. No seed id contains `_`, and no seed line is called "null". |

## Left out

- PathOptimization.FindShortestPath: requires every edge to take more than zero minutes. The termination and optimality proofs depend on this. The Java method accepts any graph. Every graph `buildGraph` produces meets the condition, because its edges take five minutes each (`GraphRepository.BuildIsSymmetric`). On excluded input the Java loop need not stop: with a zero-minute edge pair between two stops on one line, a state polled at exactly its recorded cost passes the strict `<` test at line 66 and is expanded again, which pushes the same two states at the same cost forever.
- PathOptimization.FindShortestPath: tells states apart by the pair (stop, line), not by the string `stop + "_" + line`. The two agree whenever stop ids have no `_` and no line is called "null" (`PathOptimization.UniverseKeysDistinct`); see Findings.
- PathOptimization.FindShortestPath: takes the graph as a parameter instead of reading it from the injected repository. Spring's dependency injection is not modelled.
- PathOptimization.ExtractMin: among entries with equal keys it picks the first. `PriorityQueue.poll` may pick any of them, so with ties the returned path may differ from the Java one. The contract of `FindShortestPath` holds for any choice of minimum, because its proof uses only the minimum property.
- Java `int` overflow of the cost, time and transfer counters is not modelled; integers are unbounded.
- The queue is a sequence, not a binary heap. Heap internals are out of scope.
- A null path is `None`, and an empty list is `Some([])`.
- Each search state carries a ghost walk (the edges it stands for), which the Java object does not hold. It is used only to state optimality.
- `ConcurrentHashMap` thread safety, `@PostConstruct` and the `System.out.println` in `initData` are not modelled.
- `getStop` (a plain map lookup) is not modelled.
- `routes.values()` iteration order is unspecified. `BuildGraph` picks routes in some order, and `RebuildIsOrderIndependent` shows the result does not depend on it up to the order of edges within each list.

## Findings

| source | as written | input that shows it | evidently intended | confidence | as-written member | corrected member |
|---|---|---|---|---|---|---|
| backend/src/main/java/com/moveinsync/alertsystem/service/PathOptimizationService.java:65 | The dominance key is the string `stopId + "_" + currentLine`, with a null line printed as "null". | Routes "B_C" = [P, A] and "C" = [P, X, A_B, D], query P to D. State (A, "B_C") is recorded at cost 5 under "A_B_C". Every arrival at (A_B, "C") costs at least 10 and is discarded at line 66 under that key, so D is never pushed and the answer is "No connecting path exists." although D is reachable in 15 minutes. (Stop "S1" with no line and stop "S1" on a line called "null" also share the key "S1_null".) | One dominance entry per (stop, line) pair. | low; not executed; seed ids never contain `_` | PathOptimization.StateKeyCollisions | PathOptimization.FindShortestPath |
