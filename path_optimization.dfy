/** PathOptimizationService: Dijkstra's algorithm over (stop, line currently ridden), with a
    transfer penalty on the priority key only, lazy deletion from the queue, and the three
    failures reported in-band. */
module PathOptimization {
  import opened MetroModel
  import opened Walks
  import opened SearchInvariants

  const SameStopError := "Source and destination cannot be the same."
  const InvalidStationError := "Invalid source or destination station."
  const NoPathError := "No connecting path exists."

  /** `NodeState.compareTo`: `Integer.compare` on the priority key. */
  function CompareTo(a: NodeState, b: NodeState): (r: int)
    ensures r == -1 || r == 0 || r == 1
    ensures r < 0 <==> a.totalCost < b.totalCost
    ensures r > 0 <==> a.totalCost > b.totalCost
  {
    if a.totalCost < b.totalCost then -1 else if a.totalCost == b.totalCost then 0 else 1
  }

  /** The queue's `poll` choice: the index of an entry no other entry precedes in `compareTo`.
      Among equal keys this picks the first; the heap may pick any of them. */
  method ExtractMin(pq: seq<NodeState>) returns (i: nat)
    requires |pq| > 0
    ensures i < |pq|
    ensures forall j :: 0 <= j < |pq| ==> pq[i].totalCost <= pq[j].totalCost
  {
    i := 0;
    for j := 1 to |pq|
      invariant i < j
      invariant forall k :: 0 <= k < j ==> CompareTo(pq[i], pq[k]) <= 0
    {
      if CompareTo(pq[j], pq[i]) < 0 {
        i := j;
      }
    }
  }

  /** The Java dominance key `stopId + "_" + currentLine`, where a null line prints as "null". */
  function StateKeyString(k: StateKey): string
  {
    k.0 + "_" + (if k.1.Some? then k.1.value else "null")
  }

  /** Stop ids carry no `_` and no line is called "null": the ids for which the pair key below
      and the Java string key identify the same states. */
  ghost predicate FaithfulIds(graph: Graph, source: string)
  {
    && '_' !in source
    && forall s, e :: s in graph && e in graph[s] ==> '_' !in e.targetStopId && e.lineId != "null"
  }

  lemma StateKeyInjective(k1: StateKey, k2: StateKey)
    requires '_' !in k1.0 && '_' !in k2.0 && k1.1 != Some("null") && k2.1 != Some("null")
    requires StateKeyString(k1) == StateKeyString(k2)
    ensures k1 == k2
  {
    var s := StateKeyString(k1);
    var n1, n2 := |k1.0|, |k2.0|;
    assert s[n1] == '_' && s[n2] == '_';
    assert n1 == n2;
    assert k1.0 == s[..n1] == k2.0;
    var t1, t2 := (if k1.1.Some? then k1.1.value else "null"), (if k2.1.Some? then k2.1.value else "null");
    assert t1 == s[n1 + 1..] == t2;
  }

  /** Two different states the Java string key confuses: a `_` inside a stop id, and a line
      called "null" against the start state's null line. */
  lemma StateKeyCollisions()
    ensures ("A_B", Some("C")) != ("A", Some("B_C"))
    ensures StateKeyString(("A_B", Some("C"))) == StateKeyString(("A", Some("B_C")))
    ensures ("S1", None) != ("S1", Some("null"))
    ensures StateKeyString(("S1", None)) == StateKeyString(("S1", Some("null")))
  {
    assert StateKeyString(("A_B", Some("C"))) == "A_B" + "_" + "C";
    assert StateKeyString(("A", Some("B_C"))) == "A" + "_" + "B_C";
  }

  /** Under FaithfulIds, distinct keys a search can produce have distinct Java key strings. */
  lemma UniverseKeysDistinct(graph: Graph, source: string, k1: StateKey, k2: StateKey)
    requires FaithfulIds(graph, source)
    requires k1 in Universe(graph, source) && k2 in Universe(graph, source)
    ensures StateKeyString(k1) == StateKeyString(k2) <==> k1 == k2
  {
    if StateKeyString(k1) == StateKeyString(k2) {
      if k1 != (source, None) {
        var s, e :| s in graph && e in graph[s] && k1 == (e.targetStopId, Some(e.lineId));
      }
      if k2 != (source, None) {
        var s, e :| s in graph && e in graph[s] && k2 == (e.targetStopId, Some(e.lineId));
      }
      StateKeyInjective(k1, k2);
    }
  }

  /** The result for a walk that reached the destination: its stops, real time and transfers. */
  function Found(source: string, w: seq<Edge>): PathResult
  {
    PathResult(Some(Stops(source, w)), RealTime(w), Transfers(w), None)
  }

  /** A successor state as the Java loop builds it: one more edge, its travel time, and one
      transfer (penalised by TransferPenalty in the key only) when the line changes. */
  ghost predicate IsSuccessor(q: NodeState, edge: Edge, next: NodeState)
  {
    && next.stopId == edge.targetStopId && next.currentLine == Some(edge.lineId)
    && next.totalCost == q.totalCost + edge.travelTime + TransferPenalty * TransferStep(q.currentLine, edge.lineId)
    && next.realTime == q.realTime + edge.travelTime
    && next.transfers == q.transfers + TransferStep(q.currentLine, edge.lineId)
    && next.path == q.path + [edge.targetStopId] && next.walk == q.walk + [edge]
  }

  /** `pq` is `pq0` followed by the successors of `q` along the first `n` edges of `nbrs`. */
  ghost predicate Pushed(q: NodeState, nbrs: seq<Edge>, pq0: seq<NodeState>, pq: seq<NodeState>, n: nat)
  {
    && n <= |nbrs| && |pq| == |pq0| + n && pq[..|pq0|] == pq0
    && forall k :: 0 <= k < n ==> IsSuccessor(q, nbrs[k], pq[|pq0| + k])
  }

  lemma PushedSnoc(q: NodeState, nbrs: seq<Edge>, pq0: seq<NodeState>, pq: seq<NodeState>, n: nat, next: NodeState)
    requires Pushed(q, nbrs, pq0, pq, n) && n < |nbrs| && IsSuccessor(q, nbrs[n], next)
    ensures Pushed(q, nbrs, pq0, pq + [next], n + 1)
  {
    var pq' := pq + [next];
    assert pq'[..|pq0|] == pq[..|pq0|];
    forall k | 0 <= k < n + 1
      ensures IsSuccessor(q, nbrs[k], pq'[|pq0| + k])
    {
      if k < n {
        assert pq'[|pq0| + k] == pq[|pq0| + k];
      }
    }
  }

  /** The `for (Edge edge : neighbors)` loop of `findShortestPath`: after `current` is polled
      and recorded, one successor per outgoing edge is appended to the queue, in edge order.
      The frontier invariant is restored and no live entry is added. */
  method PushNeighbors(graph: Graph, sourceId: string, destId: string, pq0: seq<NodeState>,
                       minCostMap: map<StateKey, int>, current: NodeState) returns (pq: seq<NodeState>)
    requires PositiveWeights(graph) && Consistent(graph, sourceId, current)
    requires KeyOf(current) in minCostMap && minCostMap[KeyOf(current)] == current.totalCost
    requires PushInvariant(graph, sourceId, destId, pq0, minCostMap, KeyOf(current), current.totalCost,
                           Neighbors(graph, current.stopId), 0)
    ensures |pq| == |pq0| + |Neighbors(graph, current.stopId)| && pq[..|pq0|] == pq0
    ensures forall n :: 0 <= n < |Neighbors(graph, current.stopId)| ==>
              IsSuccessor(current, Neighbors(graph, current.stopId)[n], pq[|pq0| + n])
    ensures LoopInvariant(graph, sourceId, destId, pq, minCostMap, current.totalCost)
    ensures Tally(pq, minCostMap, true) == Tally(pq0, minCostMap, true)
  {
    var neighbors := Neighbors(graph, current.stopId);
    pq := pq0;
    for n := 0 to |neighbors|
      invariant PushInvariant(graph, sourceId, destId, pq, minCostMap, KeyOf(current), current.totalCost, neighbors, n)
      invariant Tally(pq, minCostMap, true) == Tally(pq0, minCostMap, true)
      invariant Pushed(current, neighbors, pq0, pq, n)
    {
      var edge := neighbors[n];
      var additionalTransfer := 0;
      var penalty := 0;
      // a change of line costs one transfer, and the penalty on the key
      if current.currentLine != None && current.currentLine.value != edge.lineId {
        additionalTransfer := 1;
        penalty := TransferPenalty;
      }
      var newTotalCost := current.totalCost + edge.travelTime + penalty;
      var newRealTime := current.realTime + edge.travelTime;
      var newTransfers := current.transfers + additionalTransfer;
      var newPath := current.path + [edge.targetStopId];
      var next := NodeState(edge.targetStopId, Some(edge.lineId), newTotalCost, newRealTime, newTransfers,
                            newPath, current.walk + [edge]);
      assert additionalTransfer == TransferStep(current.currentLine, edge.lineId);
      PushNeighbor(graph, sourceId, destId, pq, minCostMap, current, neighbors, n, next);
      PushedSnoc(current, neighbors, pq0, pq, n, next);
      pq := pq + [next];
    }
    FrontierAfterExpand(graph, sourceId, destId, pq, minCostMap, KeyOf(current), neighbors);
  }

  /** `findShortestPath(sourceId, destId)` on `graph`, the map `repository.getGraph()` returns.
      States are told apart by the pair (stop, line); UniverseKeysDistinct shows the Java string
      key does the same whenever FaithfulIds holds. */
  method FindShortestPath(graph: Graph, sourceId: string, destId: string) returns (r: PathResult)
    requires PositiveWeights(graph)
    ensures sourceId == destId ==> r == PathResult(Some([]), 0, 0, Some(SameStopError))
    ensures sourceId != destId && (sourceId !in graph || destId !in graph) ==>
              r == PathResult(Some([]), 0, 0, Some(InvalidStationError))
    ensures sourceId != destId && sourceId in graph && destId in graph ==>
              (r.error == None <==> Reachable(graph, sourceId, destId))
    ensures sourceId != destId && sourceId in graph && destId in graph && !Reachable(graph, sourceId, destId) ==>
              r == PathResult(None, 0, 0, Some(NoPathError))
    ensures r.error == None ==> exists w :: IsShortest(graph, sourceId, destId, w) && r == Found(sourceId, w)
    ensures r.error == None ==>
              && r.path.Some? && |r.path.value| >= 2
              && r.path.value[0] == sourceId && r.path.value[|r.path.value| - 1] == destId
              && Connected(graph, r.path.value)
              && r.totalTime >= 0 && r.transfers >= 0
  {
    if sourceId == destId {
      return PathResult(Some([]), 0, 0, Some(SameStopError));
    }
    if sourceId !in graph || destId !in graph {
      return PathResult(Some([]), 0, 0, Some(InvalidStationError));
    }

    var pq := [NodeState(sourceId, None, 0, 0, 0, [sourceId], [])];
    var minCostMap: map<StateKey, int> := map[];
    ghost var floor := 0;
    StartInvariant(graph, sourceId, destId);

    while pq != []
      invariant LoopInvariant(graph, sourceId, destId, pq, minCostMap, floor)
      decreases |Universe(graph, sourceId) - minCostMap.Keys|, Tally(pq, minCostMap, true), Tally(pq, minCostMap, false)
    {
      var i := ExtractMin(pq);
      var current := pq[i];
      ghost var polled := pq;
      pq := Remove(pq, i);

      // the first polled state at the destination is the answer
      if current.stopId == destId {
        PolledDestinationIsShortest(graph, sourceId, destId, polled, minCostMap, floor, i);
        StopsOfWalk(graph, sourceId, current.walk);
        PrefixCostBelow(graph, sourceId, current.walk, 0);
        return PathResult(Some(current.path), current.realTime, current.transfers, None);
      }

      var key := (current.stopId, current.currentLine);
      if key in minCostMap && minCostMap[key] < current.totalCost {
        PollStale(graph, sourceId, destId, polled, minCostMap, floor, i);
        floor := current.totalCost;
        continue;
      }
      PollExpand(graph, sourceId, destId, polled, minCostMap, floor, i);
      if key in minCostMap {
        PollLiveProgress(polled, minCostMap, floor, i);
      } else {
        PollNewKeyProgress(graph, sourceId, minCostMap, current);
      }
      minCostMap := minCostMap[key := current.totalCost];
      floor := current.totalCost;

      pq := PushNeighbors(graph, sourceId, destId, pq, minCostMap, current);
    }

    forall w | IsWalk(graph, sourceId, w) && EndStop(sourceId, w) == destId
      ensures false
    {
      FrontierLowerBound(graph, sourceId, destId, pq, minCostMap, w);
    }
    return PathResult(None, 0, 0, Some(NoPathError));
  }
}
