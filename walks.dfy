/** The cost model the route finder optimises: a walk is the sequence of edges ridden from a
    source stop, each taken from the adjacency list of the stop reached so far. Riding an edge
    costs its travel time; boarding a line different from the one just ridden is a transfer and
    costs a further TransferPenalty minutes of priority, but not of reported time. */
module Walks {
  import opened MetroModel

  /** `TRANSFER_PENALTY`, minutes added to the priority key per line change. */
  const TransferPenalty: int := 10

  /** The stop a walk from `source` ends at. */
  function EndStop(source: string, w: seq<Edge>): string
  {
    if w == [] then source else w[|w| - 1].targetStopId
  }

  /** The line a walk ends on; `None` before the first edge (Java's `null` line). */
  function EndLine(w: seq<Edge>): Option<string>
  {
    if w == [] then None else Some(w[|w| - 1].lineId)
  }

  /** 1 when boarding `next` after riding `current` is a change of line. */
  function TransferStep(current: Option<string>, next: string): (t: int)
    ensures t == 0 || t == 1
    ensures t == 1 <==> current.Some? && current.value != next
  {
    if current.Some? && current.value != next then 1 else 0
  }

  /** Every edge of `w` is listed under the stop the walk has reached before it. */
  ghost predicate IsWalk(graph: Graph, source: string, w: seq<Edge>)
  {
    w == [] ||
    (IsWalk(graph, source, w[..|w| - 1]) &&
     w[|w| - 1] in Neighbors(graph, EndStop(source, w[..|w| - 1])))
  }

  /** Sum of the travel times of the edges ridden. */
  function RealTime(w: seq<Edge>): int
  {
    if w == [] then 0 else RealTime(w[..|w| - 1]) + w[|w| - 1].travelTime
  }

  /** Number of consecutive edge pairs on different lines; the first edge is never a transfer. */
  function Transfers(w: seq<Edge>): int
  {
    if w == [] then 0 else Transfers(w[..|w| - 1]) + TransferStep(EndLine(w[..|w| - 1]), w[|w| - 1].lineId)
  }

  /** The priority key: travel time plus the transfer penalty for each line change. */
  function Cost(w: seq<Edge>): int
  {
    RealTime(w) + TransferPenalty * Transfers(w)
  }

  /** The stop ids visited: the source, then the target of each edge. */
  function Stops(source: string, w: seq<Edge>): (p: seq<string>)
    ensures |p| == |w| + 1
  {
    if w == [] then [source] else Stops(source, w[..|w| - 1]) + [w[|w| - 1].targetStopId]
  }

  ghost predicate Reachable(graph: Graph, source: string, dest: string)
  {
    exists w :: IsWalk(graph, source, w) && EndStop(source, w) == dest
  }

  /** `w` leads from `source` to `dest` and no walk between them costs less. */
  ghost predicate IsShortest(graph: Graph, source: string, dest: string, w: seq<Edge>)
  {
    && IsWalk(graph, source, w)
    && EndStop(source, w) == dest
    && forall w' :: IsWalk(graph, source, w') && EndStop(source, w') == dest ==> Cost(w) <= Cost(w')
  }

  ghost predicate PositiveWeights(graph: Graph)
  {
    forall s, e :: s in graph && e in graph[s] ==> e.travelTime > 0
  }

  /** Consecutive stops of `path` are joined by an edge of the graph. */
  ghost predicate Connected(graph: Graph, path: seq<string>)
  {
    forall i :: 0 <= i < |path| - 1 ==> exists e :: e in Neighbors(graph, path[i]) && e.targetStopId == path[i + 1]
  }

  /** Riding one more edge: the accounting the route finder does per expansion. */
  lemma Extend(graph: Graph, source: string, w: seq<Edge>, e: Edge)
    ensures (w + [e])[..|w|] == w
    ensures EndStop(source, w + [e]) == e.targetStopId && EndLine(w + [e]) == Some(e.lineId)
    ensures IsWalk(graph, source, w + [e]) <==> IsWalk(graph, source, w) && e in Neighbors(graph, EndStop(source, w))
    ensures RealTime(w + [e]) == RealTime(w) + e.travelTime
    ensures Transfers(w + [e]) == Transfers(w) + TransferStep(EndLine(w), e.lineId)
    ensures Cost(w + [e]) == Cost(w) + e.travelTime + TransferPenalty * TransferStep(EndLine(w), e.lineId)
    ensures Stops(source, w + [e]) == Stops(source, w) + [e.targetStopId]
  {
    assert (w + [e])[..|w|] == w;
  }

  lemma {:induction false} PrefixIsWalk(graph: Graph, source: string, w: seq<Edge>, i: nat)
    requires IsWalk(graph, source, w) && i <= |w|
    ensures IsWalk(graph, source, w[..i])
    decreases |w|
  {
    if i < |w| {
      assert w[..|w| - 1][..i] == w[..i];
      PrefixIsWalk(graph, source, w[..|w| - 1], i);
    } else {
      assert w[..i] == w;
    }
  }

  /** With positive weights, a longer prefix of a walk never costs less. */
  lemma {:induction false} PrefixCostBelow(graph: Graph, source: string, w: seq<Edge>, i: nat)
    requires PositiveWeights(graph) && IsWalk(graph, source, w) && i <= |w|
    ensures RealTime(w[..i]) <= RealTime(w) && Transfers(w[..i]) <= Transfers(w)
    ensures Cost(w[..i]) <= Cost(w)
    decreases |w|
  {
    if i < |w| {
      var front := w[..|w| - 1];
      assert front[..i] == w[..i];
      PrefixCostBelow(graph, source, front, i);
      Extend(graph, source, front, w[|w| - 1]);
      assert front + [w[|w| - 1]] == w;
      assert w[|w| - 1].travelTime > 0;
    } else {
      assert w[..i] == w;
    }
  }

  /** Position `i` of the stop list is where the walk stands after `i` edges. */
  lemma {:induction false} StopAt(source: string, w: seq<Edge>, i: nat)
    requires i <= |w|
    ensures Stops(source, w)[i] == EndStop(source, w[..i])
    decreases |w|
  {
    if i < |w| {
      var front := w[..|w| - 1];
      assert front[..i] == w[..i];
      StopAt(source, front, i);
    } else {
      assert w[..i] == w;
    }
  }

  /** The stop list of a walk starts at the source, ends where the walk ends and is connected. */
  lemma StopsOfWalk(graph: Graph, source: string, w: seq<Edge>)
    requires IsWalk(graph, source, w)
    ensures Stops(source, w)[0] == source
    ensures Stops(source, w)[|w|] == EndStop(source, w)
    ensures Connected(graph, Stops(source, w))
  {
    var p := Stops(source, w);
    StopAt(source, w, 0);
    StopAt(source, w, |w|);
    assert w[..|w|] == w;
    forall i | 0 <= i < |p| - 1
      ensures exists e :: e in Neighbors(graph, p[i]) && e.targetStopId == p[i + 1]
    {
      StopsStep(graph, source, w, i);
    }
    assert Connected(graph, p);
  }

  /** Consecutive entries of the stop list are joined by the edge ridden between them. */
  lemma StopsStep(graph: Graph, source: string, w: seq<Edge>, i: nat)
    requires IsWalk(graph, source, w) && i < |w|
    ensures w[i] in Neighbors(graph, Stops(source, w)[i]) && w[i].targetStopId == Stops(source, w)[i + 1]
  {
    StopAt(source, w, i);
    StopAt(source, w, i + 1);
    PrefixIsWalk(graph, source, w, i + 1);
    var q := w[..i + 1];
    assert q[..|q| - 1] == w[..i];
  }

  lemma {:induction false} TransfersNonNegative(w: seq<Edge>)
    ensures Transfers(w) >= 0
  {
    if w != [] {
      TransfersNonNegative(w[..|w| - 1]);
    }
  }

  /** A walk whose first and last edges are on different lines changes line at least once. */
  lemma {:induction false} LineChangeIsTransfer(w: seq<Edge>)
    requires |w| >= 1 && w[0].lineId != w[|w| - 1].lineId
    ensures Transfers(w) >= 1
  {
    var front, last := w[..|w| - 1], w[|w| - 1];
    assert |front| >= 1 && front[0] == w[0];
    if EndLine(front) == Some(last.lineId) {
      LineChangeIsTransfer(front);
    } else {
      TransfersNonNegative(front);
    }
  }
}
