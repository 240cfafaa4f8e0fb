/** The facts the route finder's main loop keeps about its priority queue and its
    `minCostMap`, and the lemmas that carry them across one poll and one push. */
module SearchInvariants {
  import opened MetroModel
  import opened Walks

  /** A search state: the stop reached, the line it was reached on, the priority key, the real
      time, the transfer count and the stop list. The ghost `walk` is the edge sequence the
      state stands for; the Java object does not hold it. */
  datatype NodeState = NodeState(
    stopId: string, currentLine: Option<string>,
    totalCost: int, realTime: int, transfers: int,
    path: seq<string>, ghost walk: seq<Edge>)

  /** The dominance-map key: the pair the Java string `stopId + "_" + currentLine` encodes. */
  type StateKey = (string, Option<string>)

  function KeyOf(q: NodeState): StateKey
  {
    (q.stopId, q.currentLine)
  }

  /** Every field of `q` agrees with the walk it stands for. */
  ghost predicate Consistent(graph: Graph, source: string, q: NodeState)
  {
    && IsWalk(graph, source, q.walk)
    && q.stopId == EndStop(source, q.walk)
    && q.currentLine == EndLine(q.walk)
    && q.realTime == RealTime(q.walk)
    && q.transfers == Transfers(q.walk)
    && q.totalCost == q.realTime + TransferPenalty * q.transfers
    && q.path == Stops(source, q.walk)
  }

  ghost predicate AllConsistent(graph: Graph, source: string, pq: seq<NodeState>)
  {
    forall j :: 0 <= j < |pq| ==> Consistent(graph, source, pq[j])
  }

  /** Some queued state for key (stop, line) has priority at most `c`. */
  ghost predicate InQueue(pq: seq<NodeState>, stop: string, line: Option<string>, c: int)
  {
    exists j :: 0 <= j < |pq| && KeyOf(pq[j]) == (stop, line) && pq[j].totalCost <= c
  }

  /** Reaching (stop, line) at cost `c` is accounted for: queued or already expanded no dearer. */
  ghost predicate Covered(pq: seq<NodeState>, minCost: map<StateKey, int>, stop: string, line: Option<string>, c: int)
  {
    InQueue(pq, stop, line, c) || ((stop, line) in minCost && minCost[(stop, line)] <= c)
  }

  /** Every neighbour of an expanded key, reached through it at its recorded cost, is covered. */
  ghost predicate ExpandedCovered(graph: Graph, pq: seq<NodeState>, minCost: map<StateKey, int>, k: StateKey)
    requires k in minCost
  {
    forall e :: e in Neighbors(graph, k.0) ==>
      Covered(pq, minCost, e.targetStopId, Some(e.lineId), minCost[k] + e.travelTime + TransferPenalty * TransferStep(k.1, e.lineId))
  }

  /** The Dijkstra frontier: the start is covered, the destination is never expanded, and every
      expanded key has its neighbours covered. */
  ghost predicate Frontier(graph: Graph, source: string, dest: string, pq: seq<NodeState>, minCost: map<StateKey, int>)
  {
    && Covered(pq, minCost, source, None, 0)
    && (forall k :: k in minCost ==> k.0 != dest)
    && (forall k :: k in minCost ==> ExpandedCovered(graph, pq, minCost, k))
  }

  /** The frontier while the neighbours of `key` are being pushed: every other key is done. */
  ghost predicate PartialFrontier(graph: Graph, source: string, dest: string, pq: seq<NodeState>, minCost: map<StateKey, int>, key: StateKey)
  {
    && Covered(pq, minCost, source, None, 0)
    && (forall k :: k in minCost ==> k.0 != dest)
    && (forall k :: k in minCost && k != key ==> ExpandedCovered(graph, pq, minCost, k))
  }

  /** The first `n` neighbours of `key`, reached at cost `c`, are covered. */
  ghost predicate ChildrenCovered(pq: seq<NodeState>, minCost: map<StateKey, int>, key: StateKey, c: int, nbrs: seq<Edge>, n: nat)
    requires n <= |nbrs|
  {
    forall i :: 0 <= i < n ==>
      Covered(pq, minCost, nbrs[i].targetStopId, Some(nbrs[i].lineId), c + nbrs[i].travelTime + TransferPenalty * TransferStep(key.1, nbrs[i].lineId))
  }

  /** `m2` records every key of `m` at no greater cost. */
  ghost predicate NoDearer(m2: map<StateKey, int>, m: map<StateKey, int>)
  {
    forall k :: k in m ==> k in m2 && m2[k] <= m[k]
  }

  function Remove(pq: seq<NodeState>, i: nat): (r: seq<NodeState>)
    requires i < |pq|
    ensures |r| == |pq| - 1
    ensures forall j :: 0 <= j < i ==> r[j] == pq[j]
    ensures forall j :: i <= j < |r| ==> r[j] == pq[j + 1]
  {
    pq[..i] + pq[i + 1..]
  }

  lemma CoveredAfterRemove(pq: seq<NodeState>, i: nat, m: map<StateKey, int>, m2: map<StateKey, int>,
                           stop: string, line: Option<string>, c: int)
    requires i < |pq| && Covered(pq, m, stop, line, c) && NoDearer(m2, m)
    requires KeyOf(pq[i]) in m2 && m2[KeyOf(pq[i])] <= pq[i].totalCost
    ensures Covered(Remove(pq, i), m2, stop, line, c)
  {
    if InQueue(pq, stop, line, c) {
      var j :| 0 <= j < |pq| && KeyOf(pq[j]) == (stop, line) && pq[j].totalCost <= c;
      var r := Remove(pq, i);
      if j < i {
        assert r[j] == pq[j];
      } else if j > i {
        assert r[j - 1] == pq[j];
      }
    }
  }

  lemma CoveredAfterPush(pq: seq<NodeState>, x: NodeState, m: map<StateKey, int>, stop: string, line: Option<string>, c: int)
    requires Covered(pq, m, stop, line, c)
    ensures Covered(pq + [x], m, stop, line, c)
  {
    if InQueue(pq, stop, line, c) {
      var j :| 0 <= j < |pq| && KeyOf(pq[j]) == (stop, line) && pq[j].totalCost <= c;
      assert (pq + [x])[j] == pq[j];
    }
  }

  lemma CoveredByPush(pq: seq<NodeState>, x: NodeState, m: map<StateKey, int>)
    ensures Covered(pq + [x], m, x.stopId, x.currentLine, x.totalCost)
  {
    assert (pq + [x])[|pq|] == x;
  }

  /** Polling entry `i` of the queue keeps every other key covered, provided the polled key ends
      up recorded at no more than its cost and no other recorded cost changes. */
  lemma FrontierAfterPoll(graph: Graph, source: string, dest: string, pq: seq<NodeState>, i: nat,
                          m: map<StateKey, int>, m2: map<StateKey, int>)
    requires Frontier(graph, source, dest, pq, m) && i < |pq| && pq[i].stopId != dest
    requires m2.Keys == m.Keys + {KeyOf(pq[i])}
    requires forall k :: k in m && k != KeyOf(pq[i]) ==> m2[k] == m[k]
    requires NoDearer(m2, m) && m2[KeyOf(pq[i])] <= pq[i].totalCost
    ensures PartialFrontier(graph, source, dest, Remove(pq, i), m2, KeyOf(pq[i]))
    ensures KeyOf(pq[i]) in m && m2 == m ==> Frontier(graph, source, dest, Remove(pq, i), m2)
  {
    var key := KeyOf(pq[i]);
    CoveredAfterRemove(pq, i, m, m2, source, None, 0);
    forall k | k in m2 && (k != key || m2 == m)
      ensures ExpandedCovered(graph, Remove(pq, i), m2, k)
    {
      assert k in m && m2[k] == m[k];
      forall e | e in Neighbors(graph, k.0)
        ensures Covered(Remove(pq, i), m2, e.targetStopId, Some(e.lineId), m2[k] + e.travelTime + TransferPenalty * TransferStep(k.1, e.lineId))
      {
        assert ExpandedCovered(graph, pq, m, k);
        CoveredAfterRemove(pq, i, m, m2, e.targetStopId, Some(e.lineId), m[k] + e.travelTime + TransferPenalty * TransferStep(k.1, e.lineId));
      }
    }
  }

  /** Pushing a state keeps everything that was covered covered. */
  lemma FrontierAfterPush(graph: Graph, source: string, dest: string, pq: seq<NodeState>, x: NodeState,
                          m: map<StateKey, int>, key: StateKey, c: int, nbrs: seq<Edge>, n: nat)
    requires n <= |nbrs|
    requires PartialFrontier(graph, source, dest, pq, m, key) && ChildrenCovered(pq, m, key, c, nbrs, n)
    ensures PartialFrontier(graph, source, dest, pq + [x], m, key) && ChildrenCovered(pq + [x], m, key, c, nbrs, n)
  {
    CoveredAfterPush(pq, x, m, source, None, 0);
    forall k | k in m && k != key
      ensures ExpandedCovered(graph, pq + [x], m, k)
    {
      forall e | e in Neighbors(graph, k.0)
        ensures Covered(pq + [x], m, e.targetStopId, Some(e.lineId), m[k] + e.travelTime + TransferPenalty * TransferStep(k.1, e.lineId))
      {
        CoveredAfterPush(pq, x, m, e.targetStopId, Some(e.lineId), m[k] + e.travelTime + TransferPenalty * TransferStep(k.1, e.lineId));
      }
    }
    forall j | 0 <= j < n
      ensures Covered(pq + [x], m, nbrs[j].targetStopId, Some(nbrs[j].lineId), c + nbrs[j].travelTime + TransferPenalty * TransferStep(key.1, nbrs[j].lineId))
    {
      CoveredAfterPush(pq, x, m, nbrs[j].targetStopId, Some(nbrs[j].lineId), c + nbrs[j].travelTime + TransferPenalty * TransferStep(key.1, nbrs[j].lineId));
    }
  }

  /** Once all neighbours of `key` are covered at its recorded cost, the frontier is whole again. */
  lemma FrontierAfterExpand(graph: Graph, source: string, dest: string, pq: seq<NodeState>,
                            m: map<StateKey, int>, key: StateKey, nbrs: seq<Edge>)
    requires key in m && nbrs == Neighbors(graph, key.0)
    requires PartialFrontier(graph, source, dest, pq, m, key) && ChildrenCovered(pq, m, key, m[key], nbrs, |nbrs|)
    ensures Frontier(graph, source, dest, pq, m)
  {
    forall e | e in Neighbors(graph, key.0)
      ensures Covered(pq, m, e.targetStopId, Some(e.lineId), m[key] + e.travelTime + TransferPenalty * TransferStep(key.1, e.lineId))
    {
      var j :| 0 <= j < |nbrs| && nbrs[j] == e;
    }
    assert ExpandedCovered(graph, pq, m, key);
  }

  lemma CoveredMono(pq: seq<NodeState>, m: map<StateKey, int>, stop: string, line: Option<string>, c: int, c': int)
    requires Covered(pq, m, stop, line, c) && c <= c'
    ensures Covered(pq, m, stop, line, c')
  {
    if InQueue(pq, stop, line, c) {
      var j :| 0 <= j < |pq| && KeyOf(pq[j]) == (stop, line) && pq[j].totalCost <= c;
    }
  }

  /** A covered prefix of a walk to the destination that is not queued was expanded, so the next
      prefix is covered too. */
  lemma FrontierStep(graph: Graph, source: string, dest: string, pq: seq<NodeState>,
                     m: map<StateKey, int>, w: seq<Edge>, i: nat)
    requires Frontier(graph, source, dest, pq, m)
    requires IsWalk(graph, source, w) && EndStop(source, w) == dest && i <= |w|
    requires Covered(pq, m, EndStop(source, w[..i]), EndLine(w[..i]), Cost(w[..i]))
    requires !InQueue(pq, EndStop(source, w[..i]), EndLine(w[..i]), Cost(w[..i]))
    ensures i < |w| && Covered(pq, m, EndStop(source, w[..i + 1]), EndLine(w[..i + 1]), Cost(w[..i + 1]))
  {
    var stop, line := EndStop(source, w[..i]), EndLine(w[..i]);
    var k := (stop, line);
    if i == |w| {
      assert false;
    }
    var e := w[i];
    NextEdge(graph, source, w, i);
    assert ExpandedCovered(graph, pq, m, k);
    var c := m[k] + e.travelTime + TransferPenalty * TransferStep(line, e.lineId);
    CoveredMono(pq, m, e.targetStopId, Some(e.lineId), c, Cost(w[..i + 1]));
  }

  /** The edge after the `i`-th prefix of a walk leaves the stop that prefix reaches. */
  lemma NextEdge(graph: Graph, source: string, w: seq<Edge>, i: nat)
    requires IsWalk(graph, source, w) && i < |w|
    ensures w[i] in Neighbors(graph, EndStop(source, w[..i]))
    ensures EndStop(source, w[..i + 1]) == w[i].targetStopId && EndLine(w[..i + 1]) == Some(w[i].lineId)
    ensures Cost(w[..i + 1]) == Cost(w[..i]) + w[i].travelTime + TransferPenalty * TransferStep(EndLine(w[..i]), w[i].lineId)
  {
    PrefixIsWalk(graph, source, w, i + 1);
    TakeSnoc(w, i);
    Extend(graph, source, w[..i], w[i]);
  }

  lemma TakeSnoc(w: seq<Edge>, i: nat)
    requires i < |w|
    ensures w[..i + 1] == w[..i] + [w[i]]
  {
  }

  /** Every walk to the destination whose `i`-th prefix is covered has some queued state that
      costs no more than the whole walk: the queue's minimum is a lower bound on the optimum. */
  lemma {:induction false} FrontierBoundsWalk(graph: Graph, source: string, dest: string, pq: seq<NodeState>,
                                              m: map<StateKey, int>, w: seq<Edge>, i: nat)
    requires PositiveWeights(graph) && Frontier(graph, source, dest, pq, m)
    requires IsWalk(graph, source, w) && EndStop(source, w) == dest && i <= |w|
    requires Covered(pq, m, EndStop(source, w[..i]), EndLine(w[..i]), Cost(w[..i]))
    ensures exists j :: 0 <= j < |pq| && pq[j].totalCost <= Cost(w)
    decreases |w| - i
  {
    PrefixCostBelow(graph, source, w, i);
    if InQueue(pq, EndStop(source, w[..i]), EndLine(w[..i]), Cost(w[..i])) {
      var j :| 0 <= j < |pq| && KeyOf(pq[j]) == (EndStop(source, w[..i]), EndLine(w[..i])) && pq[j].totalCost <= Cost(w[..i]);
    } else {
      FrontierStep(graph, source, dest, pq, m, w, i);
      FrontierBoundsWalk(graph, source, dest, pq, m, w, i + 1);
    }
  }

  /** Under the frontier invariant, no walk reaches the destination when the queue is empty, and
      otherwise every such walk costs at least the queue's minimum. */
  lemma FrontierLowerBound(graph: Graph, source: string, dest: string, pq: seq<NodeState>,
                           m: map<StateKey, int>, w: seq<Edge>)
    requires PositiveWeights(graph) && Frontier(graph, source, dest, pq, m)
    requires IsWalk(graph, source, w) && EndStop(source, w) == dest
    ensures exists j :: 0 <= j < |pq| && pq[j].totalCost <= Cost(w)
  {
    assert w[..0] == [];
    FrontierBoundsWalk(graph, source, dest, pq, m, w, 0);
  }

  // ---- termination ----

  /** Every key a search from `source` can produce: the start, and the target and line of each edge. */
  ghost function Universe(graph: Graph, source: string): set<StateKey>
  {
    {(source, None)} + set s, e | s in graph && e in graph[s] :: (e.targetStopId, Some(e.lineId))
  }

  lemma WalkKeyInUniverse(graph: Graph, source: string, w: seq<Edge>)
    requires IsWalk(graph, source, w)
    ensures (EndStop(source, w), EndLine(w)) in Universe(graph, source)
  {
    if w != [] {
      var s := EndStop(source, w[..|w| - 1]);
      assert s in graph && w[|w| - 1] in graph[s];
    }
  }

  /** A queued state is live when its key is recorded at exactly its cost (it will be expanded
      again), stale when recorded at a lower cost (it will be discarded). */
  ghost predicate Classified(q: NodeState, m: map<StateKey, int>, live: bool)
  {
    KeyOf(q) in m && (if live then q.totalCost == m[KeyOf(q)] else q.totalCost > m[KeyOf(q)])
  }

  ghost function Tally(pq: seq<NodeState>, m: map<StateKey, int>, live: bool): nat
  {
    if pq == [] then 0
    else Tally(pq[..|pq| - 1], m, live) + (if Classified(pq[|pq| - 1], m, live) then 1 else 0)
  }

  lemma {:induction false} TallyConcat(a: seq<NodeState>, b: seq<NodeState>, m: map<StateKey, int>, live: bool)
    ensures Tally(a + b, m, live) == Tally(a, m, live) + Tally(b, m, live)
    decreases |b|
  {
    if b == [] {
      assert a + b == a;
    } else {
      var b' := b[..|b| - 1];
      assert (a + b)[..|a + b| - 1] == a + b';
      TallyConcat(a, b', m, live);
    }
  }

  lemma TallyRemove(pq: seq<NodeState>, i: nat, m: map<StateKey, int>, live: bool)
    requires i < |pq|
    ensures Tally(pq, m, live) == Tally(Remove(pq, i), m, live) + (if Classified(pq[i], m, live) then 1 else 0)
  {
    assert pq == pq[..i] + [pq[i]] + pq[i + 1..];
    TallyConcat(pq[..i] + [pq[i]], pq[i + 1..], m, live);
    TallyConcat(pq[..i], [pq[i]], m, live);
    TallyConcat(pq[..i], pq[i + 1..], m, live);
    assert [pq[i]][..0] == [];
  }

  lemma TallyPush(pq: seq<NodeState>, x: NodeState, m: map<StateKey, int>, live: bool)
    ensures Tally(pq + [x], m, live) == Tally(pq, m, live) + (if Classified(x, m, live) then 1 else 0)
  {
    assert (pq + [x])[..|pq|] == pq;
  }

  // ---- one iteration of the main loop ----

  /** The main loop's invariant: queued states agree with their walks, the frontier holds, no
      queued state is cheaper than the last one polled (`floor`) and no recorded cost exceeds it. */
  ghost predicate LoopInvariant(graph: Graph, source: string, dest: string, pq: seq<NodeState>,
                                m: map<StateKey, int>, floor: int)
  {
    && AllConsistent(graph, source, pq)
    && Frontier(graph, source, dest, pq, m)
    && (forall j :: 0 <= j < |pq| ==> pq[j].totalCost >= floor)
    && (forall k :: k in m ==> m[k] <= floor)
    && m.Keys <= Universe(graph, source)
  }

  /** The invariant of the inner loop that pushes the neighbours of `key`, polled at cost `c`. */
  ghost predicate PushInvariant(graph: Graph, source: string, dest: string, pq: seq<NodeState>,
                                m: map<StateKey, int>, key: StateKey, c: int, nbrs: seq<Edge>, n: nat)
  {
    && n <= |nbrs|
    && AllConsistent(graph, source, pq)
    && PartialFrontier(graph, source, dest, pq, m, key)
    && ChildrenCovered(pq, m, key, c, nbrs, n)
    && (forall j :: 0 <= j < |pq| ==> pq[j].totalCost >= c)
    && (forall k :: k in m ==> m[k] <= c)
    && m.Keys <= Universe(graph, source)
  }

  /** The queue holding only the start state (source, no line) at cost 0, nothing expanded. */
  lemma StartInvariant(graph: Graph, source: string, dest: string)
    requires source in graph
    ensures LoopInvariant(graph, source, dest, [NodeState(source, None, 0, 0, 0, [source], [])], map[], 0)
  {
    var pq := [NodeState(source, None, 0, 0, 0, [source], [])];
    assert pq[0].totalCost <= 0 && KeyOf(pq[0]) == (source, None);
  }

  ghost predicate IsMin(pq: seq<NodeState>, i: nat)
  {
    i < |pq| && forall j :: 0 <= j < |pq| ==> pq[i].totalCost <= pq[j].totalCost
  }

  /** Polling the destination: the polled walk is optimal among all walks to it. */
  lemma PolledDestinationIsShortest(graph: Graph, source: string, dest: string, pq: seq<NodeState>,
                                    m: map<StateKey, int>, floor: int, i: nat)
    requires PositiveWeights(graph) && LoopInvariant(graph, source, dest, pq, m, floor)
    requires IsMin(pq, i) && pq[i].stopId == dest
    ensures Consistent(graph, source, pq[i]) && IsShortest(graph, source, dest, pq[i].walk)
  {
    var q := pq[i];
    assert Consistent(graph, source, q);
    forall w | IsWalk(graph, source, w) && EndStop(source, w) == dest
      ensures Cost(q.walk) <= Cost(w)
    {
      FrontierLowerBound(graph, source, dest, pq, m, w);
    }
  }

  /** Polling a stale entry (its key was expanded more cheaply): it is discarded. */
  lemma PollStale(graph: Graph, source: string, dest: string, pq: seq<NodeState>,
                  m: map<StateKey, int>, floor: int, i: nat)
    requires LoopInvariant(graph, source, dest, pq, m, floor)
    requires IsMin(pq, i) && pq[i].stopId != dest
    requires KeyOf(pq[i]) in m && m[KeyOf(pq[i])] < pq[i].totalCost
    ensures LoopInvariant(graph, source, dest, Remove(pq, i), m, pq[i].totalCost)
    ensures Tally(Remove(pq, i), m, true) == Tally(pq, m, true)
    ensures Tally(Remove(pq, i), m, false) < Tally(pq, m, false)
  {
    FrontierAfterPoll(graph, source, dest, pq, i, m, m);
    RemoveMin(graph, source, pq, i);
    TallyRemove(pq, i, m, true);
    TallyRemove(pq, i, m, false);
  }

  /** Removing the minimum keeps every other queued state consistent and no cheaper than it. */
  lemma RemoveMin(graph: Graph, source: string, pq: seq<NodeState>, i: nat)
    requires AllConsistent(graph, source, pq) && IsMin(pq, i)
    ensures AllConsistent(graph, source, Remove(pq, i))
    ensures forall j :: 0 <= j < |Remove(pq, i)| ==> Remove(pq, i)[j].totalCost >= pq[i].totalCost
  {
    var r := Remove(pq, i);
    forall j | 0 <= j < |r|
      ensures Consistent(graph, source, r[j]) && r[j].totalCost >= pq[i].totalCost
    {
      if j < i {
        assert r[j] == pq[j];
      } else {
        assert r[j] == pq[j + 1];
      }
    }
  }

  /** Polling an entry that is not stale: its key is recorded at its cost, which leaves every
      other key's neighbours covered. */
  lemma PollExpand(graph: Graph, source: string, dest: string, pq: seq<NodeState>,
                   m: map<StateKey, int>, floor: int, i: nat)
    requires LoopInvariant(graph, source, dest, pq, m, floor)
    requires IsMin(pq, i) && pq[i].stopId != dest
    requires !(KeyOf(pq[i]) in m && m[KeyOf(pq[i])] < pq[i].totalCost)
    ensures Consistent(graph, source, pq[i])
    ensures PushInvariant(graph, source, dest, Remove(pq, i), m[KeyOf(pq[i]) := pq[i].totalCost],
                          KeyOf(pq[i]), pq[i].totalCost, Neighbors(graph, pq[i].stopId), 0)
  {
    var q, key := pq[i], KeyOf(pq[i]);
    var m2 := m[key := q.totalCost];
    var rest := Remove(pq, i);
    assert Consistent(graph, source, q);
    assert PartialFrontier(graph, source, dest, rest, m2, key) by {
      FrontierAfterPoll(graph, source, dest, pq, i, m, m2);
    }
    assert AllConsistent(graph, source, rest) && forall j :: 0 <= j < |rest| ==> rest[j].totalCost >= q.totalCost by {
      RemoveMin(graph, source, pq, i);
    }
    assert forall k :: k in m2 ==> m2[k] <= q.totalCost by {
      assert q.totalCost >= floor;
    }
    assert m2.Keys <= Universe(graph, source) by {
      WalkKeyInUniverse(graph, source, q.walk);
    }
  }

  /** Polling an entry whose key was recorded but is not stale: it was recorded at exactly this
      cost, so recording it again changes nothing and one live entry fewer is queued. */
  lemma PollLiveProgress(pq: seq<NodeState>, m: map<StateKey, int>, floor: int, i: nat)
    requires i < |pq| && pq[i].totalCost >= floor
    requires forall k :: k in m ==> m[k] <= floor
    requires KeyOf(pq[i]) in m && m[KeyOf(pq[i])] >= pq[i].totalCost
    ensures m[KeyOf(pq[i]) := pq[i].totalCost] == m
    ensures Tally(Remove(pq, i), m, true) < Tally(pq, m, true)
  {
    var key := KeyOf(pq[i]);
    assert m[key] == pq[i].totalCost;
    assert m[key := pq[i].totalCost] == m;
    TallyRemove(pq, i, m, true);
  }

  /** Polling an entry whose key is new: one key fewer remains to be recorded. */
  lemma PollNewKeyProgress(graph: Graph, source: string, m: map<StateKey, int>, q: NodeState)
    requires Consistent(graph, source, q) && KeyOf(q) !in m
    ensures |Universe(graph, source) - m[KeyOf(q) := q.totalCost].Keys| < |Universe(graph, source) - m.Keys|
  {
    var key := KeyOf(q);
    WalkKeyInUniverse(graph, source, q.walk);
    assert m[key := q.totalCost].Keys == m.Keys + {key};
    RemoveOneShrinks(Universe(graph, source), m.Keys, key);
  }

  lemma RemoveOneShrinks<T>(u: set<T>, keys: set<T>, key: T)
    requires key in u && key !in keys
    ensures |u - (keys + {key})| < |u - keys|
  {
    var after := u - (keys + {key});
    assert u - keys == after + {key};
  }

  /** Pushing the state reached from `q` over its neighbour `nbrs[n]`. */
  lemma PushNeighbor(graph: Graph, source: string, dest: string, pq: seq<NodeState>,
                     m: map<StateKey, int>, q: NodeState, nbrs: seq<Edge>, n: nat, next: NodeState)
    requires PositiveWeights(graph) && Consistent(graph, source, q)
    requires nbrs == Neighbors(graph, q.stopId) && n < |nbrs|
    requires PushInvariant(graph, source, dest, pq, m, KeyOf(q), q.totalCost, nbrs, n)
    requires next.stopId == nbrs[n].targetStopId && next.currentLine == Some(nbrs[n].lineId)
    requires next.totalCost == q.totalCost + nbrs[n].travelTime + TransferPenalty * TransferStep(q.currentLine, nbrs[n].lineId)
    requires next.realTime == q.realTime + nbrs[n].travelTime
    requires next.transfers == q.transfers + TransferStep(q.currentLine, nbrs[n].lineId)
    requires next.path == q.path + [nbrs[n].targetStopId] && next.walk == q.walk + [nbrs[n]]
    ensures PushInvariant(graph, source, dest, pq + [next], m, KeyOf(q), q.totalCost, nbrs, n + 1)
    ensures Tally(pq + [next], m, true) == Tally(pq, m, true)
  {
    var edge := nbrs[n];
    assert edge in graph[q.stopId];
    Extend(graph, source, q.walk, edge);
    assert Consistent(graph, source, next);
    FrontierAfterPush(graph, source, dest, pq, next, m, KeyOf(q), q.totalCost, nbrs, n);
    CoveredByPush(pq, next, m);
    TallyPush(pq, next, m, true);
    assert !Classified(next, m, true);
  }
}
