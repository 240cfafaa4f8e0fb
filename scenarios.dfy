/** The seed network `initData` registers, and the route queries run against it: a ride on one
    line, a ride with a change at the interchange, and the two rejected queries. */
module Scenarios {
  import opened MetroModel
  import opened Walks
  import opened GraphRepository
  import opened PathOptimization

  /** The routes `initData` files, by id. */
  const SeedRoutes := map["R1" := RedLine, "R2" := BlueLine]

  /** The edges of the seed network: both directions of S1-S2, S2-S3 and S3-S4 on R1 and of
      S5-S3 on R2, five minutes each. */
  ghost predicate SeedEdge(s: string, e: Edge)
  {
    || (s == "S1" && e == Edge("S2", "R1", 5))
    || (s == "S2" && (e == Edge("S1", "R1", 5) || e == Edge("S3", "R1", 5)))
    || (s == "S3" && (e == Edge("S2", "R1", 5) || e == Edge("S4", "R1", 5) || e == Edge("S5", "R2", 5)))
    || (s == "S4" && e == Edge("S3", "R1", 5))
    || (s == "S5" && e == Edge("S3", "R2", 5))
  }

  /** `g` holds the five seed stops and exactly the seed edges. */
  ghost predicate SeedNetwork(g: Graph)
  {
    && g.Keys == {"S1", "S2", "S3", "S4", "S5"}
    && forall s, e :: s in g && e in g[s] <==> SeedEdge(s, e)
  }

  /** The values of SeedRoutes are the two seed lines, each met in any iteration order. */
  lemma SeedOrderMembers(order: seq<Route>)
    requires Enumerates(order, SeedRoutes)
    ensures forall j :: 0 <= j < |order| ==> order[j] == RedLine || order[j] == BlueLine
    ensures RedLine in order && BlueLine in order
  {
    assert SeedRoutes["R1"] == RedLine && SeedRoutes["R2"] == BlueLine;
    forall r | r in SeedRoutes.Values
      ensures r == RedLine || r == BlueLine
    {
      var k :| k in SeedRoutes && SeedRoutes[k] == r;
    }
    forall j | 0 <= j < |order|
      ensures order[j] == RedLine || order[j] == BlueLine
    {
      assert order[j] in order;
    }
  }

  /** Each leg of a seed line lists seed edges only. */
  lemma SeedLegEdge(route: Route, i: nat, s: string, e: Edge)
    requires route == RedLine || route == BlueLine
    requires i < Legs(route) && IsLegEdge(route, i, s, e)
    ensures SeedEdge(s, e)
  {
    if route == RedLine {
      assert i == 0 || i == 1 || i == 2;
    }
  }

  /** Whichever order `routes.values()` yields the two seed lines in, the built graph lists
      seed edges only. */
  lemma SeedBuildSound(order: seq<Route>, s: string, e: Edge)
    requires Enumerates(order, SeedRoutes)
    requires s in Build(order) && e in Build(order)[s]
    ensures SeedEdge(s, e)
  {
    SeedOrderMembers(order);
    BuildEdges(order, s, e);
    var j, i :| 0 <= j < |order| && 0 <= i < Legs(order[j]) && IsLegEdge(order[j], i, s, e);
    SeedLegEdge(order[j], i, s, e);
  }

  /** Whichever order `routes.values()` yields the two seed lines in, the built graph lists every
      seed edge. */
  lemma SeedBuildComplete(order: seq<Route>)
    requires Enumerates(order, SeedRoutes)
    ensures var g := Build(order);
            && "S1" in g && "S2" in g && "S3" in g && "S4" in g && "S5" in g
            && Edge("S2", "R1", 5) in g["S1"] && Edge("S1", "R1", 5) in g["S2"]
            && Edge("S3", "R1", 5) in g["S2"] && Edge("S2", "R1", 5) in g["S3"]
            && Edge("S4", "R1", 5) in g["S3"] && Edge("S3", "R1", 5) in g["S4"]
            && Edge("S5", "R2", 5) in g["S3"] && Edge("S3", "R2", 5) in g["S5"]
  {
    SeedOrderMembers(order);
    var jr :| 0 <= jr < |order| && order[jr] == RedLine;
    var jb :| 0 <= jb < |order| && order[jb] == BlueLine;
    LegsArePresent(order, jr, 0);
    LegsArePresent(order, jr, 1);
    LegsArePresent(order, jr, 2);
    LegsArePresent(order, jb, 0);
  }

  /** The built graph of the seed lines is the seed network. */
  lemma SeedBuild(order: seq<Route>)
    requires Enumerates(order, SeedRoutes)
    ensures SeedNetwork(Build(order))
  {
    var g := Build(order);
    SeedBuildComplete(order);
    forall s, e
      ensures s in g && e in g[s] <==> SeedEdge(s, e)
    {
      if s in g && e in g[s] {
        SeedBuildSound(order, s, e);
      }
    }
    forall s | s in g
      ensures s in {"S1", "S2", "S3", "S4", "S5"}
    {
      BuildNeighbors(order, s);
      SeedBuildSound(order, s, g[s][0]);
    }
  }

  /** Each seed stop lists as many edges as the seed network has there: one at the ends S1, S4
      and S5, two at S2, and three at the interchange S3. With SeedNetwork, no edge is listed
      twice. */
  ghost predicate SeedDegrees(g: Graph)
  {
    && |Neighbors(g, "S1")| == 1 && |Neighbors(g, "S2")| == 2 && |Neighbors(g, "S3")| == 3
    && |Neighbors(g, "S4")| == 1 && |Neighbors(g, "S5")| == 1
  }

  /** An iteration order of the seed routes is Red then Blue, or Blue then Red. */
  lemma SeedOrders(order: seq<Route>)
    requires Enumerates(order, SeedRoutes)
    ensures order == [RedLine, BlueLine] || order == [BlueLine, RedLine]
  {
    SeedOrderMembers(order);
    forall x
      ensures multiset(order)[x] == multiset{RedLine, BlueLine}[x]
    {
      DistinctMultiplicity(order, x);
      if x in order {
        var j :| 0 <= j < |order| && order[j] == x;
      }
    }
    assert multiset(order) == multiset{RedLine, BlueLine};
    assert |order| == |multiset(order)| == 2;
    assert order == [order[0], order[1]];
  }

  /** The edges two routes add at a stop: the first route's, then the second's. */
  lemma EdgesAtPair(a: Route, b: Route, s: string)
    ensures EdgesAt([a, b], s) == RouteEdgesAt(a, Legs(a), s) + RouteEdgesAt(b, Legs(b), s)
  {
    assert [a, b][..1] == [a];
    assert [a][..0] == [];
    assert EdgesAt([a], s) == [] + RouteEdgesAt(a, Legs(a), s) == RouteEdgesAt(a, Legs(a), s);
  }

  /** The three legs of the Red Line at stop `s`, in order. */
  lemma RedLineEdgesAt(s: string)
    ensures RouteEdgesAt(RedLine, Legs(RedLine), s)
            == LegEdgesAt(RedLine, 0, s) + LegEdgesAt(RedLine, 1, s) + LegEdgesAt(RedLine, 2, s)
  {
    assert Legs(RedLine) == 3;
    assert RouteEdgesAt(RedLine, 1, s) == LegEdgesAt(RedLine, 0, s);
  }

  /** In either route order, the built seed graph lists one, two, three, one and one edges under
      S1 to S5. */
  lemma SeedBuildDegrees(order: seq<Route>)
    requires Enumerates(order, SeedRoutes)
    ensures SeedDegrees(Build(order))
  {
    SeedOrders(order);
    forall s | s in ["S1", "S2", "S3", "S4", "S5"]
      ensures |Neighbors(Build(order), s)| == |RouteEdgesAt(RedLine, 3, s)| + |RouteEdgesAt(BlueLine, 1, s)|
    {
      BuildNeighbors(order, s);
      EdgesAtPair(order[0], order[1], s);
    }
    RedLineEdgesAt("S1");
    RedLineEdgesAt("S2");
    RedLineEdgesAt("S3");
    RedLineEdgesAt("S4");
    RedLineEdgesAt("S5");
    assert Legs(BlueLine) == 1;
  }

  /** The seed edges the two test walks ride. */
  lemma SeedRides(g: Graph)
    requires SeedNetwork(g)
    ensures Edge("S2", "R1", 5) in Neighbors(g, "S1")
    ensures Edge("S3", "R1", 5) in Neighbors(g, "S2")
    ensures Edge("S5", "R2", 5) in Neighbors(g, "S3")
  {
    assert SeedEdge("S1", Edge("S2", "R1", 5));
    assert SeedEdge("S2", Edge("S3", "R1", 5));
    assert SeedEdge("S3", Edge("S5", "R2", 5));
  }

  /** The one-edge walk S1 to S2 on the Red Line. */
  lemma DirectWalk(g: Graph)
    requires Edge("S2", "R1", 5) in Neighbors(g, "S1")
    ensures var w0 := [Edge("S2", "R1", 5)];
            && IsWalk(g, "S1", w0) && EndStop("S1", w0) == "S2" && Cost(w0) == 5
            && Found("S1", w0) == PathResult(Some(["S1", "S2"]), 5, 0, None)
  {
    var e1 := Edge("S2", "R1", 5);
    Extend(g, "S1", [], e1);
    assert [] + [e1] == [e1];
    assert Stops("S1", [e1]) == ["S1"] + ["S2"] == ["S1", "S2"];
  }

  /** The walk S1, S2, S3 on the Red Line, then S5 on the Blue Line. */
  lemma InterchangeWalk(g: Graph)
    requires Edge("S2", "R1", 5) in Neighbors(g, "S1")
    requires Edge("S3", "R1", 5) in Neighbors(g, "S2")
    requires Edge("S5", "R2", 5) in Neighbors(g, "S3")
    ensures var w0 := [Edge("S2", "R1", 5), Edge("S3", "R1", 5), Edge("S5", "R2", 5)];
            && IsWalk(g, "S1", w0) && EndStop("S1", w0) == "S5" && Cost(w0) == 25
            && Found("S1", w0) == PathResult(Some(["S1", "S2", "S3", "S5"]), 15, 1, None)
  {
    var e1, e2, e3 := Edge("S2", "R1", 5), Edge("S3", "R1", 5), Edge("S5", "R2", 5);
    Extend(g, "S1", [], e1);
    assert [] + [e1] == [e1];
    Extend(g, "S1", [e1], e2);
    assert [e1] + [e2] == [e1, e2];
    Extend(g, "S1", [e1, e2], e3);
    assert [e1, e2] + [e3] == [e1, e2, e3];
    assert Stops("S1", [e1, e2, e3]) == ["S1"] + ["S2"] + ["S3"] + ["S5"] == ["S1", "S2", "S3", "S5"];
  }

  /** Every seed edge takes five minutes, no stop id contains `_` and no line is called "null". */
  lemma SeedInputs(g: Graph, source: string)
    requires SeedNetwork(g) && source in g
    ensures PositiveWeights(g) && FaithfulIds(g, source)
    ensures forall s, e :: s in g && e in g[s] ==> e.travelTime == LegTime
  {
  }

  /** On the seed network a walk takes five minutes per edge. */
  lemma {:induction false} SeedWalkTime(g: Graph, w: seq<Edge>)
    requires SeedNetwork(g) && IsWalk(g, "S1", w)
    ensures RealTime(w) == LegTime * |w|
  {
    if w != [] {
      var front := w[..|w| - 1];
      SeedWalkTime(g, front);
      assert SeedEdge(EndStop("S1", front), w[|w| - 1]);
    }
  }

  /** The first edge of any walk from S1 is the Red Line edge to S2. */
  lemma FirstFromS1(g: Graph, w: seq<Edge>)
    requires SeedNetwork(g) && IsWalk(g, "S1", w) && |w| >= 1
    ensures w[0] == Edge("S2", "R1", 5)
  {
    PrefixIsWalk(g, "S1", w, 1);
    var w1 := w[..1];
    assert w1[..0] == [];
    assert SeedEdge("S1", w[0]);
  }

  /** S1 to S2: one Red Line ride of five minutes, no change. */
  lemma DirectRouteIsShortest(g: Graph, w: seq<Edge>)
    requires SeedNetwork(g) && IsShortest(g, "S1", "S2", w)
    ensures Found("S1", w) == PathResult(Some(["S1", "S2"]), 5, 0, None)
  {
    var w0 := [Edge("S2", "R1", 5)];
    SeedRides(g);
    DirectWalk(g);
    SeedWalkTime(g, w);
    TransfersNonNegative(w);
    assert |w| == 1;
    FirstFromS1(g, w);
    assert w == w0;
  }

  /** A walk of the seed network from S1 to S5 gives the stops S1, S2, S3, S5 once it has three edges. */
  lemma ThreeEdgeWalkToS5(g: Graph, w: seq<Edge>)
    requires SeedNetwork(g) && IsWalk(g, "S1", w) && EndStop("S1", w) == "S5" && |w| == 3
    ensures w == [Edge("S2", "R1", 5), Edge("S3", "R1", 5), Edge("S5", "R2", 5)]
  {
    FirstFromS1(g, w);
    PrefixIsWalk(g, "S1", w, 2);
    var w2 := w[..2];
    assert w2[..1] == w[..1];
    assert SeedEdge(EndStop("S1", w2[..1]), w[1]);
    assert SeedEdge(EndStop("S1", w2), w[2]);
  }

  /** S1 to S5: the Red Line to the interchange S3, then the Blue Line: 15 minutes and one change,
      against the 25 of priority the change costs. */
  lemma InterchangeRouteIsShortest(g: Graph, w: seq<Edge>)
    requires SeedNetwork(g) && IsShortest(g, "S1", "S5", w)
    ensures Found("S1", w) == PathResult(Some(["S1", "S2", "S3", "S5"]), 15, 1, None)
  {
    SeedRides(g);
    InterchangeWalk(g);
    SeedWalkTime(g, w);
    assert |w| >= 1;
    FirstFromS1(g, w);
    var front := w[..|w| - 1];
    assert SeedEdge(EndStop("S1", front), w[|w| - 1]);
    LineChangeIsTransfer(w);
    assert |w| == 3;
    ThreeEdgeWalkToS5(g, w);
  }

  /** The repository of a fresh start: `new MetroGraphRepository()` followed by `initData()`. */
  method SeededRepository() returns (repository: MetroGraphRepository)
    ensures fresh(repository) && repository.Valid()
    ensures SeedNetwork(repository.graph) && SeedDegrees(repository.graph)
  {
    repository := new MetroGraphRepository();
    repository.InitData();
    SeedBuild(repository.builtFrom);
    SeedBuildDegrees(repository.builtFrom);
  }

  /** `testDirectRoute_NoTransfers`: S1 to S2 succeeds in five minutes with no change over two stops. */
  method DirectRoute() returns (r: PathResult)
    ensures r == PathResult(Some(["S1", "S2"]), 5, 0, None)
  {
    var repository := SeededRepository();
    var graph := repository.GetGraph();
    SeedInputs(graph, "S1");
    SeedRides(graph);
    DirectWalk(graph);
    r := FindShortestPath(graph, "S1", "S2");
    ghost var w :| IsShortest(graph, "S1", "S2", w) && r == Found("S1", w);
    DirectRouteIsShortest(graph, w);
  }

  /** `testInterchangeRoute_WithTransferPenalty`: S1 to S5 reports 15 minutes and one change. */
  method InterchangeRoute() returns (r: PathResult)
    ensures r == PathResult(Some(["S1", "S2", "S3", "S5"]), 15, 1, None)
  {
    var repository := SeededRepository();
    var graph := repository.GetGraph();
    SeedInputs(graph, "S1");
    SeedRides(graph);
    InterchangeWalk(graph);
    r := FindShortestPath(graph, "S1", "S5");
    ghost var w :| IsShortest(graph, "S1", "S5", w) && r == Found("S1", w);
    InterchangeRouteIsShortest(graph, w);
  }

  /** `testEdgeCase_SameSourceAndDestination`. */
  method SameStop() returns (r: PathResult)
    ensures r.error == Some("Source and destination cannot be the same.")
  {
    var repository := SeededRepository();
    var graph := repository.GetGraph();
    SeedInputs(graph, "S1");
    r := FindShortestPath(graph, "S1", "S1");
  }

  /** `testEdgeCase_InvalidStation`: an id that is no stop of the network is rejected. */
  method InvalidStation() returns (r: PathResult)
    ensures r.error == Some("Invalid source or destination station.")
  {
    var repository := SeededRepository();
    var graph := repository.GetGraph();
    SeedInputs(graph, "S1");
    assert "INVALID" !in graph;
    r := FindShortestPath(graph, "INVALID", "S2");
  }
}
