/** MetroGraphRepository: stops and routes registered by id, and the adjacency list built from
    the routes, two opposite edges of five minutes per consecutive pair of stops on a route. */
module GraphRepository {
  import opened MetroModel

  /** The travel time `buildGraph` gives every edge, in minutes. */
  const LegTime: int := 5

  // ---- the adjacency list buildGraph produces, as functions of the routes in iteration order ----

  /** `graph.computeIfAbsent(s, k -> new ArrayList<>()).add(e)`. */
  function Append(g: Graph, s: string, e: Edge): Graph
  {
    g[s := Neighbors(g, s) + [e]]
  }

  /** The number of consecutive stop pairs of a route: `stopIds.size() - 1`, and none when empty. */
  function Legs(r: Route): nat
  {
    if |r.stopIds| >= 2 then |r.stopIds| - 1 else 0
  }

  /** One iteration of the inner loop: the edge from stop `i` to stop `i + 1`, then the way back. */
  function AddLeg(g: Graph, r: Route, i: nat): Graph
    requires i < Legs(r)
  {
    var a, b := r.stopIds[i], r.stopIds[i + 1];
    Append(Append(g, a, Edge(b, r.id, LegTime)), b, Edge(a, r.id, LegTime))
  }

  /** The first `n` iterations of the inner loop for route `r`. */
  function AddLegs(g: Graph, r: Route, n: nat): Graph
    requires n <= Legs(r)
  {
    if n == 0 then g else AddLeg(AddLegs(g, r, n - 1), r, n - 1)
  }

  /** The graph `buildGraph` leaves after visiting the routes in the order `rs`. */
  function Build(rs: seq<Route>): Graph
  {
    if rs == [] then map[] else AddLegs(Build(rs[..|rs| - 1]), rs[|rs| - 1], Legs(rs[|rs| - 1]))
  }

  lemma AddLegsStep(g: Graph, r: Route, i: nat)
    requires i < Legs(r)
    ensures AddLegs(g, r, i + 1) == AddLeg(AddLegs(g, r, i), r, i)
  {
  }

  lemma BuildSnoc(rs: seq<Route>, r: Route)
    ensures Build(rs + [r]) == AddLegs(Build(rs), r, Legs(r))
  {
    assert (rs + [r])[..|rs|] == rs;
  }

  // ---- an independent description: the edges each leg contributes at each stop ----

  /** `e` is an edge leg `i` of route `r` lists under stop `s`. */
  ghost predicate IsLegEdge(r: Route, i: nat, s: string, e: Edge)
    requires i < Legs(r)
  {
    || (s == r.stopIds[i] && e == Edge(r.stopIds[i + 1], r.id, LegTime))
    || (s == r.stopIds[i + 1] && e == Edge(r.stopIds[i], r.id, LegTime))
  }

  /** The edges leg `i` of `r` adds under stop `s`, in the order they are added. */
  function LegEdgesAt(r: Route, i: nat, s: string): seq<Edge>
    requires i < Legs(r)
  {
    var a, b := r.stopIds[i], r.stopIds[i + 1];
    (if s == a then [Edge(b, r.id, LegTime)] else []) + (if s == b then [Edge(a, r.id, LegTime)] else [])
  }

  /** The edges the first `n` legs of `r` add under stop `s`, in order. */
  function RouteEdgesAt(r: Route, n: nat, s: string): seq<Edge>
    requires n <= Legs(r)
  {
    if n == 0 then [] else RouteEdgesAt(r, n - 1, s) + LegEdgesAt(r, n - 1, s)
  }

  /** The edges all routes of `rs` add under stop `s`, route after route. */
  function EdgesAt(rs: seq<Route>, s: string): seq<Edge>
  {
    if rs == [] then [] else EdgesAt(rs[..|rs| - 1], s) + RouteEdgesAt(rs[|rs| - 1], Legs(rs[|rs| - 1]), s)
  }

  function TotalLegs(rs: seq<Route>): nat
  {
    if rs == [] then 0 else TotalLegs(rs[..|rs| - 1]) + Legs(rs[|rs| - 1])
  }

  /** Every edge of `g` has a reverse edge on the same line with the same travel time. */
  ghost predicate Symmetric(g: Graph)
  {
    forall a, e :: a in g && e in g[a] ==> e.targetStopId in g && Edge(a, e.lineId, e.travelTime) in g[e.targetStopId]
  }

  /** The stop lies on some route of `rs` that has at least two stops. */
  ghost predicate OnSomeRoute(rs: seq<Route>, s: string)
  {
    exists j :: 0 <= j < |rs| && |rs[j].stopIds| >= 2 && s in rs[j].stopIds
  }

  // ---- Build agrees with the independent description ----

  lemma AppendNeighbors(g: Graph, s: string, e: Edge, x: string)
    ensures Neighbors(Append(g, s, e), x) == Neighbors(g, x) + (if x == s then [e] else [])
    ensures x in Append(g, s, e) <==> x in g || x == s
  {
  }

  lemma AddLegNeighbors(h: Graph, r: Route, i: nat, x: string)
    requires i < Legs(r)
    ensures Neighbors(AddLeg(h, r, i), x) == Neighbors(h, x) + LegEdgesAt(r, i, x)
    ensures x in AddLeg(h, r, i) <==> x in h || LegEdgesAt(r, i, x) != []
  {
    var a, b := r.stopIds[i], r.stopIds[i + 1];
    var h1 := Append(h, a, Edge(b, r.id, LegTime));
    AppendNeighbors(h, a, Edge(b, r.id, LegTime), x);
    AppendNeighbors(h1, b, Edge(a, r.id, LegTime), x);
    assert AddLeg(h, r, i) == Append(h1, b, Edge(a, r.id, LegTime));
  }

  lemma {:induction false} AddLegsNeighbors(g: Graph, r: Route, n: nat, x: string)
    requires n <= Legs(r)
    ensures Neighbors(AddLegs(g, r, n), x) == Neighbors(g, x) + RouteEdgesAt(r, n, x)
    decreases n, 1
  {
    if n > 0 {
      AddLegsSucc(g, r, n - 1, x);
    } else {
      assert Neighbors(g, x) + [] == Neighbors(g, x);
    }
  }

  lemma {:induction false} AddLegsSucc(g: Graph, r: Route, m: nat, x: string)
    requires m < Legs(r)
    ensures Neighbors(AddLegs(g, r, m + 1), x) == Neighbors(g, x) + RouteEdgesAt(r, m + 1, x)
    decreases m + 1, 0
  {
    AddLegsNeighbors(g, r, m, x);
    AddLegNeighbors(AddLegs(g, r, m), r, m, x);
    SeqAssoc(Neighbors(g, x), RouteEdgesAt(r, m, x), LegEdgesAt(r, m, x));
  }

  lemma SeqAssoc<T>(a: seq<T>, b: seq<T>, c: seq<T>)
    ensures (a + b) + c == a + (b + c)
  {
  }

  lemma {:induction false} AddLegsKeys(g: Graph, r: Route, n: nat, x: string)
    requires n <= Legs(r)
    ensures x in AddLegs(g, r, n) <==> x in g || RouteEdgesAt(r, n, x) != []
  {
    if n > 0 {
      AddLegsKeys(g, r, n - 1, x);
      AddLegNeighbors(AddLegs(g, r, n - 1), r, n - 1, x);
    }
  }

  /** The adjacency list of stop `x` holds exactly the edges the legs of the routes add under it,
      in route order and, within a route, in leg order; and `x` is a key exactly when there is one. */
  lemma {:induction false} BuildNeighbors(rs: seq<Route>, x: string)
    ensures Neighbors(Build(rs), x) == EdgesAt(rs, x)
    ensures x in Build(rs) <==> EdgesAt(rs, x) != []
  {
    if rs != [] {
      var front, r := rs[..|rs| - 1], rs[|rs| - 1];
      BuildNeighbors(front, x);
      AddLegsNeighbors(Build(front), r, Legs(r), x);
      AddLegsKeys(Build(front), r, Legs(r), x);
    }
  }

  lemma {:induction false} RouteEdgesAtMembers(r: Route, n: nat, s: string, e: Edge)
    requires n <= Legs(r)
    ensures e in RouteEdgesAt(r, n, s) <==> exists i :: 0 <= i < n && IsLegEdge(r, i, s, e)
    decreases n, 1
  {
    if n > 0 {
      RouteEdgesAtMembersSucc(r, n - 1, s, e);
    }
  }

  lemma {:induction false} RouteEdgesAtMembersSucc(r: Route, m: nat, s: string, e: Edge)
    requires m < Legs(r)
    ensures e in RouteEdgesAt(r, m + 1, s) <==> exists i :: 0 <= i < m + 1 && IsLegEdge(r, i, s, e)
    decreases m + 1, 0
  {
    RouteEdgesAtMembers(r, m, s, e);
    LegEdgesAtMembers(r, m, s, e);
    assert RouteEdgesAt(r, m + 1, s) == RouteEdgesAt(r, m, s) + LegEdgesAt(r, m, s);
    if exists i :: 0 <= i < m + 1 && IsLegEdge(r, i, s, e) {
      var i :| 0 <= i < m + 1 && IsLegEdge(r, i, s, e);
      if i < m {
        assert e in RouteEdgesAt(r, m, s);
      }
    }
  }

  lemma LegEdgesAtMembers(r: Route, i: nat, s: string, e: Edge)
    requires i < Legs(r)
    ensures e in LegEdgesAt(r, i, s) <==> IsLegEdge(r, i, s, e)
  {
  }

  lemma {:induction false} EdgesAtMembers(rs: seq<Route>, s: string, e: Edge)
    ensures e in EdgesAt(rs, s) <==> exists j :: 0 <= j < |rs| && e in RouteEdgesAt(rs[j], Legs(rs[j]), s)
    decreases |rs|, 1
  {
    if rs != [] {
      var front, r := rs[..|rs| - 1], rs[|rs| - 1];
      assert rs == front + [r];
      EdgesAtMembersSnoc(front, r, s, e);
    }
  }

  lemma {:induction false} EdgesAtMembersSnoc(front: seq<Route>, r: Route, s: string, e: Edge)
    ensures e in EdgesAt(front + [r], s) <==>
              exists j :: 0 <= j < |front + [r]| && e in RouteEdgesAt((front + [r])[j], Legs((front + [r])[j]), s)
    decreases |front| + 1, 0
  {
    var rs := front + [r];
    EdgesAtMembers(front, s, e);
    assert rs[..|rs| - 1] == front;
    assert EdgesAt(rs, s) == EdgesAt(front, s) + RouteEdgesAt(r, Legs(r), s);
    if exists j :: 0 <= j < |rs| && e in RouteEdgesAt(rs[j], Legs(rs[j]), s) {
      var j :| 0 <= j < |rs| && e in RouteEdgesAt(rs[j], Legs(rs[j]), s);
      if j < |front| {
        assert front[j] == rs[j];
      }
    }
    if e in EdgesAt(front, s) {
      var j :| 0 <= j < |front| && e in RouteEdgesAt(front[j], Legs(front[j]), s);
      assert rs[j] == front[j];
    }
  }

  /** An edge is listed under stop `s` of the built graph exactly when some leg of some route
      lists it there: the forward edge at the leg's first stop or the reverse edge at its second. */
  lemma BuildEdges(rs: seq<Route>, s: string, e: Edge)
    ensures s in Build(rs) && e in Build(rs)[s] <==>
              exists j, i :: 0 <= j < |rs| && 0 <= i < Legs(rs[j]) && IsLegEdge(rs[j], i, s, e)
  {
    BuildNeighbors(rs, s);
    EdgesAtMembers(rs, s, e);
    if e in EdgesAt(rs, s) {
      var j :| 0 <= j < |rs| && e in RouteEdgesAt(rs[j], Legs(rs[j]), s);
      RouteEdgesAtMembers(rs[j], Legs(rs[j]), s, e);
    }
    if exists j, i :: 0 <= j < |rs| && 0 <= i < Legs(rs[j]) && IsLegEdge(rs[j], i, s, e) {
      var j, i :| 0 <= j < |rs| && 0 <= i < Legs(rs[j]) && IsLegEdge(rs[j], i, s, e);
      RouteEdgesAtMembers(rs[j], Legs(rs[j]), s, e);
    }
  }

  /** Every consecutive pair of stops of every route is joined in both directions. */
  lemma LegsArePresent(rs: seq<Route>, j: nat, i: nat)
    requires j < |rs| && i < Legs(rs[j])
    ensures var a, b := rs[j].stopIds[i], rs[j].stopIds[i + 1];
            && a in Build(rs) && Edge(b, rs[j].id, LegTime) in Build(rs)[a]
            && b in Build(rs) && Edge(a, rs[j].id, LegTime) in Build(rs)[b]
  {
    var a, b := rs[j].stopIds[i], rs[j].stopIds[i + 1];
    assert IsLegEdge(rs[j], i, a, Edge(b, rs[j].id, LegTime));
    BuildEdges(rs, a, Edge(b, rs[j].id, LegTime));
    assert IsLegEdge(rs[j], i, b, Edge(a, rs[j].id, LegTime));
    BuildEdges(rs, b, Edge(a, rs[j].id, LegTime));
  }

  /** Every edge of the built graph has its reverse, and every edge takes five minutes. */
  lemma BuildIsSymmetric(rs: seq<Route>)
    ensures Symmetric(Build(rs))
    ensures forall a, e :: a in Build(rs) && e in Build(rs)[a] ==> e.travelTime == LegTime
  {
    var g := Build(rs);
    forall a: string, e: Edge | a in g && e in g[a]
      ensures e.targetStopId in g && Edge(a, e.lineId, e.travelTime) in g[e.targetStopId]
      ensures e.travelTime == LegTime
    {
      BuildEdges(rs, a, e);
      var j, i :| 0 <= j < |rs| && 0 <= i < Legs(rs[j]) && IsLegEdge(rs[j], i, a, e);
      assert IsLegEdge(rs[j], i, e.targetStopId, Edge(a, e.lineId, e.travelTime));
      BuildEdges(rs, e.targetStopId, Edge(a, e.lineId, e.travelTime));
    }
  }

  /** The keys of the built graph are exactly the stops of routes with at least two stops. */
  lemma BuildKeys(rs: seq<Route>, s: string)
    ensures s in Build(rs) <==> OnSomeRoute(rs, s)
  {
    if s in Build(rs) {
      KeyIsOnSomeRoute(rs, s);
    }
    if OnSomeRoute(rs, s) {
      OnSomeRouteIsKey(rs, s);
    }
  }

  lemma KeyIsOnSomeRoute(rs: seq<Route>, s: string)
    requires s in Build(rs)
    ensures OnSomeRoute(rs, s)
  {
    BuildNeighbors(rs, s);
    var e := Build(rs)[s][0];
    BuildEdges(rs, s, e);
    var j, i :| 0 <= j < |rs| && 0 <= i < Legs(rs[j]) && IsLegEdge(rs[j], i, s, e);
    assert s == rs[j].stopIds[i] || s == rs[j].stopIds[i + 1];
  }

  lemma OnSomeRouteIsKey(rs: seq<Route>, s: string)
    requires OnSomeRoute(rs, s)
    ensures s in Build(rs)
  {
    var j :| 0 <= j < |rs| && |rs[j].stopIds| >= 2 && s in rs[j].stopIds;
    var k :| 0 <= k < |rs[j].stopIds| && rs[j].stopIds[k] == s;
    if k < Legs(rs[j]) {
      LegsArePresent(rs, j, k);
    } else {
      LegsArePresent(rs, j, k - 1);
    }
  }

  // ---- edge count ----

  /** The total number of edges over all adjacency lists. */
  ghost function EdgeCount(g: Graph): nat
    decreases |g|
  {
    if g == map[] then 0
    else
      var s :| s in g;
      assert |g - {s}| < |g| by { assert (g - {s}).Keys + {s} == g.Keys; }
      |g[s]| + EdgeCount(g - {s})
  }

  lemma {:induction false} EdgeCountWithout(g: Graph, s: string)
    requires s in g
    ensures EdgeCount(g) == |g[s]| + EdgeCount(g - {s})
    decreases |g|
  {
    var t :| t in g && EdgeCount(g) == |g[t]| + EdgeCount(g - {t});
    if t != s {
      assert (g - {t}).Keys + {t} == g.Keys;
      assert (g - {s}).Keys + {s} == g.Keys;
      EdgeCountWithout(g - {t}, s);
      EdgeCountWithout(g - {s}, t);
      assert g - {t} - {s} == g - {s} - {t};
    }
  }

  lemma EdgeCountAppend(g: Graph, s: string, e: Edge)
    ensures EdgeCount(Append(g, s, e)) == EdgeCount(g) + 1
  {
    var g' := Append(g, s, e);
    EdgeCountWithout(g', s);
    assert g' - {s} == g - {s};
    if s in g {
      EdgeCountWithout(g, s);
    } else {
      assert g - {s} == g;
    }
  }

  lemma {:induction false} AddLegsEdgeCount(g: Graph, r: Route, n: nat)
    requires n <= Legs(r)
    ensures EdgeCount(AddLegs(g, r, n)) == EdgeCount(g) + 2 * n
  {
    if n > 0 {
      AddLegsEdgeCount(g, r, n - 1);
      var h := AddLegs(g, r, n - 1);
      var a, b := r.stopIds[n - 1], r.stopIds[n];
      EdgeCountAppend(h, a, Edge(b, r.id, LegTime));
      EdgeCountAppend(Append(h, a, Edge(b, r.id, LegTime)), b, Edge(a, r.id, LegTime));
    }
  }

  /** Each leg of each route contributes two edges; a route with fewer than two stops none. */
  lemma {:induction false} BuildEdgeCount(rs: seq<Route>)
    ensures EdgeCount(Build(rs)) == 2 * TotalLegs(rs)
  {
    if rs != [] {
      var front, r := rs[..|rs| - 1], rs[|rs| - 1];
      BuildEdgeCount(front);
      AddLegsEdgeCount(Build(front), r, Legs(r));
    }
  }

  // ---- independence of the route iteration order ----

  /** `order` lists each route of `routes` exactly once: an iteration order of `routes.values()`. */
  ghost predicate Enumerates(order: seq<Route>, routes: map<string, Route>)
  {
    && (forall i, j :: 0 <= i < j < |order| ==> order[i] != order[j])
    && (forall r :: r in order <==> r in routes.Values)
  }

  lemma {:induction false} DistinctMultiplicity(a: seq<Route>, r: Route)
    requires forall i, j :: 0 <= i < j < |a| ==> a[i] != a[j]
    ensures multiset(a)[r] == if r in a then 1 else 0
  {
    if a != [] {
      var front := a[..|a| - 1];
      assert a == front + [a[|a| - 1]];
      DistinctMultiplicity(front, r);
      if r == a[|a| - 1] {
        assert r !in front;
      }
    }
  }

  /** Two iteration orders of the same routes are permutations of each other. */
  lemma EnumerationsPermute(o1: seq<Route>, o2: seq<Route>, routes: map<string, Route>)
    requires Enumerates(o1, routes) && Enumerates(o2, routes)
    ensures multiset(o1) == multiset(o2)
  {
    forall r | true
      ensures multiset(o1)[r] == multiset(o2)[r]
    {
      DistinctMultiplicity(o1, r);
      DistinctMultiplicity(o2, r);
    }
  }

  lemma EdgesAtSnoc(front: seq<Route>, r: Route, s: string)
    ensures EdgesAt(front + [r], s) == EdgesAt(front, s) + RouteEdgesAt(r, Legs(r), s)
  {
    assert (front + [r])[..|front|] == front;
  }

  lemma {:induction false} EdgesAtConcat(a: seq<Route>, b: seq<Route>, s: string)
    ensures EdgesAt(a + b, s) == EdgesAt(a, s) + EdgesAt(b, s)
    decreases |b|, 1
  {
    if b == [] {
      assert a + b == a;
      assert EdgesAt(a, s) + [] == EdgesAt(a, s);
    } else {
      var b', r := b[..|b| - 1], b[|b| - 1];
      assert b == b' + [r];
      EdgesAtConcatSnoc(a, b', r, s);
    }
  }

  lemma {:induction false} EdgesAtConcatSnoc(a: seq<Route>, b: seq<Route>, r: Route, s: string)
    ensures EdgesAt(a + (b + [r]), s) == EdgesAt(a, s) + EdgesAt(b + [r], s)
    decreases |b| + 1, 0
  {
    EdgesAtConcat(a, b, s);
    assert a + (b + [r]) == (a + b) + [r];
    EdgesAtSnoc(a + b, r, s);
    EdgesAtSnoc(b, r, s);
    SeqAssoc(EdgesAt(a, s), EdgesAt(b, s), RouteEdgesAt(r, Legs(r), s));
  }

  /** Taking route `k` out of `b`: the edges split around it. */
  lemma EdgesAtSplit(b: seq<Route>, k: nat, s: string)
    requires k < |b|
    ensures EdgesAt(b, s) == EdgesAt(b[..k], s) + RouteEdgesAt(b[k], Legs(b[k]), s) + EdgesAt(b[k + 1..], s)
    ensures EdgesAt(b[..k] + b[k + 1..], s) == EdgesAt(b[..k], s) + EdgesAt(b[k + 1..], s)
  {
    assert b == (b[..k] + [b[k]]) + b[k + 1..];
    EdgesAtConcat(b[..k] + [b[k]], b[k + 1..], s);
    EdgesAtSnoc(b[..k], b[k], s);
    EdgesAtConcat(b[..k], b[k + 1..], s);
  }

  lemma MultisetSplit(b: seq<Route>, k: nat)
    requires k < |b|
    ensures multiset(b) == multiset(b[..k] + b[k + 1..]) + multiset{b[k]}
  {
    assert b == b[..k] + [b[k]] + b[k + 1..];
  }

  /** Permuting the routes permutes the edges under each stop. */
  lemma {:induction false} EdgesAtPermutation(a: seq<Route>, b: seq<Route>, s: string)
    requires multiset(a) == multiset(b)
    ensures multiset(EdgesAt(a, s)) == multiset(EdgesAt(b, s))
    decreases |a|
  {
    if a == [] {
      assert |b| == |multiset(b)| == 0;
    } else {
      var front, r := a[..|a| - 1], a[|a| - 1];
      assert a == front + [r];
      assert multiset(a) == multiset(front) + multiset{r};
      assert r in multiset(b);
      var k :| 0 <= k < |b| && b[k] == r;
      var rest := b[..k] + b[k + 1..];
      MultisetSplit(b, k);
      forall x
        ensures multiset(rest)[x] == multiset(front)[x]
      {
        assert multiset(b)[x] == multiset(a)[x];
      }
      assert multiset(rest) == multiset(front);
      EdgesAtPermutation(front, rest, s);
      EdgesAtSnoc(front, r, s);
      EdgesAtSplit(b, k, s);
      var F, A, R, C := EdgesAt(front, s), EdgesAt(b[..k], s), RouteEdgesAt(r, Legs(r), s), EdgesAt(b[k + 1..], s);
      calc {
        multiset(EdgesAt(a, s));
        multiset(F + R);
        multiset(F) + multiset(R);
        multiset(A + C) + multiset(R);
        multiset(A) + multiset(R) + multiset(C);
        multiset(A + R + C);
        multiset(EdgesAt(b, s));
      }
    }
  }

  /** Rebuilding from the same routes in any iteration order gives every stop the same multiset of
      edges and the same key set. */
  lemma RebuildIsOrderIndependent(o1: seq<Route>, o2: seq<Route>, routes: map<string, Route>, s: string)
    requires Enumerates(o1, routes) && Enumerates(o2, routes)
    ensures multiset(Neighbors(Build(o1), s)) == multiset(Neighbors(Build(o2), s))
    ensures s in Build(o1) <==> s in Build(o2)
  {
    EnumerationsPermute(o1, o2, routes);
    EdgesAtPermutation(o1, o2, s);
    BuildNeighbors(o1, s);
    BuildNeighbors(o2, s);
    if EdgesAt(o1, s) == [] {
      assert |multiset(EdgesAt(o2, s))| == 0;
    }
    if EdgesAt(o2, s) == [] {
      assert |multiset(EdgesAt(o1, s))| == 0;
    }
  }

  /** `Neighbors(Build(rs), s)` for every stop at once. */
  lemma BuildAdjacency(rs: seq<Route>)
    ensures forall s :: Neighbors(Build(rs), s) == EdgesAt(rs, s)
  {
    forall s | true
      ensures Neighbors(Build(rs), s) == EdgesAt(rs, s)
    {
      BuildNeighbors(rs, s);
    }
  }

  // ---- the repository object ----

  /** The Red Line of the seed network: A, B, C, D. */
  const RedLine := Route("R1", "Red Line", ["S1", "S2", "S3", "S4"])

  /** The Blue Line of the seed network: E, C; it meets the Red Line at C. */
  const BlueLine := Route("R2", "Blue Line", ["S5", "S3"])

  /** The routes of `values` split into those visited, once each and in `order`, and the
      `remaining` ones. */
  ghost predicate Visiting(order: seq<Route>, remaining: set<Route>, values: set<Route>)
  {
    && remaining <= values
    && (forall r :: r in order <==> r in values && r !in remaining)
    && (forall i, j :: 0 <= i < j < |order| ==> order[i] != order[j])
  }

  lemma VisitingStep(order: seq<Route>, remaining: set<Route>, values: set<Route>, r: Route)
    requires Visiting(order, remaining, values) && r in remaining
    ensures Visiting(order + [r], remaining - {r}, values)
  {
    forall x
      ensures x in order + [r] <==> x in values && x !in remaining - {r}
    {
      assert x in order + [r] <==> x in order || x == r;
    }
  }

  class MetroGraphRepository {
    var stops: map<string, Stop>
    var routes: map<string, Route>
    var graph: Graph
    /** The order in which the last `buildGraph` visited the routes (`[]` before the first). */
    ghost var builtFrom: seq<Route>

    /** Stops and routes are filed under their own ids, and the graph is the one built from
        `builtFrom`. */
    ghost predicate Valid()
      reads this
    {
      && (forall id :: id in stops ==> stops[id].id == id)
      && (forall id :: id in routes ==> routes[id].id == id)
      && graph == Build(builtFrom)
    }

    constructor()
      ensures Valid()
      ensures stops == map[] && routes == map[] && graph == map[]
    {
      stops := map[];
      routes := map[];
      graph := map[];
      builtFrom := [];
    }

    /** `addStop`: files the stop under its id, replacing any stop with that id. */
    method AddStop(stop: Stop)
      requires Valid()
      modifies this
      ensures Valid()
      ensures stops == old(stops)[stop.id := stop]
      ensures routes == old(routes) && graph == old(graph) && builtFrom == old(builtFrom)
    {
      stops := stops[stop.id := stop];
    }

    /** `addRoute`: files the route under its id; the graph is not rebuilt. */
    method AddRoute(route: Route)
      requires Valid()
      modifies this
      ensures Valid()
      ensures routes == old(routes)[route.id := route]
      ensures stops == old(stops) && graph == old(graph) && builtFrom == old(builtFrom)
    {
      routes := routes[route.id := route];
    }

    /** `buildGraph`: clears the adjacency list and, for each route in some iteration order of
        `routes.values()`, adds both directions of each consecutive pair of its stops. */
    method BuildGraph()
      requires Valid()
      modifies this
      ensures Valid()
      ensures stops == old(stops) && routes == old(routes)
      ensures Enumerates(builtFrom, routes)
      ensures graph == Build(builtFrom)
    {
      graph := map[];
      ghost var order: seq<Route> := [];
      var remaining := routes.Values;
      while remaining != {}
        invariant stops == old(stops) && routes == old(routes)
        invariant Visiting(order, remaining, routes.Values)
        invariant graph == Build(order)
        decreases |remaining|
      {
        var route :| route in remaining;
        ghost var before := graph;
        var lineStops := route.stopIds;
        var i := 0;
        while i < |lineStops| - 1
          invariant stops == old(stops) && routes == old(routes)
          invariant i <= Legs(route)
          invariant graph == AddLegs(before, route, i)
        {
          var current := lineStops[i];
          var next := lineStops[i + 1];
          AddLegsStep(before, route, i);
          graph := Append(graph, current, Edge(next, route.id, LegTime));
          graph := Append(graph, next, Edge(current, route.id, LegTime));
          i := i + 1;
        }
        assert i == Legs(route);
        BuildSnoc(order, route);
        VisitingStep(order, remaining, routes.Values, route);
        order := order + [route];
        remaining := remaining - {route};
      }
      builtFrom := order;
    }

    /** `getGraph`: the adjacency list of the last build, edge for edge as the routes added them. */
    function GetGraph(): (g: Graph)
      reads this
      requires Valid()
      ensures forall s :: Neighbors(g, s) == EdgesAt(builtFrom, s)
      ensures Symmetric(g)
    {
      BuildAdjacency(builtFrom);
      BuildIsSymmetric(builtFrom);
      graph
    }

    /** `initData`: registers the five seed stations and the two seed lines, then builds the graph. */
    method InitData()
      requires Valid()
      modifies this
      ensures Valid()
      ensures stops == old(stops)["S1" := Stop("S1", "Station A")]["S2" := Stop("S2", "Station B")]
                                 ["S3" := Stop("S3", "Station C (Interchange)")]
                                 ["S4" := Stop("S4", "Station D")]["S5" := Stop("S5", "Station E")]
      ensures routes == old(routes)["R1" := RedLine]["R2" := BlueLine]
      ensures Enumerates(builtFrom, routes)
      ensures graph == Build(builtFrom)
    {
      AddStop(Stop("S1", "Station A"));
      AddStop(Stop("S2", "Station B"));
      AddStop(Stop("S3", "Station C (Interchange)"));
      AddStop(Stop("S4", "Station D"));
      AddStop(Stop("S5", "Station E"));
      AddRoute(RedLine);
      AddRoute(BlueLine);
      BuildGraph();
    }
  }
}
