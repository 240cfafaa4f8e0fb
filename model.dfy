/** The value types shared by the graph repository and the route finder:
    the Lombok records Stop, Edge, Route and PathResult, and the adjacency map. */
module MetroModel {

  datatype Option<+T> = None | Some(value: T)

  /** A station: its id and display name. */
  datatype Stop = Stop(id: string, name: string)

  /** A directed arc to `targetStopId`, ridden on line `lineId`, taking `travelTime` minutes.
      Its source stop is the adjacency-map key it is listed under. */
  datatype Edge = Edge(targetStopId: string, lineId: string, travelTime: int)

  /** A metro line: id, colour and the ordered list of stops it serves. */
  datatype Route = Route(id: string, color: string, stopIds: seq<string>)

  /** The answer of a route query. `path` is `None` where the Java code returns a null list. */
  datatype PathResult = PathResult(path: Option<seq<string>>, totalTime: int, transfers: int, error: Option<string>)

  /** The adjacency list: stop id to its outgoing edges, in insertion order. */
  type Graph = map<string, seq<Edge>>

  /** `graph.getOrDefault(stopId, new ArrayList<>())`. */
  function Neighbors(graph: Graph, stopId: string): (r: seq<Edge>)
    ensures stopId in graph ==> r == graph[stopId]
    ensures stopId !in graph ==> r == []
  {
    if stopId in graph then graph[stopId] else []
  }
}
