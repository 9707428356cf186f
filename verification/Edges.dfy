/** Directed edges between fabric entities. */
module Edges {
  import opened Common

  datatype Edge = Edge(fromId: FabricId, toId: FabricId, edgeType: string)

  ghost predicate HasEdge(es: seq<Edge>, a: FabricId, b: FabricId) {
    exists e :: e in es && e.fromId == a && e.toId == b
  }
}
