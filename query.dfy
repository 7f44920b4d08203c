/**
 * The `referenced` condition and how its location filter selects one of the
 * query engine's four query modes. The query engine itself is not modelled:
 * its outcome is an input.
 */
module Query {
  import opened Wrappers
  import opened Results

  /** Where a referenced pattern may occur. */
  datatype Locations = All | Method | Field | Class

  /** The condition's `location`, or `All` (the serde default) when the field is absent. */
  function LocationOrDefault(location: Option<Locations>): Locations {
    if location.Some? then location.value else All
  }

  datatype ReferenceCondition = ReferenceCondition(pattern: string, location: Option<Locations>, filePaths: Option<seq<string>>)

  datatype CSharpCondition = CSharpCondition(referenced: ReferenceCondition)

  /** The project's code graph, shared by reference between the project and the queries. */
  class Graph {
    constructor () {
    }
  }

  datatype SourceType = SourceType(name: string)

  datatype QueryType =
    | QueryAll(graph: Graph, sourceType: SourceType)
    | QueryMethod(graph: Graph, sourceType: SourceType)
    | QueryField(graph: Graph, sourceType: SourceType)
    | QueryClass(graph: Graph, sourceType: SourceType)

  /** The query mode a location filter selects, over the given graph and source type. */
  function QueryFor(location: Locations, graph: Graph, sourceType: SourceType): (q: QueryType)
    ensures q.graph == graph && q.sourceType == sourceType
  {
    match location
    case All => QueryAll(graph, sourceType)
    case Method => QueryMethod(graph, sourceType)
    case Field => QueryField(graph, sourceType)
    case Class => QueryClass(graph, sourceType)
  }

  /** Distinct locations select distinct query modes, and a condition without a location queries everything. */
  lemma QueryForDistinguishesLocations(l1: Locations, l2: Locations, graph: Graph, sourceType: SourceType)
    ensures QueryFor(l1, graph, sourceType) == QueryFor(l2, graph, sourceType) <==> l1 == l2
    ensures QueryFor(LocationOrDefault(None), graph, sourceType).QueryAll?
  {
  }

  /** What the query engine returns: "not found", another error, or the matches. */
  datatype QueryOutcome = NotFound | QueryFailed(message: string) | Found(results: seq<ResultNode>)
}
