/** Query plans and the partial matches they thread through (graph-query/src/lib.rs). */
module Plan {
  import opened Basics
  import opened GraphModel
  import opened FilterEval
  import opened PropertyIndexes

  datatype HopRange = HopRange(min: nat, max: nat)

  datatype PropertyRef = PropertyRef(alias: string, property: string)

  /** `(candidate edge property, op, outer alias.property)` */
  datatype OuterCondition = OuterCondition(innerProperty: string, op: ComparisonOp, outer: PropertyRef)

  datatype AntiJoinStep = AntiJoinStep(
    fromAlias: string,
    toAlias: string,
    direction: Direction,
    edgeAlias: Option<string>,
    edgeType: Option<string>,
    literalConditions: seq<PropertyFilter>,
    outerConditions: seq<OuterCondition>)

  datatype PlanStep =
    | ResolveStart(alias: string, labelOrType: string, property: string, key: PropertyKey)
    | ResolveAll(alias: string, labelName: string)
    | ExpandHop(
        fromAlias: string,
        toAlias: string,
        toLabel: Option<string>,
        edgeType: Option<string>,
        direction: Direction,
        hops: HopRange,
        filters: seq<PropertyFilter>,
        edgeAlias: Option<string>)
    | AntiJoin(step: AntiJoinStep)

  datatype ReturnItem = ReturnItem(alias: string, property: Option<string>)

  datatype QueryPlan = QueryPlan(steps: seq<PlanStep>, project: seq<ReturnItem>)

  datatype ExecutionError =
    | UnknownAlias(alias: string)
    | EmptyPlan
    | FirstStepNotResolve
    | ResolveNotFirst
    | WrongStep
    | UnsupportedNotEqual(property: string)
    | FloatKeyPanic
    | Rpc(cause: ExecutionError)

  /** One partial match: node aliases and edge aliases are kept apart. */
  datatype Binding = Binding(nodes: map<string, NodeId>, edges: map<string, EdgeId>)

  function FromNode(alias: string, node: NodeId): Binding {
    Binding(map[alias := node], map[])
  }

  /** The binding after stepping over one edge. */
  function Extend(b: Binding, toAlias: string, node: NodeId, edgeAlias: Option<string>, edge: EdgeId): Binding {
    Binding(b.nodes[toAlias := node], if edgeAlias.Some? then b.edges[edgeAlias.value := edge] else b.edges)
  }

  /** The binding after stepping to a node without naming the edge. */
  function MoveTo(b: Binding, toAlias: string, node: NodeId): Binding {
    Binding(b.nodes[toAlias := node], b.edges)
  }

  datatype RemoteRef = RemoteRef(partition: PartitionId, node: NodeId)

  datatype Frontier = Frontier(here: seq<Binding>, remote: seq<(RemoteRef, Binding)>)
}
