/** The query language's abstract syntax (graph-dsl/src/lib.rs). */
module QueryAst {
  import opened Basics
  import opened GraphModel
  import opened FilterEval
  import opened Plan

  datatype NodePattern = NodePattern(alias: string, labelName: Option<string>, propertyFilters: seq<PropertyFilter>)

  datatype EdgePattern = EdgePattern(alias: Option<string>, edgeType: Option<string>, direction: Direction, hops: HopRange)

  datatype PatternStep = NodeStep(node: NodePattern) | EdgeStep(edge: EdgePattern)

  datatype WhereCondition =
    | PropertyCondition(alias: string, filter: PropertyFilter)
    | AliasComparison(leftAlias: string, aliasOp: ComparisonOp, rightAlias: string)
    | PropertyComparison(left: PropertyRef, op: ComparisonOp, right: PropertyRef)
    | NotExists(subquery: ExistsSubquery)

  datatype ExistsSubquery = ExistsSubquery(pattern: seq<PatternStep>, whereConditions: seq<WhereCondition>)

  datatype SortDirection = Asc | Desc

  datatype OrderBy = OrderBy(alias: string, property: string, direction: SortDirection)

  datatype Query = Query(
    pattern: seq<PatternStep>,
    whereConditions: seq<WhereCondition>,
    projection: seq<ReturnItem>,
    orderBy: Option<OrderBy>,
    limit: Option<nat>)

  /** Nodes at even positions, edges at odd ones. */
  predicate Alternates(pattern: seq<PatternStep>, i: nat)
    requires i < |pattern|
  {
    if i % 2 == 0 then pattern[i].NodeStep? else pattern[i].EdgeStep?
  }

  /** The first `2 * k + 1` steps are a chain of `k` hops. */
  predicate IsChainOf(pattern: seq<PatternStep>, k: nat) {
    2 * k < |pattern| && forall i :: 0 <= i <= 2 * k ==> Alternates(pattern, i)
  }

  /** A chain node, edge, node, ..., node. */
  predicate IsChain(pattern: seq<PatternStep>) {
    |pattern| == 2 * HopCount(pattern) + 1 && IsChainOf(pattern, HopCount(pattern))
  }

  /** `[node, edge, node]` */
  predicate IsOneHop(pattern: seq<PatternStep>) {
    |pattern| == 3 && pattern[0].NodeStep? && pattern[1].EdgeStep? && pattern[2].NodeStep?
  }

  function HopCount(pattern: seq<PatternStep>): nat {
    |pattern| / 2
  }

  function NodeAt(pattern: seq<PatternStep>, k: nat): NodePattern
    requires IsChainOf(pattern, k)
  {
    assert Alternates(pattern, 2 * k);
    pattern[2 * k].node
  }

  /** The edge of hop `k`, counted from 1. */
  function EdgeAt(pattern: seq<PatternStep>, k: nat): EdgePattern
    requires k > 0 && IsChainOf(pattern, k)
  {
    assert Alternates(pattern, 2 * k - 1);
    pattern[2 * k - 1].edge
  }
}
