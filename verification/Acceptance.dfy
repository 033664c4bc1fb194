/** Which queries a schema admits, read off pattern and clauses alone. */
module Acceptance {
  import opened Basics
  import opened GraphModel
  import opened FilterEval
  import opened Plan
  import opened QueryAst

  // ---------------------------------------------------------------- names

  ghost predicate IsNodeAlias(pattern: seq<PatternStep>, alias: string) {
    exists i :: 0 <= i < |pattern| && pattern[i].NodeStep? && pattern[i].node.alias == alias
  }

  predicate LabelsAlias(step: PatternStep, alias: string) {
    step.NodeStep? && step.node.alias == alias && step.node.labelName.Some?
  }

  predicate TypesAlias(step: PatternStep, alias: string) {
    step.EdgeStep? && step.edge.alias == Some(alias) && step.edge.edgeType.Some?
  }

  /** The last node of that alias with a label has this one. */
  ghost predicate HasLabelName(pattern: seq<PatternStep>, alias: string, labelName: string) {
    exists i :: 0 <= i < |pattern| && LabelsAlias(pattern[i], alias) && pattern[i].node.labelName.value == labelName
                && forall j :: i < j < |pattern| ==> !LabelsAlias(pattern[j], alias)
  }

  /** The last edge of that alias with a type has this one. */
  ghost predicate HasTypeName(pattern: seq<PatternStep>, alias: string, edgeType: string) {
    exists i :: 0 <= i < |pattern| && TypesAlias(pattern[i], alias) && pattern[i].edge.edgeType.value == edgeType
                && forall j :: i < j < |pattern| ==> !TypesAlias(pattern[j], alias)
  }

  // ---------------------------------------------------------------- properties and operators

  /** Equality is for every type but the two composite ones, an order for numbers and time stamps. */
  predicate OperatorFits(ty: ScalarType, op: ComparisonOp) {
    if op == Eq || op == Ne
    then ty in {Int64Type, Float64Type, BoolType, StringType, TimestampType, BytesType}
    else ty in {Int64Type, Float64Type, TimestampType}
  }

  /** The first declaration under the name has a type the operator fits. */
  ghost predicate ColumnFits(defs: seq<PropertyDef>, property: string, op: ComparisonOp) {
    exists i :: 0 <= i < |defs| && defs[i].name == property && OperatorFits(defs[i].ty, op)
                && forall j :: 0 <= j < i ==> defs[j].name != property
  }

  /** A scope is a pattern and, inside NOT EXISTS, the subquery's own edge as a last step. */
  ghost predicate RefFits(
      schema: Schema, pattern: seq<PatternStep>, alias: string, property: string, op: ComparisonOp)
  {
    if exists l :: HasLabelName(pattern, alias, l) then
      exists l ::
        HasLabelName(pattern, alias, l) && l in schema.nodes && ColumnFits(schema.nodes[l].properties, property, op)
    else
      exists ty ::
        HasTypeName(pattern, alias, ty) && ty in schema.edges && ColumnFits(schema.edges[ty].properties, property, op)
  }

  // ---------------------------------------------------------------- the clauses

  ghost predicate NodeFits(schema: Schema, node: NodePattern) {
    node.labelName.Some? ==>
      && node.labelName.value in schema.nodes
      && forall f :: f in node.propertyFilters ==>
           ColumnFits(schema.nodes[node.labelName.value].properties, f.property, f.op)
  }

  /** A named edge is a single hop. */
  ghost predicate EdgeFits(schema: Schema, edge: EdgePattern) {
    && (edge.edgeType.Some? ==> edge.edgeType.value in schema.edges)
    && (edge.alias.Some? ==> edge.hops.min == 1 && edge.hops.max == 1)
  }

  ghost predicate StepFits(schema: Schema, step: PatternStep) {
    if step.NodeStep? then NodeFits(schema, step.node) else EdgeFits(schema, step.edge)
  }

  /** A condition other than NOT EXISTS. */
  ghost predicate SimpleFits(schema: Schema, pattern: seq<PatternStep>, c: WhereCondition) {
    match c
    case PropertyCondition(alias, filter) => RefFits(schema, pattern, alias, filter.property, filter.op)
    case AliasComparison(left, _, right) => IsNodeAlias(pattern, left) && IsNodeAlias(pattern, right)
    case PropertyComparison(left, op, right) =>
      && RefFits(schema, pattern, left.alias, left.property, op)
      && RefFits(schema, pattern, right.alias, right.property, Eq)
    case NotExists(_) => false
  }

  /** A bare node of the outer pattern. */
  ghost predicate IsAnchor(pattern: seq<PatternStep>, node: NodePattern) {
    IsNodeAlias(pattern, node.alias) && node.labelName.None? && node.propertyFilters == []
  }

  /** A node, an edge and a node, and nothing else. */
  ghost predicate IsSingleHop(pattern: seq<PatternStep>) {
    exists a, e, b :: pattern == [NodeStep(a), EdgeStep(e), NodeStep(b)]
  }

  lemma SingleHopIff(pattern: seq<PatternStep>)
    ensures IsOneHop(pattern) <==> IsSingleHop(pattern)
  {
    if IsOneHop(pattern) {
      assert pattern == [NodeStep(pattern[0].node), EdgeStep(pattern[1].edge), NodeStep(pattern[2].node)];
    }
  }

  /** One outgoing single hop between two anchors, with conditions of its own that may also
      name its edge. */
  ghost predicate NotExistsFits(schema: Schema, pattern: seq<PatternStep>, s: ExistsSubquery) {
    && IsSingleHop(s.pattern)
    && IsAnchor(pattern, s.pattern[0].node) && IsAnchor(pattern, s.pattern[2].node)
    && EdgeFits(schema, s.pattern[1].edge)
    && s.pattern[1].edge.hops.min == 1 && s.pattern[1].edge.hops.max == 1
    && s.pattern[1].edge.direction.Outgoing?
    && forall c :: c in s.whereConditions ==> SimpleFits(schema, pattern + [s.pattern[1]], c)
  }

  ghost predicate ConditionFits(schema: Schema, pattern: seq<PatternStep>, c: WhereCondition) {
    if c.NotExists? then NotExistsFits(schema, pattern, c.subquery) else SimpleFits(schema, pattern, c)
  }

  ghost predicate ReturnFits(schema: Schema, pattern: seq<PatternStep>, item: ReturnItem) {
    if item.property.Some? then RefFits(schema, pattern, item.alias, item.property.value, Eq)
    else IsNodeAlias(pattern, item.alias) || exists ty :: HasTypeName(pattern, item.alias, ty)
  }

  /** Everything a schema asks of a query. */
  ghost predicate Acceptable(schema: Schema, q: Query) {
    && (forall step :: step in q.pattern ==> StepFits(schema, step))
    && (forall c :: c in q.whereConditions ==> ConditionFits(schema, q.pattern, c))
    && (forall item :: item in q.projection ==> ReturnFits(schema, q.pattern, item))
    && (q.orderBy.Some? ==> RefFits(schema, q.pattern, q.orderBy.value.alias, q.orderBy.value.property, Eq))
  }
}
