/** Static validation of a query against a schema: every violation is collected
    (graph-dsl/src/validator.rs). The functions say which violations a query has and in
    which order; the methods below push them into one list, and an empty list accepts. */
module Validation {
  import opened Basics
  import opened GraphModel
  import opened FilterEval
  import opened Plan
  import opened QueryAst
  import opened Acceptance

  datatype ValidationError =
    | UnknownLabel(labelName: string)
    | UnknownEdgeType(edgeType: string)
    | UnknownProperty(owner: string, property: string)
    | IncompatibleOperator(property: string)
    | UnboundAlias(alias: string)
    | EdgeAliasOnVariableLengthHop(alias: string, min: nat, max: nat)
    | NotExistsAnchorNotPreBound(alias: string)
    | NotExistsWrongShape(steps: nat)
    | NestedNotExists
    | NotExistsMustBeOutgoing

  /** Node and edge aliases bound so far; a bound node may lack a label. */
  datatype TypeScope = TypeScope(boundNodes: set<string>, nodeLabels: map<string, string>, edgeTypes: map<string, string>)

  predicate OperatorCompatible(ty: ScalarType, op: ComparisonOp) {
    match op
    case Eq => !ty.ListType? && !ty.VectorType?
    case Ne => !ty.ListType? && !ty.VectorType?
    case _ => ty.Int64Type? || ty.Float64Type? || ty.TimestampType?
  }

  /** `iter().find(|p| p.name == name)` */
  function FindProperty(defs: seq<PropertyDef>, name: string): Option<PropertyDef> {
    if defs == [] then None else if defs[0].name == name then Some(defs[0]) else FindProperty(defs[1..], name)
  }

  function PropertyErrors(
      owner: string, defs: seq<PropertyDef>, property: string, op: ComparisonOp): seq<ValidationError> {
    match FindProperty(defs, property)
    case Some(d) => if OperatorCompatible(d.ty, op) then [] else [IncompatibleOperator(property)]
    case None => [UnknownProperty(owner, property)]
  }

  function NodePropertyErrors(
      labelName: string, property: string, op: ComparisonOp, schema: Schema): seq<ValidationError> {
    if labelName in schema.nodes then PropertyErrors(labelName, schema.nodes[labelName].properties, property, op) else []
  }

  function EdgePropertyErrors(
      edgeType: string, property: string, op: ComparisonOp, schema: Schema): seq<ValidationError> {
    if edgeType in schema.edges then PropertyErrors(edgeType, schema.edges[edgeType].properties, property, op) else []
  }

  function PropertyRefErrors(
      scope: TypeScope, schema: Schema, alias: string, property: string, op: ComparisonOp): seq<ValidationError> {
    if alias in scope.nodeLabels then NodePropertyErrors(scope.nodeLabels[alias], property, op, schema)
    else if alias in scope.edgeTypes then EdgePropertyErrors(scope.edgeTypes[alias], property, op, schema)
    else [UnboundAlias(alias)]
  }

  function InlineErrors(labelName: string, filters: seq<PropertyFilter>, schema: Schema): seq<ValidationError> {
    if filters == [] then []
    else
      var n := |filters| - 1;
      InlineErrors(labelName, filters[..n], schema) + NodePropertyErrors(labelName, filters[n].property, filters[n].op, schema)
  }

  function NodePatternErrors(node: NodePattern, schema: Schema): seq<ValidationError> {
    if node.labelName.None? then []
    else if node.labelName.value in schema.nodes then InlineErrors(node.labelName.value, node.propertyFilters, schema)
    else [UnknownLabel(node.labelName.value)]
  }

  function EdgePatternErrors(edge: EdgePattern, schema: Schema): seq<ValidationError> {
    (if edge.edgeType.Some? && edge.edgeType.value !in schema.edges then [UnknownEdgeType(edge.edgeType.value)] else [])
    + (if edge.alias.Some? && edge.hops != HopRange(1, 1) then [EdgeAliasOnVariableLengthHop(edge.alias.value, edge.hops.min, edge.hops.max)] else [])
  }

  function StepErrors(step: PatternStep, schema: Schema): seq<ValidationError> {
    match step
    case NodeStep(node) => NodePatternErrors(node, schema)
    case EdgeStep(edge) => EdgePatternErrors(edge, schema)
  }

  function BindEdge(scope: TypeScope, edge: EdgePattern): TypeScope {
    if edge.alias.Some? && edge.edgeType.Some?
    then scope.(edgeTypes := scope.edgeTypes[edge.alias.value := edge.edgeType.value])
    else scope
  }

  function BindStep(scope: TypeScope, step: PatternStep): TypeScope {
    match step
    case NodeStep(node) =>
      TypeScope(scope.boundNodes + {node.alias},
                if node.labelName.Some? then scope.nodeLabels[node.alias := node.labelName.value] else scope.nodeLabels,
                scope.edgeTypes)
    case EdgeStep(edge) => BindEdge(scope, edge)
  }

  function PatternScope(pattern: seq<PatternStep>): TypeScope {
    if pattern == [] then TypeScope({}, map[], map[])
    else BindStep(PatternScope(pattern[..|pattern| - 1]), pattern[|pattern| - 1])
  }

  function PatternErrors(pattern: seq<PatternStep>, schema: Schema): seq<ValidationError> {
    if pattern == [] then []
    else PatternErrors(pattern[..|pattern| - 1], schema) + StepErrors(pattern[|pattern| - 1], schema)
  }

  function AnchorErrors(anchor: NodePattern, outer: TypeScope): seq<ValidationError> {
    if anchor.alias !in outer.boundNodes || anchor.labelName.Some? || anchor.propertyFilters != []
    then [NotExistsAnchorNotPreBound(anchor.alias)] else []
  }

  function SubqueryEdgeErrors(edge: EdgePattern): seq<ValidationError> {
    (if edge.hops != HopRange(1, 1)
     then [EdgeAliasOnVariableLengthHop(if edge.alias.Some? then edge.alias.value else "<unaliased>", edge.hops.min, edge.hops.max)] else [])
    + (if edge.direction != Outgoing then [NotExistsMustBeOutgoing] else [])
  }

  function SubqueryShapeErrors(subquery: ExistsSubquery, schema: Schema, outer: TypeScope): seq<ValidationError>
    requires IsOneHop(subquery.pattern)
  {
    var edge := subquery.pattern[1].edge;
    (AnchorErrors(subquery.pattern[0].node, outer) + AnchorErrors(subquery.pattern[2].node, outer))
    + (EdgePatternErrors(edge, schema) + SubqueryEdgeErrors(edge))
  }

  function AliasErrors(alias: string, scope: TypeScope): seq<ValidationError> {
    if alias in scope.boundNodes then [] else [UnboundAlias(alias)]
  }

  /** A condition that is no NOT EXISTS, or one where none is allowed. */
  function SimpleErrors(c: WhereCondition, schema: Schema, scope: TypeScope): seq<ValidationError> {
    match c
    case PropertyCondition(alias, filter) => PropertyRefErrors(scope, schema, alias, filter.property, filter.op)
    case AliasComparison(left, _, right) => AliasErrors(left, scope) + AliasErrors(right, scope)
    case PropertyComparison(left, op, right) =>
      PropertyRefErrors(scope, schema, left.alias, left.property, op) + PropertyRefErrors(scope, schema, right.alias, right.property, Eq)
    case NotExists(_) => [NestedNotExists]
  }

  function NestedErrors(cs: seq<WhereCondition>, schema: Schema, scope: TypeScope): seq<ValidationError> {
    if cs == [] then []
    else
      var n := |cs| - 1;
      NestedErrors(cs[..n], schema, scope) + SimpleErrors(cs[n], schema, scope)
  }

  function NotExistsErrors(subquery: ExistsSubquery, schema: Schema, outer: TypeScope): seq<ValidationError> {
    if !IsOneHop(subquery.pattern) then [NotExistsWrongShape(|subquery.pattern|)]
    else
      SubqueryShapeErrors(subquery, schema, outer)
      + NestedErrors(subquery.whereConditions, schema, BindEdge(outer, subquery.pattern[1].edge))
  }

  function ConditionErrors(
      c: WhereCondition, schema: Schema, scope: TypeScope, allowNotExists: bool): seq<ValidationError> {
    if c.NotExists? && allowNotExists then NotExistsErrors(c.subquery, schema, scope) else SimpleErrors(c, schema, scope)
  }

  function AllConditionErrors(
      cs: seq<WhereCondition>, schema: Schema, scope: TypeScope, allowNotExists: bool): seq<ValidationError> {
    if cs == [] then []
    else
      var n := |cs| - 1;
      AllConditionErrors(cs[..n], schema, scope, allowNotExists) + ConditionErrors(cs[n], schema, scope, allowNotExists)
  }

  lemma {:induction false} NestedIsAll(cs: seq<WhereCondition>, schema: Schema, scope: TypeScope)
    ensures NestedErrors(cs, schema, scope) == AllConditionErrors(cs, schema, scope, false)
  {
    if cs != [] { NestedIsAll(cs[..|cs| - 1], schema, scope); }
  }

  function ReturnItemErrors(item: ReturnItem, schema: Schema, scope: TypeScope): seq<ValidationError> {
    if item.property.Some? then PropertyRefErrors(scope, schema, item.alias, item.property.value, Eq)
    else if item.alias !in scope.boundNodes && item.alias !in scope.edgeTypes then [UnboundAlias(item.alias)]
    else []
  }

  function ReturnErrors(items: seq<ReturnItem>, schema: Schema, scope: TypeScope): seq<ValidationError> {
    if items == [] then []
    else
      var n := |items| - 1;
      ReturnErrors(items[..n], schema, scope) + ReturnItemErrors(items[n], schema, scope)
  }

  function OrderByErrors(orderBy: Option<OrderBy>, schema: Schema, scope: TypeScope): seq<ValidationError> {
    if orderBy.Some? then PropertyRefErrors(scope, schema, orderBy.value.alias, orderBy.value.property, Eq) else []
  }

  /** All violations of the query, in the order they are met. */
  function QueryErrors(q: Query, schema: Schema): seq<ValidationError> {
    var scope := PatternScope(q.pattern);
    PatternErrors(q.pattern, schema)
    + AllConditionErrors(q.whereConditions, schema, scope, true)
    + ReturnErrors(q.projection, schema, scope)
    + OrderByErrors(q.orderBy, schema, scope)
  }

  predicate IsValid(q: Query, schema: Schema) {
    QueryErrors(q, schema) == []
  }

  // ---------------------------------------------------------------- what it accepts

  lemma {:induction false} NoConditionErrors(
      cs: seq<WhereCondition>, schema: Schema, scope: TypeScope, allowNotExists: bool)
    ensures AllConditionErrors(cs, schema, scope, allowNotExists) == [] <==>
              forall c :: c in cs ==> ConditionErrors(c, schema, scope, allowNotExists) == []
  {
    if cs != [] {
      var n := |cs| - 1;
      NoConditionErrors(cs[..n], schema, scope, allowNotExists);
      EmptyConcat(
        AllConditionErrors(cs[..n], schema, scope, allowNotExists),
        ConditionErrors(cs[n], schema, scope, allowNotExists));
      LastSplits(cs);
    }
  }

  lemma {:induction false} NoReturnErrors(items: seq<ReturnItem>, schema: Schema, scope: TypeScope)
    ensures ReturnErrors(items, schema, scope) == [] <==>
              forall r :: r in items ==> ReturnItemErrors(r, schema, scope) == []
  {
    if items != [] {
      var n := |items| - 1;
      NoReturnErrors(items[..n], schema, scope);
      EmptyConcat(ReturnErrors(items[..n], schema, scope), ReturnItemErrors(items[n], schema, scope));
      LastSplits(items);
    }
  }

  lemma {:induction false} NoPatternErrors(pattern: seq<PatternStep>, schema: Schema)
    ensures PatternErrors(pattern, schema) == [] <==> forall step :: step in pattern ==> StepErrors(step, schema) == []
  {
    if pattern != [] {
      var n := |pattern| - 1;
      NoPatternErrors(pattern[..n], schema);
      EmptyConcat(PatternErrors(pattern[..n], schema), StepErrors(pattern[n], schema));
      LastSplits(pattern);
    }
  }

  lemma {:induction false} NoInlineErrors(labelName: string, filters: seq<PropertyFilter>, schema: Schema)
    ensures InlineErrors(labelName, filters, schema) == [] <==>
              forall f :: f in filters ==> NodePropertyErrors(labelName, f.property, f.op, schema) == []
  {
    if filters != [] {
      var n := |filters| - 1;
      NoInlineErrors(labelName, filters[..n], schema);
      EmptyConcat(
        InlineErrors(labelName, filters[..n], schema),
        NodePropertyErrors(labelName, filters[n].property, filters[n].op, schema));
      LastSplits(filters);
    }
  }

  lemma OperatorsFit(ty: ScalarType, op: ComparisonOp)
    ensures OperatorCompatible(ty, op) <==> OperatorFits(ty, op)
  {
  }

  /** The search finds the first declaration under the name. */
  lemma {:induction false} FindsFirst(defs: seq<PropertyDef>, name: string)
    ensures FindProperty(defs, name).None? <==> forall d :: d in defs ==> d.name != name
    ensures FindProperty(defs, name).Some? ==>
      exists i :: 0 <= i < |defs| && defs[i] == FindProperty(defs, name).value && defs[i].name == name
                  && forall j :: 0 <= j < i ==> defs[j].name != name
  {
    if defs != [] && defs[0].name != name {
      FindsFirst(defs[1..], name);
      if FindProperty(defs, name).Some? {
        var i :| 0 <= i < |defs[1..]| && defs[1..][i] == FindProperty(defs, name).value && defs[1..][i].name == name
                 && forall j :: 0 <= j < i ==> defs[1..][j].name != name;
        forall j | 0 <= j < i + 1 ensures defs[j].name != name { if j > 0 { assert defs[j] == defs[1..][j - 1]; } }
        assert defs[i + 1] == FindProperty(defs, name).value;
      } else {
        forall d | d in defs ensures d.name != name { assert d == defs[0] || d in defs[1..]; }
      }
    }
  }

  lemma PropertyIsFit(owner: string, defs: seq<PropertyDef>, property: string, op: ComparisonOp)
    ensures PropertyErrors(owner, defs, property, op) == [] <==> ColumnFits(defs, property, op)
  {
    FindsFirst(defs, property);
    var found := FindProperty(defs, property);
    if found.Some? {
      var i :| 0 <= i < |defs| && defs[i] == found.value && defs[i].name == property
               && forall j :: 0 <= j < i ==> defs[j].name != property;
      OperatorsFit(found.value.ty, op);
      if k :| 0 <= k < |defs| && defs[k].name == property && OperatorFits(defs[k].ty, op)
              && forall j :: 0 <= j < k ==> defs[j].name != property {
        assert k == i;
      }
    } else {
      forall k | 0 <= k < |defs| ensures defs[k].name != property { assert defs[k] in defs; }
    }
  }

  /** What the scope of a pattern knows. */
  ghost predicate ScopeOfPattern(scope: TypeScope, pattern: seq<PatternStep>) {
    && (forall a :: a in scope.boundNodes <==> IsNodeAlias(pattern, a))
    && (forall a, l :: a in scope.nodeLabels && scope.nodeLabels[a] == l <==> HasLabelName(pattern, a, l))
    && (forall a, ty :: a in scope.edgeTypes && scope.edgeTypes[a] == ty <==> HasTypeName(pattern, a, ty))
  }

  lemma AliasSnoc(pattern: seq<PatternStep>, step: PatternStep, a: string)
    ensures IsNodeAlias(pattern + [step], a) <==> IsNodeAlias(pattern, a) || (step.NodeStep? && step.node.alias == a)
  {
    var longer := pattern + [step];
    if i :| 0 <= i < |pattern| && pattern[i].NodeStep? && pattern[i].node.alias == a { assert longer[i] == pattern[i]; }
    if step.NodeStep? && step.node.alias == a { assert longer[|pattern|] == step; }
  }

  lemma LabelSnoc(pattern: seq<PatternStep>, step: PatternStep, a: string, l: string)
    ensures HasLabelName(pattern + [step], a, l) <==>
              if LabelsAlias(step, a) then step.node.labelName.value == l else HasLabelName(pattern, a, l)
  {
    var longer, n := pattern + [step], |pattern|;
    assert longer[n] == step;
    if HasLabelName(longer, a, l) && !LabelsAlias(step, a) {
      var i :| 0 <= i < |longer| && LabelsAlias(longer[i], a) && longer[i].node.labelName.value == l
               && forall j :: i < j < |longer| ==> !LabelsAlias(longer[j], a);
      forall j | i < j < n ensures !LabelsAlias(pattern[j], a) { assert longer[j] == pattern[j]; }
      assert LabelsAlias(pattern[i], a);
    }
    if HasLabelName(pattern, a, l) && !LabelsAlias(step, a) {
      var i :| 0 <= i < n && LabelsAlias(pattern[i], a) && pattern[i].node.labelName.value == l
               && forall j :: i < j < n ==> !LabelsAlias(pattern[j], a);
      forall j | i < j < |longer| ensures !LabelsAlias(longer[j], a) { if j < n { assert longer[j] == pattern[j]; } }
      assert LabelsAlias(longer[i], a);
    }
  }

  lemma TypeSnoc(pattern: seq<PatternStep>, step: PatternStep, a: string, ty: string)
    ensures HasTypeName(pattern + [step], a, ty) <==>
              if TypesAlias(step, a) then step.edge.edgeType.value == ty else HasTypeName(pattern, a, ty)
  {
    var longer, n := pattern + [step], |pattern|;
    assert longer[n] == step;
    if HasTypeName(longer, a, ty) && !TypesAlias(step, a) {
      var i :| 0 <= i < |longer| && TypesAlias(longer[i], a) && longer[i].edge.edgeType.value == ty
               && forall j :: i < j < |longer| ==> !TypesAlias(longer[j], a);
      forall j | i < j < n ensures !TypesAlias(pattern[j], a) { assert longer[j] == pattern[j]; }
      assert TypesAlias(pattern[i], a);
    }
    if HasTypeName(pattern, a, ty) && !TypesAlias(step, a) {
      var i :| 0 <= i < n && TypesAlias(pattern[i], a) && pattern[i].edge.edgeType.value == ty
               && forall j :: i < j < n ==> !TypesAlias(pattern[j], a);
      forall j | i < j < |longer| ensures !TypesAlias(longer[j], a) { if j < n { assert longer[j] == pattern[j]; } }
      assert TypesAlias(longer[i], a);
    }
  }

  lemma ScopeSnoc(scope: TypeScope, pattern: seq<PatternStep>, step: PatternStep)
    requires ScopeOfPattern(scope, pattern)
    ensures ScopeOfPattern(BindStep(scope, step), pattern + [step])
  {
    forall a
      ensures a in BindStep(scope, step).boundNodes <==> IsNodeAlias(pattern + [step], a)
    {
      AliasSnoc(pattern, step, a);
    }
    forall a, l
      ensures a in BindStep(scope, step).nodeLabels && BindStep(scope, step).nodeLabels[a] == l <==>
                HasLabelName(pattern + [step], a, l)
    {
      LabelSnoc(pattern, step, a, l);
    }
    forall a, ty
      ensures a in BindStep(scope, step).edgeTypes && BindStep(scope, step).edgeTypes[a] == ty <==>
                HasTypeName(pattern + [step], a, ty)
    {
      TypeSnoc(pattern, step, a, ty);
    }
  }

  lemma {:induction false} PatternScopeMeans(pattern: seq<PatternStep>)
    ensures ScopeOfPattern(PatternScope(pattern), pattern)
  {
    if pattern != [] {
      var n := |pattern| - 1;
      PatternScopeMeans(pattern[..n]);
      ScopeSnoc(PatternScope(pattern[..n]), pattern[..n], pattern[n]);
      FrontAndLast(pattern);
    }
  }

  /** Every label and edge type the scope resolves is declared. */
  ghost predicate ScopeInSchema(scope: TypeScope, schema: Schema) {
    && (forall a :: a in scope.nodeLabels ==> scope.nodeLabels[a] in schema.nodes)
    && (forall a :: a in scope.edgeTypes ==> scope.edgeTypes[a] in schema.edges)
  }

  lemma RefIsFit(
      scope: TypeScope, schema: Schema, pattern: seq<PatternStep>, alias: string, property: string, op: ComparisonOp)
    requires ScopeOfPattern(scope, pattern) && ScopeInSchema(scope, schema)
    ensures PropertyRefErrors(scope, schema, alias, property, op) == [] <==>
              RefFits(schema, pattern, alias, property, op)
  {
    if alias in scope.nodeLabels {
      var l := scope.nodeLabels[alias];
      assert HasLabelName(pattern, alias, l);
      PropertyIsFit(l, schema.nodes[l].properties, property, op);
    } else if alias in scope.edgeTypes {
      var ty := scope.edgeTypes[alias];
      assert HasTypeName(pattern, alias, ty);
      PropertyIsFit(ty, schema.edges[ty].properties, property, op);
    }
  }

  lemma StepIsFit(step: PatternStep, schema: Schema)
    ensures StepErrors(step, schema) == [] <==> StepFits(schema, step)
  {
    match step
    case NodeStep(node) =>
      if node.labelName.Some? && node.labelName.value in schema.nodes {
        var l := node.labelName.value;
        NoInlineErrors(l, node.propertyFilters, schema);
        forall f | f in node.propertyFilters
          ensures NodePropertyErrors(l, f.property, f.op, schema) == [] <==>
                    ColumnFits(schema.nodes[l].properties, f.property, f.op)
        {
          PropertyIsFit(l, schema.nodes[l].properties, f.property, f.op);
        }
      }
    case EdgeStep(edge) => EdgeIsFit(edge, schema);
  }

  lemma EdgeIsFit(edge: EdgePattern, schema: Schema)
    ensures EdgePatternErrors(edge, schema) == [] <==> EdgeFits(schema, edge)
  {
    assert edge.hops == HopRange(1, 1) <==> edge.hops.min == 1 && edge.hops.max == 1;
  }

  lemma SimpleIsFit(c: WhereCondition, schema: Schema, scope: TypeScope, pattern: seq<PatternStep>)
    requires ScopeOfPattern(scope, pattern) && ScopeInSchema(scope, schema)
    ensures SimpleErrors(c, schema, scope) == [] <==> SimpleFits(schema, pattern, c)
  {
    match c
    case PropertyCondition(alias, filter) => RefIsFit(scope, schema, pattern, alias, filter.property, filter.op);
    case AliasComparison(left, _, right) =>
    case PropertyComparison(left, op, right) =>
      RefIsFit(scope, schema, pattern, left.alias, left.property, op);
      RefIsFit(scope, schema, pattern, right.alias, right.property, Eq);
      EmptyConcat(
        PropertyRefErrors(scope, schema, left.alias, left.property, op),
        PropertyRefErrors(scope, schema, right.alias, right.property, Eq));
    case NotExists(_) =>
  }

  lemma ShapeIsFit(s: ExistsSubquery, schema: Schema, outer: TypeScope, pattern: seq<PatternStep>)
    requires ScopeOfPattern(outer, pattern) && IsOneHop(s.pattern)
    ensures SubqueryShapeErrors(s, schema, outer) == [] <==>
              && IsAnchor(pattern, s.pattern[0].node) && IsAnchor(pattern, s.pattern[2].node)
              && EdgeFits(schema, s.pattern[1].edge)
              && s.pattern[1].edge.hops.min == 1 && s.pattern[1].edge.hops.max == 1
              && s.pattern[1].edge.direction.Outgoing?
  {
    var edge := s.pattern[1].edge;
    EdgeIsFit(edge, schema);
    EmptyConcat(AnchorErrors(s.pattern[0].node, outer), AnchorErrors(s.pattern[2].node, outer));
    EmptyConcat(EdgePatternErrors(edge, schema), SubqueryEdgeErrors(edge));
    EmptyConcat(
      AnchorErrors(s.pattern[0].node, outer) + AnchorErrors(s.pattern[2].node, outer),
      EdgePatternErrors(edge, schema) + SubqueryEdgeErrors(edge));
    assert edge.hops == HopRange(1, 1) <==> edge.hops.min == 1 && edge.hops.max == 1;
  }

  lemma NotExistsIsFit(s: ExistsSubquery, schema: Schema, outer: TypeScope, pattern: seq<PatternStep>)
    requires ScopeOfPattern(outer, pattern) && ScopeInSchema(outer, schema)
    ensures NotExistsErrors(s, schema, outer) == [] <==> NotExistsFits(schema, pattern, s)
  {
    SingleHopIff(s.pattern);
    if IsOneHop(s.pattern) {
      var inner, longer := BindEdge(outer, s.pattern[1].edge), pattern + [s.pattern[1]];
      ShapeIsFit(s, schema, outer, pattern);
      EmptyConcat(SubqueryShapeErrors(s, schema, outer), NestedErrors(s.whereConditions, schema, inner));
      NestedIsAll(s.whereConditions, schema, inner);
      NoConditionErrors(s.whereConditions, schema, inner, false);
      ScopeSnoc(outer, pattern, s.pattern[1]);
      if EdgeFits(schema, s.pattern[1].edge) {
        forall c | c in s.whereConditions
          ensures ConditionErrors(c, schema, inner, false) == [] <==> SimpleFits(schema, longer, c)
        {
          SimpleIsFit(c, schema, inner, longer);
        }
      }
    }
  }

  lemma ReturnIsFit(item: ReturnItem, schema: Schema, scope: TypeScope, pattern: seq<PatternStep>)
    requires ScopeOfPattern(scope, pattern) && ScopeInSchema(scope, schema)
    ensures ReturnItemErrors(item, schema, scope) == [] <==> ReturnFits(schema, pattern, item)
  {
    if item.property.Some? { RefIsFit(scope, schema, pattern, item.alias, item.property.value, Eq); }
    if item.alias in scope.edgeTypes { assert HasTypeName(pattern, item.alias, scope.edgeTypes[item.alias]); }
  }

  lemma FitPatternInSchema(scope: TypeScope, schema: Schema, pattern: seq<PatternStep>)
    requires ScopeOfPattern(scope, pattern) && forall step :: step in pattern ==> StepFits(schema, step)
    ensures ScopeInSchema(scope, schema)
  {
    forall a | a in scope.nodeLabels ensures scope.nodeLabels[a] in schema.nodes {
      assert HasLabelName(pattern, a, scope.nodeLabels[a]);
      var i :| 0 <= i < |pattern| && LabelsAlias(pattern[i], a)
               && pattern[i].node.labelName.value == scope.nodeLabels[a];
      assert StepFits(schema, pattern[i]);
    }
    forall a | a in scope.edgeTypes ensures scope.edgeTypes[a] in schema.edges {
      assert HasTypeName(pattern, a, scope.edgeTypes[a]);
      var i :| 0 <= i < |pattern| && TypesAlias(pattern[i], a) && pattern[i].edge.edgeType.value == scope.edgeTypes[a];
      assert StepFits(schema, pattern[i]);
    }
  }

  lemma ClausesFit(q: Query, schema: Schema)
    requires ScopeInSchema(PatternScope(q.pattern), schema)
    ensures AllConditionErrors(q.whereConditions, schema, PatternScope(q.pattern), true) == [] <==>
              forall c :: c in q.whereConditions ==> ConditionFits(schema, q.pattern, c)
    ensures ReturnErrors(q.projection, schema, PatternScope(q.pattern)) == [] <==>
              forall item :: item in q.projection ==> ReturnFits(schema, q.pattern, item)
    ensures OrderByErrors(q.orderBy, schema, PatternScope(q.pattern)) == [] <==>
              (q.orderBy.Some? ==> RefFits(schema, q.pattern, q.orderBy.value.alias, q.orderBy.value.property, Eq))
  {
    var scope := PatternScope(q.pattern);
    PatternScopeMeans(q.pattern);
    NoConditionErrors(q.whereConditions, schema, scope, true);
    forall c | c in q.whereConditions
      ensures ConditionErrors(c, schema, scope, true) == [] <==> ConditionFits(schema, q.pattern, c)
    {
      if c.NotExists? {
        NotExistsIsFit(c.subquery, schema, scope, q.pattern);
      } else {
        SimpleIsFit(c, schema, scope, q.pattern);
      }
    }
    NoReturnErrors(q.projection, schema, scope);
    forall item | item in q.projection
      ensures ReturnItemErrors(item, schema, scope) == [] <==> ReturnFits(schema, q.pattern, item)
    {
      ReturnIsFit(item, schema, scope, q.pattern);
    }
    if q.orderBy.Some? {
      RefIsFit(scope, schema, q.pattern, q.orderBy.value.alias, q.orderBy.value.property, Eq);
    }
  }

  /** The validator accepts exactly the queries that meet everything a schema asks. */
  lemma AcceptedIff(q: Query, schema: Schema)
    ensures IsValid(q, schema) <==> Acceptable(schema, q)
  {
    NoPatternErrors(q.pattern, schema);
    forall step | step in q.pattern ensures StepErrors(step, schema) == [] <==> StepFits(schema, step) {
      StepIsFit(step, schema);
    }
    if PatternErrors(q.pattern, schema) == [] {
      PatternScopeMeans(q.pattern);
      FitPatternInSchema(PatternScope(q.pattern), schema, q.pattern);
      ClausesFit(q, schema);
    }
    QueryErrorsEmpty(q, schema);
  }

  lemma QueryErrorsEmpty(q: Query, schema: Schema)
    ensures var scope := PatternScope(q.pattern);
            QueryErrors(q, schema) == [] <==>
              && PatternErrors(q.pattern, schema) == []
              && AllConditionErrors(q.whereConditions, schema, scope, true) == []
              && ReturnErrors(q.projection, schema, scope) == [] && OrderByErrors(q.orderBy, schema, scope) == []
  {
  }

  // ---------------------------------------------------------------- the collecting validator

  /** The error list every check pushes into. */
  class ErrorList {
    var found: seq<ValidationError>

    constructor ()
      ensures found == []
    {
      found := [];
    }

    method Push(e: ValidationError)
      modifies this
      ensures found == old(found) + [e]
    {
      found := found + [e];
    }
  }

  method ValidatePropertyRef(
      scope: TypeScope, schema: Schema, alias: string, property: string, op: ComparisonOp, errors: ErrorList)
    modifies errors
    ensures errors.found == old(errors.found) + PropertyRefErrors(scope, schema, alias, property, op)
  {
    if alias in scope.nodeLabels {
      ValidateNodeProperty(scope.nodeLabels[alias], property, op, schema, errors);
    } else if alias in scope.edgeTypes {
      ValidateEdgeProperty(scope.edgeTypes[alias], property, op, schema, errors);
    } else {
      errors.Push(UnboundAlias(alias));
    }
  }

  method ValidateNodeProperty(labelName: string, property: string, op: ComparisonOp, schema: Schema, errors: ErrorList)
    modifies errors
    ensures errors.found == old(errors.found) + NodePropertyErrors(labelName, property, op, schema)
  {
    if labelName !in schema.nodes { return; }
    match FindProperty(schema.nodes[labelName].properties, property)
    case Some(d) =>
      if !OperatorCompatible(d.ty, op) { errors.Push(IncompatibleOperator(property)); }
    case None =>
      errors.Push(UnknownProperty(labelName, property));
  }

  method ValidateEdgeProperty(edgeType: string, property: string, op: ComparisonOp, schema: Schema, errors: ErrorList)
    modifies errors
    ensures errors.found == old(errors.found) + EdgePropertyErrors(edgeType, property, op, schema)
  {
    if edgeType !in schema.edges { return; }
    match FindProperty(schema.edges[edgeType].properties, property)
    case Some(d) =>
      if !OperatorCompatible(d.ty, op) { errors.Push(IncompatibleOperator(property)); }
    case None =>
      errors.Push(UnknownProperty(edgeType, property));
  }

  method ValidateNodePattern(node: NodePattern, schema: Schema, errors: ErrorList)
    modifies errors
    ensures errors.found == old(errors.found) + NodePatternErrors(node, schema)
  {
    if node.labelName.None? { return; }
    var labelName := node.labelName.value;
    if labelName !in schema.nodes {
      errors.Push(UnknownLabel(labelName));
      return;
    }
    ghost var before := errors.found;
    for i := 0 to |node.propertyFilters|
      invariant errors.found == before + InlineErrors(labelName, node.propertyFilters[..i], schema)
    {
      assert node.propertyFilters[..i + 1][..i] == node.propertyFilters[..i];
      ValidateNodeProperty(labelName, node.propertyFilters[i].property, node.propertyFilters[i].op, schema, errors);
    }
    assert node.propertyFilters[..|node.propertyFilters|] == node.propertyFilters;
  }

  method ValidateEdgePattern(edge: EdgePattern, schema: Schema, errors: ErrorList)
    modifies errors
    ensures errors.found == old(errors.found) + EdgePatternErrors(edge, schema)
  {
    if edge.edgeType.Some? {
      if edge.edgeType.value !in schema.edges { errors.Push(UnknownEdgeType(edge.edgeType.value)); }
    }
    if edge.alias.Some? {
      if edge.hops.min != 1 || edge.hops.max != 1 {
        errors.Push(EdgeAliasOnVariableLengthHop(edge.alias.value, edge.hops.min, edge.hops.max));
      }
    }
  }

  method ValidateAlias(alias: string, scope: TypeScope, errors: ErrorList)
    modifies errors
    ensures errors.found == old(errors.found) + AliasErrors(alias, scope)
  {
    if alias !in scope.boundNodes { errors.Push(UnboundAlias(alias)); }
  }

  method ValidateWhereCondition(
      c: WhereCondition, schema: Schema, scope: TypeScope, allowNotExists: bool, errors: ErrorList)
    modifies errors
    ensures errors.found == old(errors.found) + ConditionErrors(c, schema, scope, allowNotExists)
    decreases if allowNotExists then 1 else 0, 1, 0
  {
    match c
    case PropertyCondition(alias, filter) =>
      ValidatePropertyRef(scope, schema, alias, filter.property, filter.op, errors);
    case AliasComparison(left, _, right) =>
      ValidateAlias(left, scope, errors);
      ValidateAlias(right, scope, errors);
    case PropertyComparison(left, op, right) =>
      ValidatePropertyRef(scope, schema, left.alias, left.property, op, errors);
      ValidatePropertyRef(scope, schema, right.alias, right.property, Eq, errors);
    case NotExists(subquery) =>
      if allowNotExists {
        ValidateNotExists(subquery, schema, scope, errors);
      } else {
        errors.Push(NestedNotExists);
      }
  }

  method ValidateAnchor(anchor: NodePattern, outer: TypeScope, errors: ErrorList)
    modifies errors
    ensures errors.found == old(errors.found) + AnchorErrors(anchor, outer)
  {
    var preBound := anchor.alias in outer.boundNodes;
    if !preBound || anchor.labelName.Some? || anchor.propertyFilters != [] {
      errors.Push(NotExistsAnchorNotPreBound(anchor.alias));
    }
  }

  method ValidateAnchors(subquery: ExistsSubquery, outer: TypeScope, errors: ErrorList)
    requires IsOneHop(subquery.pattern)
    modifies errors
    ensures errors.found == old(errors.found) + (AnchorErrors(subquery.pattern[0].node, outer) + AnchorErrors(subquery.pattern[2].node, outer))
  {
    ValidateAnchor(subquery.pattern[0].node, outer, errors);
    ValidateAnchor(subquery.pattern[2].node, outer, errors);
  }

  method ValidateSubqueryEdge(edge: EdgePattern, errors: ErrorList)
    modifies errors
    ensures errors.found == old(errors.found) + SubqueryEdgeErrors(edge)
  {
    if edge.hops.min != 1 || edge.hops.max != 1 {
      errors.Push(
        EdgeAliasOnVariableLengthHop(
          if edge.alias.Some? then edge.alias.value else "<unaliased>", edge.hops.min, edge.hops.max));
    }
    if edge.direction != Outgoing { errors.Push(NotExistsMustBeOutgoing); }
  }

  lemma Concat3<T>(before: seq<T>, a: seq<T>, b: seq<T>)
    ensures before + a + b == before + (a + b)
  {
  }

  lemma Concat4<T>(before: seq<T>, a: seq<T>, b: seq<T>, c: seq<T>)
    ensures before + a + b + c == before + (a + (b + c))
  {
  }

  method ValidateSubqueryShape(subquery: ExistsSubquery, schema: Schema, outer: TypeScope, errors: ErrorList)
    requires IsOneHop(subquery.pattern)
    modifies errors
    ensures errors.found == old(errors.found) + SubqueryShapeErrors(subquery, schema, outer)
  {
    var edge := subquery.pattern[1].edge;
    ValidateAnchors(subquery, outer, errors);
    ValidateEdgePattern(edge, schema, errors);
    ValidateSubqueryEdge(edge, errors);
    Concat4(old(errors.found), AnchorErrors(subquery.pattern[0].node, outer) + AnchorErrors(subquery.pattern[2].node, outer),
            EdgePatternErrors(edge, schema), SubqueryEdgeErrors(edge));
  }

  method ValidateNotExists(subquery: ExistsSubquery, schema: Schema, outer: TypeScope, errors: ErrorList)
    modifies errors
    ensures errors.found == old(errors.found) + NotExistsErrors(subquery, schema, outer)
    decreases 1, 0, 0
  {
    if !IsOneHop(subquery.pattern) {
      errors.Push(NotExistsWrongShape(|subquery.pattern|));
      return;
    }
    ValidateSubqueryShape(subquery, schema, outer, errors);
    ghost var inner := BindEdge(outer, subquery.pattern[1].edge);
    NestedIsAll(subquery.whereConditions, schema, inner);
    Concat3(
      old(errors.found), SubqueryShapeErrors(subquery, schema, outer),
      NestedErrors(subquery.whereConditions, schema, inner));
    ValidateConditions(subquery.whereConditions, schema, BindEdge(outer, subquery.pattern[1].edge), false, errors);
  }

  method ValidateConditions(
      cs: seq<WhereCondition>, schema: Schema, scope: TypeScope, allowNotExists: bool, errors: ErrorList)
    modifies errors
    ensures errors.found == old(errors.found) + AllConditionErrors(cs, schema, scope, allowNotExists)
    decreases if allowNotExists then 1 else 0, 2, 0
  {
    ghost var before := errors.found;
    for i := 0 to |cs|
      invariant errors.found == before + AllConditionErrors(cs[..i], schema, scope, allowNotExists)
    {
      AllErrorsSnoc(cs, i, schema, scope, allowNotExists);
      Concat3(
        before, AllConditionErrors(cs[..i], schema, scope, allowNotExists),
        ConditionErrors(cs[i], schema, scope, allowNotExists));
      ValidateWhereCondition(cs[i], schema, scope, allowNotExists, errors);
    }
    assert cs[..|cs|] == cs;
  }

  lemma AllErrorsSnoc(cs: seq<WhereCondition>, i: nat, schema: Schema, scope: TypeScope, allowNotExists: bool)
    requires i < |cs|
    ensures AllConditionErrors(cs[..i + 1], schema, scope, allowNotExists) ==
            AllConditionErrors(cs[..i], schema, scope, allowNotExists) + ConditionErrors(cs[i], schema, scope, allowNotExists)
  {
    TakeNext(cs, i);
  }

  method ValidateReturnItem(item: ReturnItem, schema: Schema, scope: TypeScope, errors: ErrorList)
    modifies errors
    ensures errors.found == old(errors.found) + ReturnItemErrors(item, schema, scope)
  {
    if item.property.Some? {
      ValidatePropertyRef(scope, schema, item.alias, item.property.value, Eq, errors);
    } else if item.alias !in scope.boundNodes && item.alias !in scope.edgeTypes {
      errors.Push(UnboundAlias(item.alias));
    }
  }

  method ValidateReturns(items: seq<ReturnItem>, schema: Schema, scope: TypeScope, errors: ErrorList)
    modifies errors
    ensures errors.found == old(errors.found) + ReturnErrors(items, schema, scope)
  {
    ghost var before := errors.found;
    for i := 0 to |items|
      invariant errors.found == before + ReturnErrors(items[..i], schema, scope)
    {
      TakeNext(items, i);
      ValidateReturnItem(items[i], schema, scope, errors);
    }
    assert items[..|items|] == items;
  }

  method ValidatePattern(pattern: seq<PatternStep>, schema: Schema, errors: ErrorList) returns (scope: TypeScope)
    modifies errors
    ensures scope == PatternScope(pattern)
    ensures errors.found == old(errors.found) + PatternErrors(pattern, schema)
  {
    scope := TypeScope({}, map[], map[]);
    ghost var before := errors.found;
    for i := 0 to |pattern|
      invariant scope == PatternScope(pattern[..i])
      invariant errors.found == before + PatternErrors(pattern[..i], schema)
    {
      PatternSnoc(pattern, i, schema, before);
      match pattern[i]
      case NodeStep(node) =>
        ValidateNodePattern(node, schema, errors);
        scope := scope.(boundNodes := scope.boundNodes + {node.alias});
        if node.labelName.Some? {
          scope := scope.(nodeLabels := scope.nodeLabels[node.alias := node.labelName.value]);
        }
      case EdgeStep(edge) =>
        ValidateEdgePattern(edge, schema, errors);
        if edge.alias.Some? && edge.edgeType.Some? {
          scope := scope.(edgeTypes := scope.edgeTypes[edge.alias.value := edge.edgeType.value]);
        }
    }
    assert pattern[..|pattern|] == pattern;
  }

  lemma PatternSnoc(pattern: seq<PatternStep>, i: nat, schema: Schema, before: seq<ValidationError>)
    requires i < |pattern|
    ensures PatternScope(pattern[..i + 1]) == BindStep(PatternScope(pattern[..i]), pattern[i])
    ensures before + PatternErrors(pattern[..i + 1], schema) == before + PatternErrors(pattern[..i], schema) + StepErrors(pattern[i], schema)
  {
    TakeNext(pattern, i);
  }

  /** Accepts the query, or returns every violation. */
  method Validate(q: Query, schema: Schema) returns (r: Result<(), seq<ValidationError>>)
    ensures r == if IsValid(q, schema) then Ok(()) else Err(QueryErrors(q, schema))
    ensures r.Ok? <==> Acceptable(schema, q)
  {
    AcceptedIff(q, schema);
    var errors := new ErrorList();
    var scope := ValidatePattern(q.pattern, schema, errors);
    ghost var a := errors.found;
    ValidateConditions(q.whereConditions, schema, scope, true, errors);
    ghost var b := errors.found;
    ValidateReturns(q.projection, schema, scope, errors);
    ghost var c := errors.found;
    if q.orderBy.Some? {
      ValidatePropertyRef(scope, schema, q.orderBy.value.alias, q.orderBy.value.property, Eq, errors);
    }
    assert errors.found == c + OrderByErrors(q.orderBy, schema, scope);
    QueryErrorsParts(q, schema, a, b, c);
    r := if errors.found == [] then Ok(()) else Err(errors.found);
  }

  lemma QueryErrorsParts(
      q: Query, schema: Schema, a: seq<ValidationError>, b: seq<ValidationError>, c: seq<ValidationError>)
    requires var scope := PatternScope(q.pattern);
             && a == PatternErrors(q.pattern, schema)
             && b == a + AllConditionErrors(q.whereConditions, schema, scope, true)
             && c == b + ReturnErrors(q.projection, schema, scope)
    ensures QueryErrors(q, schema) == c + OrderByErrors(q.orderBy, schema, PatternScope(q.pattern))
  {
  }
}
