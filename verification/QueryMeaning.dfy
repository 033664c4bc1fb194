/** What a query means on the tables: match the pattern first, apply every WHERE condition
    afterwards. And the proof that the planned steps compute it, hop by hop for the chain of
    the pattern and condition by condition for the trailing anti-joins. */
module QueryMeaning {
  import opened Basics
  import opened GraphModel
  import opened FilterEval
  import opened FilterMeaning
  import opened PropertyIndexes
  import opened Plan
  import opened LocalExecutor
  import opened Wire
  import opened GlobalAnswer
  import opened IndexLaws
  import opened QueryAst
  import opened Planning

  // ---------------------------------------------------------------- matching the pattern

  ghost predicate NodeMatches(t: Tables, parse: TsParser, node: NodePattern, v: NodeId) {
    exists r :: r in t.nodes && r.id == v
                && (node.labelName.None? || r.labelName == node.labelName.value)
                && AllHold(parse, r.properties, node.propertyFilters)
  }

  /** A path of 1 to max edges; a lower bound of zero still takes one edge. */
  ghost predicate EdgeMatches(t: Tables, edge: EdgePattern, from: NodeId, path: seq<EdgeRow>, to: NodeId) {
    && path != [] && edge.hops.min <= |path| <= edge.hops.max
    && IsPath(t, from, path, edge.edgeType, edge.direction)
    && Far(path[|path| - 1], edge.direction) == to
  }

  /** Nodes `vs[0..k]` and paths `ps[0..k-1]` match the first `k` hops. */
  ghost predicate IsMatch(
      t: Tables, parse: TsParser, pattern: seq<PatternStep>, k: nat, vs: seq<NodeId>, ps: seq<seq<EdgeRow>>)
    requires IsChainOf(pattern, k)
  {
    && |vs| == k + 1 && |ps| == k
    && (forall j :: 0 <= j <= k ==> NodeMatches(t, parse, NodeAt(pattern, j), vs[j]))
    && forall j :: 1 <= j <= k ==> EdgeMatches(t, EdgeAt(pattern, j), vs[j - 1], ps[j - 1], vs[j])
  }

  ghost function NodeAliases(pattern: seq<PatternStep>, k: nat): set<string>
    requires IsChainOf(pattern, k)
  {
    set j | 0 <= j <= k :: NodeAt(pattern, j).alias
  }

  ghost function EdgeAliases(pattern: seq<PatternStep>, k: nat): set<string>
    requires IsChainOf(pattern, k)
  {
    set j | 1 <= j <= k && EdgeAt(pattern, j).alias.Some? :: EdgeAt(pattern, j).alias.value
  }

  /** The row of a match: each alias is bound to its node, or to the edge it names. */
  ghost predicate Binds(pattern: seq<PatternStep>, k: nat, vs: seq<NodeId>, ps: seq<seq<EdgeRow>>, b: Binding)
    requires IsChainOf(pattern, k)
  {
    && |vs| == k + 1 && |ps| == k
    && b.nodes.Keys == NodeAliases(pattern, k) && b.edges.Keys == EdgeAliases(pattern, k)
    && (forall j :: 0 <= j <= k ==> b.nodes[NodeAt(pattern, j).alias] == vs[j])
    && forall j :: 1 <= j <= k && EdgeAt(pattern, j).alias.Some? ==>
         ps[j - 1] != [] && b.edges[EdgeAt(pattern, j).alias.value] == ps[j - 1][0].id
  }

  // ---------------------------------------------------------------- WHERE

  /** `props` is the record bound to `alias`; a node goes before an edge. */
  ghost predicate IsRecordOf(t: Tables, b: Binding, alias: string, props: Properties) {
    if alias in b.nodes then exists r :: r in t.nodes && r.id == b.nodes[alias] && r.properties == props
    else alias in b.edges && exists e :: e in t.edges && e.id == b.edges[alias] && e.properties == props
  }

  ghost predicate HasValue(t: Tables, b: Binding, ref: PropertyRef, value: PropertyValue) {
    exists props :: IsRecordOf(t, b, ref.alias, props) && ref.property in props && props[ref.property] == value
  }

  /** Symmetric comparison of two stored values; text is read as a time stamp beside one. */
  function CompareValues(parse: TsParser, a: PropertyValue, b: PropertyValue): Option<Ordering> {
    match (a, b)
    case (Int64(x), Int64(y)) => Some(CompareInt(x, y))
    case (Float64(x), Float64(y)) => PartialCompare(x, y)
    case (Bool(x), Bool(y)) => Some(CompareBool(x, y))
    case (Str(x), Str(y)) => Some(CompareStr(x, y))
    case (Timestamp(x), Timestamp(y)) => Some(CompareInt(x, y))
    case (Timestamp(x), Str(y)) => if parse(y).Some? then Some(CompareInt(x, parse(y).value)) else None
    case (Str(x), Timestamp(y)) => if parse(x).Some? then Some(CompareInt(parse(x).value, y)) else None
    case _ => None
  }

  predicate ValuesSatisfy(parse: TsParser, a: PropertyValue, op: ComparisonOp, b: PropertyValue) {
    CompareValues(parse, a, b).Some? && OpHolds(op, CompareValues(parse, a, b).value)
  }

  ghost predicate PropertyHolds(t: Tables, parse: TsParser, b: Binding, alias: string, filter: PropertyFilter) {
    exists props :: IsRecordOf(t, b, alias, props) && EvaluateFilter(parse, props, filter)
  }

  /** A stored value beside another: values of one variant as they stand to each other, a
      time stamp beside the instant a text names, nothing else and no NaN. */
  ghost predicate StandTo(parse: TsParser, a: PropertyValue, op: ComparisonOp, b: PropertyValue) {
    || (a.Int64? && b.Int64? && IntStands(op, a.i, b.i))
    || (a.Float64? && b.Float64? && a.f.Num? && b.f.Num? && IntStands(op, a.f.rank, b.f.rank))
    || (a.Bool? && b.Bool? && BoolStands(op, a.b, b.b))
    || (a.Str? && b.Str? && TextStands(op, a.s, b.s))
    || (a.Timestamp? && b.Timestamp? && IntStands(op, a.micros, b.micros))
    || (a.Timestamp? && b.Str? && parse(b.s).Some? && IntStands(op, a.micros, parse(b.s).value))
    || (a.Str? && b.Timestamp? && parse(a.s).Some? && IntStands(op, parse(a.s).value, b.micros))
  }

  lemma ValuesSatisfyIff(parse: TsParser, a: PropertyValue, op: ComparisonOp, b: PropertyValue)
    ensures ValuesSatisfy(parse, a, op, b) <==> StandTo(parse, a, op, b)
  {
    if a.Str? && b.Str? { TextDecides(op, a.s, b.s); }
  }

  /** A property condition holds of a row whose stored value satisfies it. */
  lemma PropertyHoldsIff(t: Tables, parse: TsParser, b: Binding, alias: string, filter: PropertyFilter)
    ensures PropertyHolds(t, parse, b, alias, filter) <==>
              exists value ::
                HasValue(t, b, PropertyRef(alias, filter.property), value)
                && Satisfies(parse, value, filter.op, filter.value)
  {
    var ref := PropertyRef(alias, filter.property);
    if props :| IsRecordOf(t, b, alias, props) && EvaluateFilter(parse, props, filter) {
      FilterIff(parse, props, filter);
      assert HasValue(t, b, ref, props[filter.property]);
    }
    if value :| HasValue(t, b, ref, value) && Satisfies(parse, value, filter.op, filter.value) {
      var props :| IsRecordOf(t, b, alias, props) && filter.property in props && props[filter.property] == value;
      FilterIff(parse, props, filter);
    }
  }

  /** Inside NOT EXISTS the subquery's own edge alias names the candidate edge. */
  ghost predicate ValueInside(
      t: Tables, b: Binding, inner: Option<string>, e: EdgeRow, ref: PropertyRef, value: PropertyValue)
  {
    if inner == Some(ref.alias) then ref.property in e.properties && e.properties[ref.property] == value
    else HasValue(t, b, ref, value)
  }

  ghost predicate ComparesInside(
      t: Tables, parse: TsParser, b: Binding, inner: Option<string>, e: EdgeRow, left: PropertyRef, op: ComparisonOp,
      right: PropertyRef)
  {
    exists x, y ::
      ValueInside(t, b, inner, e, left, x) && ValueInside(t, b, inner, e, right, y) && ValuesSatisfy(parse, x, op, y)
  }

  ghost predicate HoldsInside(
      t: Tables, parse: TsParser, b: Binding, inner: Option<string>, e: EdgeRow, c: WhereCondition)
  {
    match c
    case PropertyCondition(alias, filter) =>
      if inner == Some(alias) then EvaluateFilter(parse, e.properties, filter) else PropertyHolds(t, parse, b, alias, filter)
    case PropertyComparison(left, op, right) => ComparesInside(t, parse, b, inner, e, left, op, right)
    case AliasComparison(l, op, r) => SameNodeTest(b, l, op, r)
    case NotExists(_) => false
  }

  ghost predicate SameNodeTest(b: Binding, l: string, op: ComparisonOp, r: string) {
    l in b.nodes && r in b.nodes && OpHolds(op, CompareInt(b.nodes[l].raw, b.nodes[r].raw))
  }

  ghost predicate EdgeSatisfies(t: Tables, parse: TsParser, b: Binding, s: ExistsSubquery, e: EdgeRow)
    requires IsOneHop(s.pattern)
  {
    var edge := s.pattern[1].edge;
    && e in t.edges
    && s.pattern[0].node.alias in b.nodes && Near(e, edge.direction) == b.nodes[s.pattern[0].node.alias]
    && s.pattern[2].node.alias in b.nodes && Far(e, edge.direction) == b.nodes[s.pattern[2].node.alias]
    && TypeMatches(e.edgeType, edge.edgeType)
    && forall c :: c in s.whereConditions ==> HoldsInside(t, parse, b, edge.alias, e, c)
  }

  /** The other side of a comparison with the candidate edge has a value a literal can hold. */
  ghost predicate OuterReadable(t: Tables, b: Binding, inner: Option<string>, c: WhereCondition) {
    OuterOf(c, inner).Some? ==>
      exists value :: HasValue(t, b, OuterOf(c, inner).value.outer, value) && IsWritable(value)
  }

  /** No edge of the table satisfies the subquery; rows whose outer values cannot be read are no answers. */
  ghost predicate NoSuchEdge(t: Tables, parse: TsParser, b: Binding, s: ExistsSubquery)
    requires IsOneHop(s.pattern)
  {
    && s.pattern[0].node.alias in b.nodes && s.pattern[2].node.alias in b.nodes
    && (forall c :: c in s.whereConditions ==> OuterReadable(t, b, s.pattern[1].edge.alias, c))
    && !exists e :: EdgeSatisfies(t, parse, b, s, e)
  }

  ghost predicate Holds(t: Tables, parse: TsParser, b: Binding, c: WhereCondition) {
    match c
    case PropertyCondition(alias, filter) => PropertyHolds(t, parse, b, alias, filter)
    case AliasComparison(l, op, r) => SameNodeTest(b, l, op, r)
    case PropertyComparison(left, op, right) =>
      exists x, y :: HasValue(t, b, left, x) && HasValue(t, b, right, y) && ValuesSatisfy(parse, x, op, y)
    case NotExists(s) => IsOneHop(s.pattern) && NoSuchEdge(t, parse, b, s)
  }

  /** The meaning of a query: the rows of matches that satisfy every WHERE condition. */
  ghost predicate Means(t: Tables, parse: TsParser, q: Query, b: Binding)
    requires IsChain(q.pattern)
  {
    var n := HopCount(q.pattern);
    && (exists vs, ps :: IsMatch(t, parse, q.pattern, n, vs, ps) && Binds(q.pattern, n, vs, ps, b))
    && forall c :: c in q.whereConditions ==> Holds(t, parse, b, c)
  }

  // ---------------------------------------------------------------- the supported fragment

  ghost predicate DistinctAliases(pattern: seq<PatternStep>)
    requires IsChain(pattern)
  {
    var n := HopCount(pattern);
    && (forall i, j :: 0 <= i < j <= n ==> NodeAt(pattern, i).alias != NodeAt(pattern, j).alias)
    && (forall i, j :: 1 <= i < j <= n && EdgeAt(pattern, i).alias.Some? ==> EdgeAt(pattern, i).alias != EdgeAt(pattern, j).alias)
    && NodeAliases(pattern, n) !! EdgeAliases(pattern, n)
  }

  /** A literal condition on the inner alias, or a comparison naming it on one side only. */
  predicate NamesInnerOnce(c: WhereCondition, inner: Option<string>) {
    match c
    case PropertyCondition(alias, _) => IsInner(alias, inner)
    case PropertyComparison(left, _, right) => IsInner(left.alias, inner) != IsInner(right.alias, inner)
    case _ => false
  }

  ghost predicate SupportedSubquery(s: ExistsSubquery) {
    && IsOneHop(s.pattern)
    && s.pattern[1].edge.direction == Outgoing
    && forall c :: c in s.whereConditions ==> NamesInnerOnce(c, s.pattern[1].edge.alias)
  }

  ghost predicate SupportedCondition(q: Query, c: WhereCondition)
    requires IsChain(q.pattern)
  {
    match c
    case PropertyCondition(alias, _) =>
      exists k ::
        0 <= k <= HopCount(q.pattern) && NodeAt(q.pattern, k).alias == alias && NodeAt(q.pattern, k).labelName.Some?
    case NotExists(s) => SupportedSubquery(s)
    case _ => false
  }

  ghost predicate AtMostOneStartFilter(q: Query)
    requires IsChain(q.pattern)
  {
    var first := NodeAt(q.pattern, 0);
    |first.propertyFilters| + |FiltersOn(q.whereConditions, first.alias)| <= 1
  }

  ghost predicate Supported(q: Query) {
    && Plannable(q)
    && DistinctAliases(q.pattern)
    && AtMostOneStartFilter(q)
    && (forall k :: 1 <= k <= HopCount(q.pattern) ==> NodeAt(q.pattern, k).propertyFilters == [])
    && forall c :: c in q.whereConditions ==> SupportedCondition(q, c)
  }

  /** Every edge a hop may take leads to a node of the target's label. */
  ghost predicate LabelsImplied(t: Tables, pattern: seq<PatternStep>)
    requires IsChain(pattern)
  {
    forall k, e, r ::
      (1 <= k <= HopCount(pattern) && NodeAt(pattern, k).labelName.Some? && e in t.edges && r in t.nodes
       && TypeMatches(e.edgeType, EdgeAt(pattern, k).edgeType) && r.id == Far(e, EdgeAt(pattern, k).direction))
      ==> r.labelName == NodeAt(pattern, k).labelName.value
  }

  /** The looked-up property is indexed, and its column holds no time stamps. */
  ghost predicate LookupUsable(t: Tables, start: PlanStep) {
    start.ResolveStart? ==>
      && IsIndexed(t.schema, start.labelOrType, start.property)
      && forall r :: r in t.nodes && r.labelName == start.labelOrType && start.property in r.properties ==>
           !r.properties[start.property].Timestamp?
  }

  ghost predicate SupportedOn(t: Tables, q: Query) {
    Supported(q) && CleanTables(t)
  }

  /** The index holds the node: its property is indexed and no time stamp. */
  ghost predicate LookupFinds(t: Tables, start: PlanStep, v: NodeId) {
    start.ResolveStart? ==>
      && IsIndexed(t.schema, start.labelOrType, start.property)
      && forall r ::
           r in t.nodes && r.id == v && start.property in r.properties ==> !r.properties[start.property].Timestamp?
  }

  /** The row's start node is one the index holds. */
  ghost predicate StartFound(t: Tables, q: Query, x: Binding)
    requires IsChainOf(q.pattern, 0) && FirstStep(q).Ok?
  {
    NodeAt(q.pattern, 0).alias in x.nodes && LookupFinds(t, FirstStep(q).value, x.nodes[NodeAt(q.pattern, 0).alias])
  }

  ghost predicate HasLabel(t: Tables, v: NodeId, labelName: Option<string>) {
    labelName.None? || exists r :: r in t.nodes && r.id == v && r.labelName == labelName.value
  }

  /** The row's targets carry the labels the first `n` hops ask for. */
  ghost predicate TargetsLabelled(t: Tables, pattern: seq<PatternStep>, n: nat, x: Binding)
    requires IsChainOf(pattern, n)
  {
    forall j :: 1 <= j <= n ==> NodeAt(pattern, j).alias in x.nodes && HasLabel(t, x.nodes[NodeAt(pattern, j).alias], NodeAt(pattern, j).labelName)
  }

  // ---------------------------------------------------------------- the start step

  /** An index lookup finds exactly the rows the filter accepts, provided the property
      is indexed and does not hold a time stamp. */
  lemma LookupIsFilter(schema: Schema, parse: TsParser, r: NodeRow, filter: PropertyFilter)
    requires filter.op == Eq && LiteralToPropertyKey(filter.value).Some?
    ensures Carries(schema, r, r.labelName, filter.property, LiteralToPropertyKey(filter.value).value) <==>
              && EvaluateFilter(parse, r.properties, filter)
              && IsIndexed(schema, r.labelName, filter.property)
              && !r.properties[filter.property].Timestamp?
  {
    var key := LiteralToPropertyKey(filter.value).value;
    if IsIndexed(schema, r.labelName, filter.property) {
      CarriesOwnKey(schema, r, filter.property, key);
      if filter.property in r.properties && r.properties[filter.property].Str? && filter.value.StrLit? {
        CompareStrEqual(r.properties[filter.property].s, filter.value.s);
      }
    }
  }

  ghost predicate Passes(t: Tables, parse: TsParser, v: NodeId, filters: seq<PropertyFilter>) {
    exists r :: r in t.nodes && r.id == v && AllHold(parse, r.properties, filters)
  }

  lemma StartIsFirstNode(t: Tables, parse: TsParser, node: NodePattern, wheres: seq<PropertyFilter>, v: NodeId)
    requires UniqueIds(t) && |node.propertyFilters| + |wheres| <= 1 && StartStep(node, wheres).Ok?
    ensures StartRow(t, StartStep(node, wheres).value, FromNode(node.alias, v)) <==>
              NodeMatches(t, parse, node, v) && Passes(t, parse, v, wheres)
              && LookupFinds(t, StartStep(node, wheres).value, v)
  {
    var step := StartStep(node, wheres).value;
    forall r | r in t.nodes && r.id == v
      ensures StartRow(t, step, FromNode(node.alias, v)) <==>
                && r.labelName == node.labelName.value && AllHold(parse, r.properties, node.propertyFilters)
                   && AllHold(parse, r.properties, wheres)
                && LookupFinds(t, step, v)
    {
      StartAtRow(t, parse, node, wheres, r);
    }
    if StartRow(t, step, FromNode(node.alias, v)) {
      RowOfStart(t, step, node.alias, v);
    }
    forall r, s | r in t.nodes && s in t.nodes && r.id == s.id ensures r == s { OnlyRow(t.nodes, r, s); }
  }

  lemma FromNodeInjective(alias: string, u: NodeId, v: NodeId)
    requires FromNode(alias, u) == FromNode(alias, v)
    ensures u == v
  {
    assert FromNode(alias, u).nodes[alias] == u;
  }

  lemma RowOfStart(t: Tables, step: PlanStep, alias: string, v: NodeId)
    requires step.ResolveAll? || step.ResolveStart?
    requires step.alias == alias && StartRow(t, step, FromNode(alias, v))
    ensures v in NodeIds(t)
  {
    var r :| r in t.nodes && FromNode(alias, v) == FromNode(alias, r.id);
    FromNodeInjective(alias, v, r.id);
  }

  lemma StartAtRow(t: Tables, parse: TsParser, node: NodePattern, wheres: seq<PropertyFilter>, r: NodeRow)
    requires UniqueIds(t) && |node.propertyFilters| + |wheres| <= 1 && r in t.nodes && StartStep(node, wheres).Ok?
    ensures StartRow(t, StartStep(node, wheres).value, FromNode(node.alias, r.id)) <==>
              && r.labelName == node.labelName.value && AllHold(parse, r.properties, node.propertyFilters)
                 && AllHold(parse, r.properties, wheres)
              && LookupFinds(t, StartStep(node, wheres).value, r.id)
  {
    var step := StartStep(node, wheres).value;
    forall s | s in t.nodes && s.id == r.id ensures s == r { OnlyRow(t.nodes, r, s); }
    forall s | s in t.nodes && FromNode(node.alias, r.id) == FromNode(node.alias, s.id) ensures s == r {
      FromNodeInjective(node.alias, r.id, s.id);
      OnlyRow(t.nodes, r, s);
    }
    if step.ResolveStart? {
      var filter := StartFilter(node, wheres).value.value;
      LookupIsFilter(t.schema, parse, r, filter);
      assert node.propertyFilters + wheres == [filter];
      assert node.propertyFilters == [filter] || wheres == [filter];
    }
  }

  // ---------------------------------------------------------------- the hops

  /** What the plan checks, hop by hop: the routed filters everywhere, and label, inline
      filter and index at the start only. */
  ghost predicate Fits(t: Tables, parse: TsParser, q: Query, k: nat, vs: seq<NodeId>, ps: seq<seq<EdgeRow>>)
    requires IsChainOf(q.pattern, k)
  {
    && |vs| == k + 1 && |ps| == k
    && FitsNode(t, parse, q, k, vs[k])
    && (k > 0 ==> EdgeMatches(t, EdgeAt(q.pattern, k), vs[k - 1], ps[k - 1], vs[k]) && Fits(t, parse, q, k - 1, vs[..k], ps[..k - 1]))
  }

  ghost predicate FitsNode(t: Tables, parse: TsParser, q: Query, k: nat, v: NodeId)
    requires IsChainOf(q.pattern, k)
  {
    && v in NodeIds(t)
    && Passes(t, parse, v, FiltersOn(q.whereConditions, NodeAt(q.pattern, k).alias))
    && (k == 0 && FirstStep(q).Ok? ==> NodeMatches(t, parse, NodeAt(q.pattern, 0), v) && LookupFinds(t, FirstStep(q).value, v))
  }

  /** The row a match builds up, one hop at a time. */
  ghost function RowOf(pattern: seq<PatternStep>, k: nat, vs: seq<NodeId>, ps: seq<seq<EdgeRow>>): Binding
    requires IsChainOf(pattern, k) && |vs| == k + 1 && |ps| == k
  {
    if k == 0 then FromNode(NodeAt(pattern, 0).alias, vs[0])
    else if ps[k - 1] == [] then MoveTo(RowOf(pattern, k - 1, vs[..k], ps[..k - 1]), NodeAt(pattern, k).alias, vs[k])
    else Extend(RowOf(pattern, k - 1, vs[..k], ps[..k - 1]), NodeAt(pattern, k).alias, vs[k], EdgeAt(pattern, k).alias, ps[k - 1][0].id)
  }

  ghost predicate BuildsRow(
      t: Tables, parse: TsParser, q: Query, k: nat, vs: seq<NodeId>, ps: seq<seq<EdgeRow>>, x: Binding)
    requires IsChainOf(q.pattern, k)
  {
    Fits(t, parse, q, k, vs, ps) && x == RowOf(q.pattern, k, vs, ps)
  }

  ghost predicate HasRow(t: Tables, parse: TsParser, q: Query, k: nat, x: Binding)
    requires IsChainOf(q.pattern, k)
  {
    exists vs, ps :: BuildsRow(t, parse, q, k, vs, ps, x)
  }

  lemma ChainPrefix(pattern: seq<PatternStep>, k: nat)
    requires IsChain(pattern) && k <= HopCount(pattern)
    ensures IsChainOf(pattern, k)
    ensures forall j :: 0 <= j <= k ==> IsChainOf(pattern, j)
  {
  }

  lemma LastStep(t: Tables, edge: EdgePattern, from: NodeId, path: seq<EdgeRow>, to: NodeId)
    requires EdgeMatches(t, edge, from, path, to)
    ensures path[|path| - 1] in t.edges && TypeMatches(path[|path| - 1].edgeType, edge.edgeType)
  {
    assert IsPathStep(t, from, path, |path| - 1, edge.edgeType, edge.direction);
  }

  /** A row of the planned hop, in the words of the pattern. */
  lemma PathRowParts(t: Tables, parse: TsParser, q: Query, k: nat, b: Binding, path: seq<EdgeRow>, v: NodeId)
    requires k > 0 && IsChainOf(q.pattern, k) && IsChainOf(q.pattern, k - 1) && path != []
    requires Far(path[|path| - 1], EdgeAt(q.pattern, k).direction) == v
    ensures var x := Extend(b, NodeAt(q.pattern, k).alias, v, EdgeAt(q.pattern, k).alias, path[0].id);
            PathRow(t, parse, HopAt(q, k), b, path, x) <==>
              && NodeAt(q.pattern, k - 1).alias in b.nodes
              && EdgeMatches(t, EdgeAt(q.pattern, k), b.nodes[NodeAt(q.pattern, k - 1).alias], path, v)
              && TargetPasses(t, parse, v, HopAt(q, k).filters)
  {
  }

  lemma CursorBound(pattern: seq<PatternStep>, k: nat, vs: seq<NodeId>, ps: seq<seq<EdgeRow>>)
    requires IsChainOf(pattern, k) && |vs| == k + 1 && |ps| == k
    ensures NodeAt(pattern, k).alias in RowOf(pattern, k, vs, ps).nodes
            && RowOf(pattern, k, vs, ps).nodes[NodeAt(pattern, k).alias] == vs[k]
  {
  }

  /** At the target of hop `k` the pushed-down filters are all that is checked. */
  ghost predicate HopReaches(t: Tables, parse: TsParser, q: Query, k: nat, v: NodeId)
    requires k > 0 && IsChainOf(q.pattern, k) && IsChainOf(q.pattern, k - 1)
  {
    TargetPasses(t, parse, v, HopAt(q, k).filters) <==> FitsNode(t, parse, q, k, v)
  }

  lemma StepForward(
      t: Tables, parse: TsParser, q: Query, k: nat, vs: seq<NodeId>, ps: seq<seq<EdgeRow>>, path: seq<EdgeRow>,
      v: NodeId)
    requires k > 0 && IsChainOf(q.pattern, k) && IsChainOf(q.pattern, k - 1)
    requires Fits(t, parse, q, k - 1, vs, ps)
    requires EdgeMatches(t, EdgeAt(q.pattern, k), vs[k - 1], path, v) && FitsNode(t, parse, q, k, v)
    ensures Fits(t, parse, q, k, vs + [v], ps + [path])
    ensures RowOf(q.pattern, k, vs + [v], ps + [path]) ==
            Extend(RowOf(q.pattern, k - 1, vs, ps), NodeAt(q.pattern, k).alias, v, EdgeAt(q.pattern, k).alias, path[0].id)
  {
    assert (vs + [v])[..k] == vs && (ps + [path])[..k - 1] == ps;
  }

  /** Hop `k` of the plan steps from the rows of `k - 1` hops to those of `k`. */
  lemma HopForward(t: Tables, parse: TsParser, q: Query, k: nat, b: Binding, path: seq<EdgeRow>, x: Binding)
    requires k > 0 && IsChainOf(q.pattern, k) && IsChainOf(q.pattern, k - 1)
    requires HasRow(t, parse, q, k - 1, b) && PathRow(t, parse, HopAt(q, k), b, path, x)
    requires HopReaches(t, parse, q, k, x.nodes[NodeAt(q.pattern, k).alias])
    ensures HasRow(t, parse, q, k, x)
  {
    var vs, ps :| BuildsRow(t, parse, q, k - 1, vs, ps, b);
    CursorBound(q.pattern, k - 1, vs, ps);
    var v := x.nodes[NodeAt(q.pattern, k).alias];
    PathRowParts(t, parse, q, k, b, path, v);
    StepForward(t, parse, q, k, vs, ps, path, v);
    assert BuildsRow(t, parse, q, k, vs + [v], ps + [path], x);
  }

  lemma HopBack(t: Tables, parse: TsParser, q: Query, k: nat, vs: seq<NodeId>, ps: seq<seq<EdgeRow>>)
    returns (b: Binding)
    requires k > 0 && IsChainOf(q.pattern, k) && IsChainOf(q.pattern, k - 1)
    requires Fits(t, parse, q, k, vs, ps) && HopReaches(t, parse, q, k, vs[k])
    ensures HasRow(t, parse, q, k - 1, b) && PathRow(t, parse, HopAt(q, k), b, ps[k - 1], RowOf(q.pattern, k, vs, ps))
  {
    b := RowOf(q.pattern, k - 1, vs[..k], ps[..k - 1]);
    CursorBound(q.pattern, k - 1, vs[..k], ps[..k - 1]);
    assert vs[..k][k - 1] == vs[k - 1];
    PathRowParts(t, parse, q, k, b, ps[k - 1], vs[k]);
    assert BuildsRow(t, parse, q, k - 1, vs[..k], ps[..k - 1], b);
  }

  /** The end of an edge is a node, and the pushed-down filters are all the filters there are. */
  lemma TargetMatches(t: Tables, parse: TsParser, q: Query, k: nat, e: EdgeRow, v: NodeId)
    requires SupportedOn(t, q) && 1 <= k <= HopCount(q.pattern) && IsChainOf(q.pattern, k)
             && IsChainOf(q.pattern, k - 1)
    requires e in t.edges && Far(e, EdgeAt(q.pattern, k).direction) == v
    ensures HopReaches(t, parse, q, k, v)
  {
    var to := NodeAt(q.pattern, k);
    assert v in NodeIds(t);
    var r :| r in t.nodes && r.id == v;
    var filters := FiltersOn(q.whereConditions, to.alias);
    FiltersNeedALabel(q, k);
    if filters == [] { assert AllHold(parse, r.properties, filters); }
  }

  lemma FiltersNeedALabel(q: Query, k: nat)
    requires Supported(q) && k <= HopCount(q.pattern) && IsChainOf(q.pattern, k)
    ensures FiltersOn(q.whereConditions, NodeAt(q.pattern, k).alias) != [] ==> NodeAt(q.pattern, k).labelName.Some?
  {
    var alias := NodeAt(q.pattern, k).alias;
    var filters := FiltersOn(q.whereConditions, alias);
    FiltersOnMembers(q.whereConditions, alias);
    if filters != [] {
      var c := PropertyCondition(alias, filters[0]);
      assert filters[0] in filters && c in q.whereConditions;
      assert SupportedCondition(q, c);
      var j :| 0 <= j <= HopCount(q.pattern) && NodeAt(q.pattern, j).alias == alias
               && NodeAt(q.pattern, j).labelName.Some?;
      assert j == k;
    }
  }

  ghost predicate StepYields(t: Tables, parse: TsParser, step: PlanStep, before: Binding -> bool, x: Binding) {
    step.ExpandHop? && exists b, path :: before(b) && PathRow(t, parse, step, b, path, x)
  }

  ghost predicate CarriedOn(
      t: Tables, parse: TsParser, step: PlanStep, before: Binding -> bool, after: Binding -> bool)
  {
    step.ExpandHop? && forall x :: StepYields(t, parse, step, before, x) <==> after(x)
  }

  /** A chain's answer is whatever holds of the start rows and is carried on by every hop. */
  lemma {:induction false} ChainInduction(
      t: Tables, parse: TsParser, steps: seq<PlanStep>, rows: seq<Binding -> bool>, x: Binding)
    requires |steps| == |rows| > 0
    requires forall y :: StartRow(t, steps[0], y) <==> rows[0](y)
    requires forall j :: 1 <= j < |steps| ==> CarriedOn(t, parse, steps[j], rows[j - 1], rows[j])
    ensures InAnswer(t, parse, steps, x) <==> rows[|rows| - 1](x)
  {
    var n := |steps| - 1;
    if n > 0 {
      var front, before := steps[..n], rows[..n];
      assert CarriedOn(t, parse, steps[n], rows[n - 1], rows[n]);
      assert steps[n].ExpandHop?;
      assert forall j :: 0 <= j < n ==> front[j] == steps[j];
      assert forall j :: 0 <= j < n ==> before[j] == rows[j];
      forall j | 1 <= j < n ensures CarriedOn(t, parse, front[j], before[j - 1], before[j]) {
        assert CarriedOn(t, parse, steps[j], rows[j - 1], rows[j]);
      }
      forall b, path | PathRow(t, parse, steps[n], b, path, x)
        ensures InAnswer(t, parse, front, b) <==> rows[n - 1](b)
      {
        ChainInduction(t, parse, front, before, b);
      }
      assert StepYields(t, parse, steps[n], rows[n - 1], x) <==> rows[n](x);
    }
  }

  ghost function MatchRows(t: Tables, parse: TsParser, q: Query, k: nat): Binding -> bool
    requires IsChainOf(q.pattern, k)
  {
    x => HasRow(t, parse, q, k, x)
  }

  ghost predicate HopsReach(t: Tables, parse: TsParser, q: Query, k: nat)
    requires k > 0 && IsChainOf(q.pattern, k) && IsChainOf(q.pattern, k - 1)
  {
    forall from, path, v :: EdgeMatches(t, EdgeAt(q.pattern, k), from, path, v) ==> HopReaches(t, parse, q, k, v)
  }

  lemma HopCarriesOn(t: Tables, parse: TsParser, q: Query, k: nat)
    requires k > 0 && IsChainOf(q.pattern, k) && IsChainOf(q.pattern, k - 1) && HopsReach(t, parse, q, k)
    ensures CarriedOn(t, parse, HopAt(q, k), MatchRows(t, parse, q, k - 1), MatchRows(t, parse, q, k))
  {
    var step, before, after := HopAt(q, k), MatchRows(t, parse, q, k - 1), MatchRows(t, parse, q, k);
    forall x | StepYields(t, parse, step, before, x) ensures after(x) {
      var b, path :| before(b) && PathRow(t, parse, step, b, path, x);
      var v := x.nodes[NodeAt(q.pattern, k).alias];
      PathRowParts(t, parse, q, k, b, path, v);
      HopForward(t, parse, q, k, b, path, x);
    }
    forall x | after(x) ensures StepYields(t, parse, step, before, x) {
      var vs, ps :| BuildsRow(t, parse, q, k, vs, ps, x);
      var b := HopBack(t, parse, q, k, vs, ps);
      assert before(b);
    }
  }

  lemma SupportedHopsReach(t: Tables, parse: TsParser, q: Query, k: nat)
    requires SupportedOn(t, q) && 1 <= k <= HopCount(q.pattern) && IsChainOf(q.pattern, k)
             && IsChainOf(q.pattern, k - 1)
    ensures HopsReach(t, parse, q, k)
  {
    forall from, path, v | EdgeMatches(t, EdgeAt(q.pattern, k), from, path, v) ensures HopReaches(t, parse, q, k, v) {
      LastStep(t, EdgeAt(q.pattern, k), from, path, v);
      TargetMatches(t, parse, q, k, path[|path| - 1], v);
    }
  }

  lemma StartIsMatch(t: Tables, parse: TsParser, q: Query, x: Binding)
    requires SupportedOn(t, q) && IsChainOf(q.pattern, 0)
    ensures StartRow(t, FirstStep(q).value, x) <==> HasRow(t, parse, q, 0, x)
  {
    var first := NodeAt(q.pattern, 0);
    var wheres := FiltersOn(q.whereConditions, first.alias);
    if StartRow(t, FirstStep(q).value, x) {
      var r :| r in t.nodes && x == FromNode(first.alias, r.id);
      StartIsFirstNode(t, parse, first, wheres, r.id);
      assert BuildsRow(t, parse, q, 0, [r.id], [], x);
    }
    if vs, ps :| BuildsRow(t, parse, q, 0, vs, ps, x) {
      StartIsFirstNode(t, parse, first, wheres, vs[0]);
    }
  }

  lemma EveryHopCarriesOn(t: Tables, parse: TsParser, q: Query, start: PlanStep, n: nat, j: nat)
    requires 1 <= j <= n && IsChainOf(q.pattern, n) && IsChainOf(q.pattern, j) && IsChainOf(q.pattern, j - 1)
    requires HopsReach(t, parse, q, j)
    ensures |ChainSteps(q, start, n)| == n + 1
    ensures CarriedOn(t, parse, ChainSteps(q, start, n)[j], MatchRows(t, parse, q, j - 1), MatchRows(t, parse, q, j))
  {
    ChainStepsLaws(q, start, n);
    HopCarriesOn(t, parse, q, j);
  }

  lemma ChainByHops(
      t: Tables, parse: TsParser, q: Query, start: PlanStep, n: nat, rows: seq<Binding -> bool>, x: Binding)
    requires IsChainOf(q.pattern, n) && |rows| == n + 1
    requires forall j :: 0 <= j <= n ==> IsChainOf(q.pattern, j) && rows[j] == MatchRows(t, parse, q, j)
    requires forall y :: StartRow(t, start, y) <==> rows[0](y)
    requires forall j :: 1 <= j <= n ==> HopsReach(t, parse, q, j)
    ensures InAnswer(t, parse, ChainSteps(q, start, n), x) <==> rows[n](x)
  {
    ChainStepsLaws(q, start, n);
    forall j | 1 <= j <= n ensures CarriedOn(t, parse, ChainSteps(q, start, n)[j], rows[j - 1], rows[j]) {
      EveryHopCarriesOn(t, parse, q, start, n, j);
    }
    ChainInduction(t, parse, ChainSteps(q, start, n), rows, x);
  }

  /** The answer of the planned chain is the set of rows of matches that pass the routed filters. */
  lemma ChainIsMatch(t: Tables, parse: TsParser, q: Query, x: Binding)
    requires SupportedOn(t, q)
    ensures InAnswer(t, parse, ChainSteps(q, FirstStep(q).value, HopCount(q.pattern)), x) <==>
              HasRow(t, parse, q, HopCount(q.pattern), x)
  {
    var n := HopCount(q.pattern);
    ChainPrefix(q.pattern, n);
    forall y ensures StartRow(t, FirstStep(q).value, y) <==> HasRow(t, parse, q, 0, y) {
      StartIsMatch(t, parse, q, y);
    }
    forall j | 1 <= j <= n ensures HopsReach(t, parse, q, j) {
      SupportedHopsReach(t, parse, q, j);
    }
    var rows := seq(n + 1, k requires 0 <= k <= n => MatchRows(t, parse, q, k));
    ChainByHops(t, parse, q, FirstStep(q).value, n, rows, x);
  }

  // ---------------------------------------------------------------- rows of matches, declaratively

  ghost predicate AllPass(t: Tables, parse: TsParser, q: Query, k: nat, vs: seq<NodeId>)
    requires IsChainOf(q.pattern, k) && |vs| == k + 1
  {
    forall j :: 0 <= j <= k ==> Passes(t, parse, vs[j], FiltersOn(q.whereConditions, NodeAt(q.pattern, j).alias))
  }

  ghost predicate BareTargets(pattern: seq<PatternStep>, k: nat)
    requires IsChainOf(pattern, k)
  {
    forall j :: 1 <= j <= k ==> NodeAt(pattern, j).propertyFilters == []
  }

  ghost predicate LabelsFit(t: Tables, pattern: seq<PatternStep>, k: nat, vs: seq<NodeId>)
    requires IsChainOf(pattern, k) && |vs| == k + 1
  {
    forall j :: 1 <= j <= k ==> HasLabel(t, vs[j], NodeAt(pattern, j).labelName)
  }

  lemma BareMatches(t: Tables, parse: TsParser, node: NodePattern, v: NodeId)
    requires node.propertyFilters == []
    ensures NodeMatches(t, parse, node, v) <==> v in NodeIds(t) && HasLabel(t, v, node.labelName)
  {
    if v in NodeIds(t) && HasLabel(t, v, node.labelName) {
      var r :| r in t.nodes && r.id == v && (node.labelName.None? || r.labelName == node.labelName.value);
      assert AllHold(parse, r.properties, node.propertyFilters);
    }
  }

  /** What the plan does not check is the labels of the targets; what it adds is the index. */
  lemma {:induction false} FitsIsMatch(
      t: Tables, parse: TsParser, q: Query, k: nat, vs: seq<NodeId>, ps: seq<seq<EdgeRow>>)
    requires IsChainOf(q.pattern, k) && BareTargets(q.pattern, k) && FirstStep(q).Ok? && |vs| == k + 1 && |ps| == k
    ensures Fits(t, parse, q, k, vs, ps) && LabelsFit(t, q.pattern, k, vs) <==>
              IsMatch(t, parse, q.pattern, k, vs, ps) && AllPass(t, parse, q, k, vs)
              && LookupFinds(t, FirstStep(q).value, vs[0])
  {
    if k > 0 {
      var front, paths := vs[..k], ps[..k - 1];
      FitsIsMatch(t, parse, q, k - 1, front, paths);
      MatchSnoc(t, parse, q.pattern, k, vs, ps);
      BareMatches(t, parse, NodeAt(q.pattern, k), vs[k]);
      PassSnoc(t, parse, q, k, vs);
    }
  }

  lemma PassSnoc(t: Tables, parse: TsParser, q: Query, k: nat, vs: seq<NodeId>)
    requires k > 0 && IsChainOf(q.pattern, k) && IsChainOf(q.pattern, k - 1) && |vs| == k + 1
    ensures AllPass(t, parse, q, k, vs) <==>
              AllPass(t, parse, q, k - 1, vs[..k])
              && Passes(t, parse, vs[k], FiltersOn(q.whereConditions, NodeAt(q.pattern, k).alias))
    ensures LabelsFit(t, q.pattern, k, vs) <==>
              LabelsFit(t, q.pattern, k - 1, vs[..k]) && HasLabel(t, vs[k], NodeAt(q.pattern, k).labelName)
  {
    assert forall j :: 0 <= j < k ==> vs[..k][j] == vs[j];
  }

  lemma MatchSnoc(t: Tables, parse: TsParser, pattern: seq<PatternStep>, k: nat, vs: seq<NodeId>, ps: seq<seq<EdgeRow>>)
    requires k > 0 && IsChainOf(pattern, k) && IsChainOf(pattern, k - 1) && |vs| == k + 1 && |ps| == k
    ensures IsMatch(t, parse, pattern, k, vs, ps) <==>
              && IsMatch(t, parse, pattern, k - 1, vs[..k], ps[..k - 1])
              && EdgeMatches(t, EdgeAt(pattern, k), vs[k - 1], ps[k - 1], vs[k])
                 && NodeMatches(t, parse, NodeAt(pattern, k), vs[k])
  {
    var front, paths := vs[..k], ps[..k - 1];
    assert forall j :: 0 <= j < k ==> front[j] == vs[j];
    assert forall j :: 0 <= j < k - 1 ==> paths[j] == ps[j];
    if IsMatch(t, parse, pattern, k - 1, front, paths) {
      forall j | 0 <= j <= k - 1 ensures NodeMatches(t, parse, NodeAt(pattern, j), vs[j]) {
        assert NodeMatches(t, parse, NodeAt(pattern, j), front[j]);
      }
      forall j | 1 <= j <= k - 1 ensures EdgeMatches(t, EdgeAt(pattern, j), vs[j - 1], ps[j - 1], vs[j]) {
        assert EdgeMatches(t, EdgeAt(pattern, j), front[j - 1], paths[j - 1], front[j]);
      }
    }
  }

  lemma AliasesSnoc(pattern: seq<PatternStep>, k: nat)
    requires IsChainOf(pattern, k) && k > 0
    ensures IsChainOf(pattern, k - 1)
    ensures NodeAliases(pattern, k) == NodeAliases(pattern, k - 1) + {NodeAt(pattern, k).alias}
    ensures EdgeAliases(pattern, k) == EdgeAliases(pattern, k - 1) + (if EdgeAt(pattern, k).alias.Some? then {EdgeAt(pattern, k).alias.value} else {})
  {
    forall a | a in EdgeAliases(pattern, k - 1) ensures a in EdgeAliases(pattern, k) {
      var j :| 1 <= j <= k - 1 && EdgeAt(pattern, j).alias.Some? && a == EdgeAt(pattern, j).alias.value;
    }
  }

  /** Hop `j` names a node and an edge the hops before it do not name. */
  ghost predicate FreshHop(pattern: seq<PatternStep>, j: nat)
    requires j > 0 && IsChainOf(pattern, j) && IsChainOf(pattern, j - 1)
  {
    && NodeAt(pattern, j).alias !in NodeAliases(pattern, j - 1)
    && (EdgeAt(pattern, j).alias.Some? ==> EdgeAt(pattern, j).alias.value !in EdgeAliases(pattern, j - 1))
  }

  lemma DistinctIsFresh(pattern: seq<PatternStep>, k: nat)
    requires IsChain(pattern) && DistinctAliases(pattern) && 1 <= k <= HopCount(pattern)
    requires IsChainOf(pattern, k) && IsChainOf(pattern, k - 1)
    ensures FreshHop(pattern, k)
  {
  }

  ghost predicate NonEmptyPaths(ps: seq<seq<EdgeRow>>) {
    forall j :: 0 <= j < |ps| ==> ps[j] != []
  }

  /** The row built hop by hop is the one that binds every alias of the pattern. */
  lemma {:induction false} RowBinds(pattern: seq<PatternStep>, k: nat, vs: seq<NodeId>, ps: seq<seq<EdgeRow>>)
    requires forall j :: 0 <= j <= k ==> IsChainOf(pattern, j)
    requires forall j :: 1 <= j <= k ==> FreshHop(pattern, j)
    requires |vs| == k + 1 && |ps| == k && NonEmptyPaths(ps)
    ensures Binds(pattern, k, vs, ps, RowOf(pattern, k, vs, ps))
  {
    if k > 0 {
      RowBinds(pattern, k - 1, vs[..k], ps[..k - 1]);
      assert FreshHop(pattern, k);
      BindsSnoc(pattern, k, vs, ps, RowOf(pattern, k - 1, vs[..k], ps[..k - 1]));
    }
  }

  lemma BindsSnoc(pattern: seq<PatternStep>, k: nat, vs: seq<NodeId>, ps: seq<seq<EdgeRow>>, b: Binding)
    requires k > 0 && IsChainOf(pattern, k) && IsChainOf(pattern, k - 1) && FreshHop(pattern, k)
    requires |vs| == k + 1 && |ps| == k && ps[k - 1] != [] && Binds(pattern, k - 1, vs[..k], ps[..k - 1], b)
    ensures Binds(pattern, k, vs, ps, Extend(b, NodeAt(pattern, k).alias, vs[k], EdgeAt(pattern, k).alias, ps[k - 1][0].id))
  {
    AliasesSnoc(pattern, k);
    var front, paths := vs[..k], ps[..k - 1];
    assert forall j :: 0 <= j < k ==> front[j] == vs[j];
    assert forall j :: 0 <= j < k - 1 ==> paths[j] == ps[j];
    forall j | 0 <= j < k ensures NodeAt(pattern, j).alias in NodeAliases(pattern, k - 1) {}
    forall j | 1 <= j < k && EdgeAt(pattern, j).alias.Some?
      ensures EdgeAt(pattern, j).alias.value in EdgeAliases(pattern, k - 1)
    {
    }
  }

  lemma BindsUnique(pattern: seq<PatternStep>, k: nat, vs: seq<NodeId>, ps: seq<seq<EdgeRow>>, b: Binding, c: Binding)
    requires IsChainOf(pattern, k) && Binds(pattern, k, vs, ps, b) && Binds(pattern, k, vs, ps, c)
    ensures b == c
  {
    forall a | a in b.nodes ensures b.nodes[a] == c.nodes[a] {
      var j :| 0 <= j <= k && a == NodeAt(pattern, j).alias;
    }
    forall a | a in b.edges ensures b.edges[a] == c.edges[a] {
      var j :| 1 <= j <= k && EdgeAt(pattern, j).alias.Some? && a == EdgeAt(pattern, j).alias.value;
    }
    assert b.nodes == c.nodes && b.edges == c.edges;
  }

  // ---------------------------------------------------------------- WHERE is the routed filters

  lemma PassesIsHolds(t: Tables, parse: TsParser, b: Binding, alias: string, filters: seq<PropertyFilter>)
    requires UniqueIds(t) && alias in b.nodes && b.nodes[alias] in NodeIds(t)
    ensures Passes(t, parse, b.nodes[alias], filters) <==>
              forall f :: f in filters ==> PropertyHolds(t, parse, b, alias, f)
  {
    var r :| r in t.nodes && r.id == b.nodes[alias];
    forall s | s in t.nodes && s.id == r.id ensures s == r { OnlyRow(t.nodes, r, s); }
    forall f ensures PropertyHolds(t, parse, b, alias, f) <==> EvaluateFilter(parse, r.properties, f) {
      assert IsRecordOf(t, b, alias, r.properties);
    }
    if forall f :: f in filters ==> PropertyHolds(t, parse, b, alias, f) {
      assert AllHold(parse, r.properties, filters);
    }
    if AllHold(parse, r.properties, filters) {
      forall f | f in filters ensures EvaluateFilter(parse, r.properties, f) {
        var i :| 0 <= i < |filters| && filters[i] == f;
      }
    }
  }

  /** Every property condition names a node of the pattern. */
  ghost predicate ConditionsOnNodes(q: Query, n: nat)
    requires IsChainOf(q.pattern, n)
  {
    forall c :: c in q.whereConditions && c.PropertyCondition? ==> c.alias in NodeAliases(q.pattern, n)
  }

  ghost predicate PropertyConditionsHold(t: Tables, parse: TsParser, q: Query, x: Binding) {
    forall c :: c in q.whereConditions && c.PropertyCondition? ==> Holds(t, parse, x, c)
  }

  lemma RoutedIsWhere(t: Tables, parse: TsParser, q: Query, n: nat, vs: seq<NodeId>, ps: seq<seq<EdgeRow>>, x: Binding)
    requires UniqueIds(t) && IsChainOf(q.pattern, n) && ConditionsOnNodes(q, n)
    requires Binds(q.pattern, n, vs, ps, x) && forall j :: 0 <= j <= n ==> vs[j] in NodeIds(t)
    ensures AllPass(t, parse, q, n, vs) <==> PropertyConditionsHold(t, parse, q, x)
  {
    forall j | 0 <= j <= n
      ensures Passes(t, parse, vs[j], FiltersOn(q.whereConditions, NodeAt(q.pattern, j).alias)) <==>
                forall f :: PropertyCondition(NodeAt(q.pattern, j).alias, f) in q.whereConditions ==> PropertyHolds(t, parse, x, NodeAt(q.pattern, j).alias, f)
    {
      var alias := NodeAt(q.pattern, j).alias;
      PassesIsHolds(t, parse, x, alias, FiltersOn(q.whereConditions, alias));
      FiltersOnMembers(q.whereConditions, alias);
    }
    if PropertyConditionsHold(t, parse, q, x) {
      forall j, f | 0 <= j <= n && PropertyCondition(NodeAt(q.pattern, j).alias, f) in q.whereConditions
        ensures PropertyHolds(t, parse, x, NodeAt(q.pattern, j).alias, f)
      {
        assert Holds(t, parse, x, PropertyCondition(NodeAt(q.pattern, j).alias, f));
      }
    }
    if AllPass(t, parse, q, n, vs) {
      forall c | c in q.whereConditions && c.PropertyCondition? ensures Holds(t, parse, x, c) {
        var j :| 0 <= j <= n && NodeAt(q.pattern, j).alias == c.alias;
        assert Passes(t, parse, vs[j], FiltersOn(q.whereConditions, NodeAt(q.pattern, j).alias));
        assert PropertyCondition(NodeAt(q.pattern, j).alias, c.filter) in q.whereConditions;
      }
    }
  }

  ghost predicate SomeMatch(t: Tables, parse: TsParser, pattern: seq<PatternStep>, n: nat, x: Binding)
    requires IsChainOf(pattern, n)
  {
    exists vs, ps :: IsMatch(t, parse, pattern, n, vs, ps) && Binds(pattern, n, vs, ps, x)
  }

  /** What hop-by-hop matches and matches have in common. */
  ghost predicate Shaped(q: Query, n: nat) {
    && (forall j :: 0 <= j <= n ==> IsChainOf(q.pattern, j))
    && (forall j :: 1 <= j <= n ==> FreshHop(q.pattern, j))
    && IsChainOf(q.pattern, n) && FirstStep(q).Ok? && BareTargets(q.pattern, n) && ConditionsOnNodes(q, n)
  }

  lemma RowOfFits(t: Tables, parse: TsParser, q: Query, n: nat, vs: seq<NodeId>, ps: seq<seq<EdgeRow>>, x: Binding)
    requires UniqueIds(t) && Shaped(q, n) && BuildsRow(t, parse, q, n, vs, ps, x)
    ensures NonEmptyPaths(ps) && Binds(q.pattern, n, vs, ps, x) && StartFound(t, q, x)
            && PropertyConditionsHold(t, parse, q, x)
  {
    FitsFacts(t, parse, q, n, vs, ps);
    RowBinds(q.pattern, n, vs, ps);
    RoutedIsWhere(t, parse, q, n, vs, ps, x);
  }

  lemma {:induction false} FitsFacts(
      t: Tables, parse: TsParser, q: Query, n: nat, vs: seq<NodeId>, ps: seq<seq<EdgeRow>>)
    requires IsChainOf(q.pattern, n) && FirstStep(q).Ok? && Fits(t, parse, q, n, vs, ps)
    ensures NonEmptyPaths(ps) && AllPass(t, parse, q, n, vs) && LookupFinds(t, FirstStep(q).value, vs[0])
    ensures forall j :: 0 <= j <= n ==> vs[j] in NodeIds(t)
  {
    if n > 0 {
      FitsFacts(t, parse, q, n - 1, vs[..n], ps[..n - 1]);
      PassSnoc(t, parse, q, n, vs);
      assert forall j :: 0 <= j < n ==> vs[..n][j] == vs[j];
      assert forall j :: 0 <= j < n - 1 ==> ps[..n - 1][j] == ps[j];
    }
  }

  /** The rows of hop-by-hop matches, up to the labels of targets, are the rows of matches
      that satisfy the property conditions, up to what the index holds. */
  lemma RowsAreFiltered(t: Tables, parse: TsParser, q: Query, n: nat, x: Binding)
    requires UniqueIds(t) && Shaped(q, n)
    ensures HasRow(t, parse, q, n, x) && TargetsLabelled(t, q.pattern, n, x) <==>
              SomeMatch(t, parse, q.pattern, n, x) && PropertyConditionsHold(t, parse, q, x) && StartFound(t, q, x)
    ensures HasRow(t, parse, q, n, x) ==>
      StartFound(t, q, x) && PropertyConditionsHold(t, parse, q, x) && x.nodes.Keys == NodeAliases(q.pattern, n)
      && x.edges.Keys == EdgeAliases(q.pattern, n)
    ensures SomeMatch(t, parse, q.pattern, n, x) ==> TargetsLabelled(t, q.pattern, n, x)
  {
    if vs, ps :| BuildsRow(t, parse, q, n, vs, ps, x) {
      RowOfFits(t, parse, q, n, vs, ps, x);
      FitsIsMatch(t, parse, q, n, vs, ps);
    }
    if vs, ps :| IsMatch(t, parse, q.pattern, n, vs, ps) && Binds(q.pattern, n, vs, ps, x) {
      MatchIsRow(t, parse, q, n, vs, ps, x);
    }
  }

  lemma MatchIsRow(t: Tables, parse: TsParser, q: Query, n: nat, vs: seq<NodeId>, ps: seq<seq<EdgeRow>>, x: Binding)
    requires UniqueIds(t) && Shaped(q, n)
    requires IsMatch(t, parse, q.pattern, n, vs, ps) && Binds(q.pattern, n, vs, ps, x)
    ensures TargetsLabelled(t, q.pattern, n, x)
    ensures PropertyConditionsHold(t, parse, q, x) && StartFound(t, q, x) ==> HasRow(t, parse, q, n, x)
  {
    MatchFacts(t, parse, q.pattern, n, vs, ps);
    if PropertyConditionsHold(t, parse, q, x) && StartFound(t, q, x) {
      RoutedIsWhere(t, parse, q, n, vs, ps, x);
      FitsIsMatch(t, parse, q, n, vs, ps);
      RowBinds(q.pattern, n, vs, ps);
      BindsUnique(q.pattern, n, vs, ps, x, RowOf(q.pattern, n, vs, ps));
      assert BuildsRow(t, parse, q, n, vs, ps, x);
    }
    forall j | 1 <= j <= n ensures HasLabel(t, vs[j], NodeAt(q.pattern, j).labelName) {
      assert NodeMatches(t, parse, NodeAt(q.pattern, j), vs[j]);
    }
  }

  lemma MatchFacts(
      t: Tables, parse: TsParser, pattern: seq<PatternStep>, n: nat, vs: seq<NodeId>, ps: seq<seq<EdgeRow>>)
    requires IsChainOf(pattern, n) && IsMatch(t, parse, pattern, n, vs, ps)
    ensures NonEmptyPaths(ps) && forall j :: 0 <= j <= n ==> vs[j] in NodeIds(t)
  {
    forall j | 0 <= j < n ensures ps[j] != [] {
      assert EdgeMatches(t, EdgeAt(pattern, j + 1), vs[j], ps[j], vs[j + 1]);
    }
    forall j | 0 <= j <= n ensures vs[j] in NodeIds(t) {
      assert NodeMatches(t, parse, NodeAt(pattern, j), vs[j]);
    }
  }

  // ---------------------------------------------------------------- NOT EXISTS is the anti-join

  lemma LiteralIsReadable(t: Tables, b: Binding, outer: PropertyRef, literal: Literal)
    requires b.nodes.Keys !! b.edges.Keys
    ensures OuterIs(t, b, outer, literal) <==>
              exists value :: HasValue(t, b, outer, value) && Writes(literal, value)
  {
    if OuterIs(t, b, outer, literal) {
      if outer.alias in b.edges {
        var e :| e in t.edges && e.id == b.edges[outer.alias]
                 && IsWritten(e.properties, outer.property, literal);
        assert IsRecordOf(t, b, outer.alias, e.properties);
        assert HasValue(t, b, outer, e.properties[outer.property]);
      } else {
        var r :| r in t.nodes && r.id == b.nodes[outer.alias]
                 && IsWritten(r.properties, outer.property, literal);
        assert IsRecordOf(t, b, outer.alias, r.properties);
        assert HasValue(t, b, outer, r.properties[outer.property]);
      }
    }
  }

  lemma ValueIsUnique(t: Tables, b: Binding, ref: PropertyRef, x: PropertyValue, y: PropertyValue)
    requires UniqueIds(t) && HasValue(t, b, ref, x) && HasValue(t, b, ref, y)
    ensures x == y
  {
    var p :| IsRecordOf(t, b, ref.alias, p) && ref.property in p && p[ref.property] == x;
    var q :| IsRecordOf(t, b, ref.alias, q) && ref.property in q && q[ref.property] == y;
    RecordIsUnique(t, b, ref.alias, p, q);
  }

  lemma RecordIsUnique(t: Tables, b: Binding, alias: string, p: Properties, q: Properties)
    requires UniqueIds(t) && IsRecordOf(t, b, alias, p) && IsRecordOf(t, b, alias, q)
    ensures p == q
  {
    if alias in b.nodes {
      var r :| r in t.nodes && r.id == b.nodes[alias] && r.properties == p;
      var s :| s in t.nodes && s.id == b.nodes[alias] && s.properties == q;
      OnlyRow(t.nodes, r, s);
    } else {
      var e :| e in t.edges && e.id == b.edges[alias] && e.properties == p;
      var f :| f in t.edges && f.id == b.edges[alias] && f.properties == q;
      SameEdge(t, e, f);
    }
  }

  /** Comparing with a value's literal is comparing with the value. */
  lemma LiteralStandsForValue(parse: TsParser, x: PropertyValue, literal: Literal, y: PropertyValue)
    requires Writes(literal, y)
    ensures CompareValue(parse, x, literal) == CompareValues(parse, x, y)
  {
  }

  lemma CompareValuesFlip(parse: TsParser, x: PropertyValue, y: PropertyValue)
    ensures CompareValues(parse, y, x).Some? == CompareValues(parse, x, y).Some?
    ensures CompareValues(parse, x, y).Some? ==>
      CompareValues(parse, y, x).value == Reverse(CompareValues(parse, x, y).value)
  {
    if x.Str? && y.Str? { CompareSeqFlip(x.s, y.s, CHAR_RANK); }
  }

  /** A comparison with the candidate edge, on either side, is the outer condition the
      planner makes of it once the outer value is substituted. */
  lemma ComparisonIsCondition(
      t: Tables, parse: TsParser, b: Binding, inner: Option<string>, e: EdgeRow, c: WhereCondition, o: OuterCondition,
      value: PropertyValue, literal: Literal)
    requires UniqueIds(t) && NamesInnerOnce(c, inner) && OuterOf(c, inner) == Some(o)
    requires HasValue(t, b, o.outer, value) && Writes(literal, value)
    ensures HoldsInside(t, parse, b, inner, e, c) <==>
              EvaluateFilter(parse, e.properties, PropertyFilter(o.innerProperty, o.op, literal))
  {
    forall y | HasValue(t, b, o.outer, y) ensures y == value { ValueIsUnique(t, b, o.outer, value, y); }
    if o.innerProperty in e.properties {
      var x := e.properties[o.innerProperty];
      LiteralStandsForValue(parse, x, literal, value);
      CompareValuesFlip(parse, x, value);
      if !IsInner(c.left.alias, inner) && CompareValues(parse, x, value).Some? {
        FlipUndoesSwap(c.op, Reverse(CompareValues(parse, x, value).value));
      }
      assert IsInner(c.left.alias, inner) ==>
        ValueInside(t, b, inner, e, c.left, x) && ValueInside(t, b, inner, e, c.right, value);
      assert !IsInner(c.left.alias, inner) ==>
        ValueInside(t, b, inner, e, c.left, value) && ValueInside(t, b, inner, e, c.right, x);
    }
  }

  ghost predicate Readable(t: Tables, b: Binding, outer: PropertyRef) {
    exists literal :: OuterIs(t, b, outer, literal)
  }

  ghost predicate AllReadable(t: Tables, b: Binding, outers: seq<OuterCondition>) {
    forall i :: 0 <= i < |outers| ==> Readable(t, b, outers[i].outer)
  }

  lemma {:induction false} Substitute(t: Tables, b: Binding, outers: seq<OuterCondition>)
    returns (conditions: seq<PropertyFilter>)
    requires AllReadable(t, b, outers)
    ensures Substituted(t, b, outers, conditions)
  {
    if outers == [] {
      conditions := [];
    } else {
      var n := |outers| - 1;
      assert AllReadable(t, b, outers[..n]) by {
        forall i | 0 <= i < n ensures Readable(t, b, outers[..n][i].outer) { assert outers[..n][i] == outers[i]; }
      }
      var front := Substitute(t, b, outers[..n]);
      assert Readable(t, b, outers[n].outer);
      var literal :| OuterIs(t, b, outers[n].outer, literal);
      conditions := front + [PropertyFilter(outers[n].innerProperty, outers[n].op, literal)];
    }
  }

  lemma SubstitutedValue(t: Tables, b: Binding, outers: seq<OuterCondition>, conditions: seq<PropertyFilter>, i: nat)
    returns (value: PropertyValue)
    requires b.nodes.Keys !! b.edges.Keys && Substituted(t, b, outers, conditions) && i < |outers|
    ensures HasValue(t, b, outers[i].outer, value) && Writes(conditions[i].value, value)
    ensures conditions[i] == PropertyFilter(outers[i].innerProperty, outers[i].op, conditions[i].value)
  {
    LiteralIsReadable(t, b, outers[i].outer, conditions[i].value);
    value :| HasValue(t, b, outers[i].outer, value) && Writes(conditions[i].value, value);
  }

  ghost predicate AllHoldInside(
      t: Tables, parse: TsParser, b: Binding, inner: Option<string>, e: EdgeRow, cs: seq<WhereCondition>)
  {
    forall c :: c in cs ==> HoldsInside(t, parse, b, inner, e, c)
  }

  ghost predicate AllNameInner(cs: seq<WhereCondition>, inner: Option<string>) {
    forall c :: c in cs ==> NamesInnerOnce(c, inner)
  }

  lemma LiteralsAgree(
      t: Tables, parse: TsParser, b: Binding, inner: Option<string>, e: EdgeRow, cs: seq<WhereCondition>)
    requires AllNameInner(cs, inner)
    ensures AllHold(parse, e.properties, LiteralConditions(cs, inner)) <==>
              forall c :: c in cs && c.PropertyCondition? ==> HoldsInside(t, parse, b, inner, e, c)
  {
    var literals := LiteralConditions(cs, inner);
    LiteralConditionsMembers(cs, inner);
    if AllHold(parse, e.properties, literals) {
      forall c | c in cs && c.PropertyCondition? ensures HoldsInside(t, parse, b, inner, e, c) {
        assert NamesInnerOnce(c, inner) && PropertyCondition(c.alias, c.filter) in cs;
        assert c.filter in literals;
        var i :| 0 <= i < |literals| && literals[i] == c.filter;
      }
    }
    if forall c :: c in cs && c.PropertyCondition? ==> HoldsInside(t, parse, b, inner, e, c) {
      forall i | 0 <= i < |literals| ensures EvaluateFilter(parse, e.properties, literals[i]) {
        assert literals[i] in literals;
        var a :| PropertyCondition(a, literals[i]) in cs && IsInner(a, inner);
        assert HoldsInside(t, parse, b, inner, e, PropertyCondition(a, literals[i]));
      }
    }
  }

  lemma OutersAgree(
      t: Tables, parse: TsParser, b: Binding, inner: Option<string>, e: EdgeRow, cs: seq<WhereCondition>,
      conditions: seq<PropertyFilter>)
    requires UniqueIds(t) && b.nodes.Keys !! b.edges.Keys && AllNameInner(cs, inner)
    requires Substituted(t, b, OuterConditions(cs, inner), conditions)
    ensures AllHold(parse, e.properties, conditions) <==>
              forall c :: c in cs && c.PropertyComparison? ==> HoldsInside(t, parse, b, inner, e, c)
  {
    var outers := OuterConditions(cs, inner);
    OuterConditionsMembers(cs, inner);
    if AllHold(parse, e.properties, conditions) {
      forall c | c in cs && c.PropertyComparison? ensures HoldsInside(t, parse, b, inner, e, c) {
        var o := OuterOf(c, inner).value;
        assert NamesInnerOnce(c, inner) && o in outers;
        var i :| 0 <= i < |outers| && outers[i] == o;
        var value := SubstitutedValue(t, b, outers, conditions, i);
        ComparisonIsCondition(t, parse, b, inner, e, c, o, value, conditions[i].value);
        assert EvaluateFilter(parse, e.properties, conditions[i]);
      }
    }
    if forall c :: c in cs && c.PropertyComparison? ==> HoldsInside(t, parse, b, inner, e, c) {
      forall i | 0 <= i < |conditions| ensures EvaluateFilter(parse, e.properties, conditions[i]) {
        assert outers[i] in outers;
        var c :| c in cs && OuterOf(c, inner) == Some(outers[i]);
        var value := SubstitutedValue(t, b, outers, conditions, i);
        ComparisonIsCondition(t, parse, b, inner, e, c, outers[i], value, conditions[i].value);
        assert HoldsInside(t, parse, b, inner, e, c);
      }
    }
  }

  lemma ConditionsAgree(
      t: Tables, parse: TsParser, b: Binding, inner: Option<string>, e: EdgeRow, cs: seq<WhereCondition>,
      conditions: seq<PropertyFilter>)
    requires UniqueIds(t) && b.nodes.Keys !! b.edges.Keys && AllNameInner(cs, inner)
    requires Substituted(t, b, OuterConditions(cs, inner), conditions)
    ensures AllHold(parse, e.properties, LiteralConditions(cs, inner) + conditions) <==>
              AllHoldInside(t, parse, b, inner, e, cs)
  {
    LiteralsAgree(t, parse, b, inner, e, cs);
    OutersAgree(t, parse, b, inner, e, cs, conditions);
    AllHoldConcat(parse, e.properties, LiteralConditions(cs, inner), conditions);
    assert forall c :: c in cs ==> NamesInnerOnce(c, inner);
  }

  lemma AllHoldConcat(parse: TsParser, properties: Properties, a: seq<PropertyFilter>, b: seq<PropertyFilter>)
    ensures AllHold(parse, properties, a + b) <==> AllHold(parse, properties, a) && AllHold(parse, properties, b)
  {
    if AllHold(parse, properties, a + b) {
      forall i | 0 <= i < |a| ensures EvaluateFilter(parse, properties, a[i]) { assert (a + b)[i] == a[i]; }
      forall i | 0 <= i < |b| ensures EvaluateFilter(parse, properties, b[i]) { assert (a + b)[|a| + i] == b[i]; }
    }
  }

  lemma ReadableIsResolvable(t: Tables, b: Binding, inner: Option<string>, cs: seq<WhereCondition>)
    requires b.nodes.Keys !! b.edges.Keys
    ensures (forall c :: c in cs ==> OuterReadable(t, b, inner, c)) <==> AllReadable(t, b, OuterConditions(cs, inner))
  {
    var outers := OuterConditions(cs, inner);
    OuterConditionsMembers(cs, inner);
    if forall c :: c in cs ==> OuterReadable(t, b, inner, c) {
      forall i | 0 <= i < |outers| ensures Readable(t, b, outers[i].outer) {
        assert outers[i] in outers;
        var c :| c in cs && OuterOf(c, inner) == Some(outers[i]);
        assert OuterReadable(t, b, inner, c);
        var value :| HasValue(t, b, outers[i].outer, value) && IsWritable(value);
        var literal := WritableIsWritten(value);
        LiteralIsReadable(t, b, outers[i].outer, literal);
      }
    }
    if AllReadable(t, b, outers) {
      forall c | c in cs ensures OuterReadable(t, b, inner, c) {
        if OuterOf(c, inner).Some? {
          var o := OuterOf(c, inner).value;
          assert o in outers;
          var i :| 0 <= i < |outers| && outers[i] == o;
          assert Readable(t, b, outers[i].outer);
          var literal :| OuterIs(t, b, outers[i].outer, literal);
          LiteralIsReadable(t, b, o.outer, literal);
        }
      }
    }
  }

  /** The compiled anti-join keeps a row exactly when its NOT EXISTS holds. */
  lemma AntiJoinIsNotExists(t: Tables, parse: TsParser, b: Binding, s: ExistsSubquery)
    requires UniqueIds(t) && b.nodes.Keys !! b.edges.Keys && SupportedSubquery(s)
    ensures NotExistsHolds(t, parse, AntiJoinOf(s), b) <==> NoSuchEdge(t, parse, b, s)
  {
    var a, inner, cs := AntiJoinOf(s), s.pattern[1].edge.alias, s.whereConditions;
    ReadableIsResolvable(t, b, inner, cs);
    if a.fromAlias in b.nodes && a.toAlias in b.nodes {
      forall conditions | Substituted(t, b, a.outerConditions, conditions)
        ensures AllReadable(t, b, a.outerConditions)
        ensures SomeEdgeSatisfies(t, parse, a, b.nodes[a.fromAlias], b.nodes[a.toAlias], a.literalConditions + conditions)
                <==> exists e :: EdgeSatisfies(t, parse, b, s, e)
      {
        SubstitutedIsExact(t, parse, b, s, conditions);
      }
      if AllReadable(t, b, a.outerConditions) {
        var conditions := Substitute(t, b, a.outerConditions);
      }
    }
  }

  lemma SubstitutedIsExact(t: Tables, parse: TsParser, b: Binding, s: ExistsSubquery, conditions: seq<PropertyFilter>)
    requires UniqueIds(t) && b.nodes.Keys !! b.edges.Keys && SupportedSubquery(s)
    requires AntiJoinOf(s).fromAlias in b.nodes && AntiJoinOf(s).toAlias in b.nodes
    requires Substituted(t, b, AntiJoinOf(s).outerConditions, conditions)
    ensures AllReadable(t, b, AntiJoinOf(s).outerConditions)
    ensures SomeEdgeSatisfies(t, parse, AntiJoinOf(s), b.nodes[AntiJoinOf(s).fromAlias], b.nodes[AntiJoinOf(s).toAlias],
                              AntiJoinOf(s).literalConditions + conditions)
            <==> exists e :: EdgeSatisfies(t, parse, b, s, e)
  {
    var a := AntiJoinOf(s);
    forall i | 0 <= i < |a.outerConditions| ensures Readable(t, b, a.outerConditions[i].outer) {
      assert OuterIs(t, b, a.outerConditions[i].outer, conditions[i].value);
    }
    var from, to := b.nodes[a.fromAlias], b.nodes[a.toAlias];
    forall e: EdgeRow
      ensures EdgeSatisfies(t, parse, b, s, e) <==>
                e in t.edges && e.src == from && e.dst == to && TypeMatches(e.edgeType, a.edgeType)
                && AllHold(parse, e.properties, a.literalConditions + conditions)
    {
      ConditionsAgree(t, parse, b, s.pattern[1].edge.alias, e, s.whereConditions, conditions);
    }
    if SomeEdgeSatisfies(t, parse, a, from, to, a.literalConditions + conditions) {
      var e :| e in t.edges && e.src == from && e.dst == to && TypeMatches(e.edgeType, a.edgeType)
               && AllHold(parse, e.properties, a.literalConditions + conditions);
      assert EdgeSatisfies(t, parse, b, s, e);
    }
  }

  // ---------------------------------------------------------------- the planner preserves meaning

  lemma {:induction false} AntiJoinsFilter(
      t: Tables, parse: TsParser, chain: seq<PlanStep>, joins: seq<PlanStep>, x: Binding)
    requires chain != [] && forall i :: 0 <= i < |joins| ==> joins[i].AntiJoin?
    ensures InAnswer(t, parse, chain + joins, x) <==>
              InAnswer(t, parse, chain, x) && forall a :: AntiJoin(a) in joins ==> NotExistsHolds(t, parse, a, x)
  {
    if joins == [] {
      assert chain + joins == chain;
    } else {
      var n := |joins| - 1;
      AntiJoinsFilter(t, parse, chain, joins[..n], x);
      assert (chain + joins)[..|chain + joins| - 1] == chain + joins[..n];
      assert joins == joins[..n] + [joins[n]];
    }
  }

  ghost predicate NotExistsConditionsHold(t: Tables, parse: TsParser, q: Query, x: Binding) {
    forall c :: c in q.whereConditions && c.NotExists? ==> Holds(t, parse, x, c)
  }

  lemma TrailingAntiJoins(t: Tables, parse: TsParser, q: Query, x: Binding)
    requires UniqueIds(t) && x.nodes.Keys !! x.edges.Keys && SubqueriesWellShaped(q.whereConditions)
    requires forall c :: c in q.whereConditions && c.NotExists? ==> SupportedSubquery(c.subquery)
    ensures (forall a :: AntiJoin(a) in AntiJoins(q.whereConditions) ==> NotExistsHolds(t, parse, a, x)) <==>
              NotExistsConditionsHold(t, parse, q, x)
  {
    AntiJoinsMembers(q.whereConditions);
    forall c | c in q.whereConditions && c.NotExists?
      ensures Holds(t, parse, x, c) <==> NotExistsHolds(t, parse, AntiJoinOf(c.subquery), x)
    {
      AntiJoinIsNotExists(t, parse, x, c.subquery);
    }
    if NotExistsConditionsHold(t, parse, q, x) {
      forall a | AntiJoin(a) in AntiJoins(q.whereConditions) ensures NotExistsHolds(t, parse, a, x) {
        var s :| NotExists(s) in q.whereConditions && IsOneHop(s.pattern) && a == AntiJoinOf(s);
        assert Holds(t, parse, x, NotExists(s));
      }
    }
    if forall a :: AntiJoin(a) in AntiJoins(q.whereConditions) ==> NotExistsHolds(t, parse, a, x) {
      forall c | c in q.whereConditions && c.NotExists? ensures Holds(t, parse, x, c) {
        assert NotExists(c.subquery) in q.whereConditions;
        assert AntiJoin(AntiJoinOf(c.subquery)) in AntiJoins(q.whereConditions);
      }
    }
  }

  lemma PlanRows(t: Tables, parse: TsParser, q: Query, x: Binding)
    requires SupportedOn(t, q)
    ensures Shaped(q, HopCount(q.pattern))
    ensures InAnswer(t, parse, PlannedSteps(q), x) <==>
              HasRow(t, parse, q, HopCount(q.pattern), x) && NotExistsConditionsHold(t, parse, q, x)
  {
    ChainIsMatch(t, parse, q, x);
    SupportedShape(q);
    PlanSplits(t, parse, q, x);
    if HasRow(t, parse, q, HopCount(q.pattern), x) {
      RowsAreFiltered(t, parse, q, HopCount(q.pattern), x);
      TrailingAntiJoins(t, parse, q, x);
    }
  }

  lemma MeaningParts(t: Tables, parse: TsParser, q: Query, x: Binding)
    requires Supported(q)
    ensures Means(t, parse, q, x) <==>
              && SomeMatch(t, parse, q.pattern, HopCount(q.pattern), x)
              && PropertyConditionsHold(t, parse, q, x) && NotExistsConditionsHold(t, parse, q, x)
  {
    forall c | c in q.whereConditions ensures c.PropertyCondition? || c.NotExists? {
      assert SupportedCondition(q, c);
    }
  }

  /** On every supported query the plan and the meaning differ in two things only, both
      at the nodes of the row: the plan does not look at the labels of targets, and it
      reaches no start node that the index does not hold. */
  lemma PlanAgainstMeaning(t: Tables, parse: TsParser, q: Query, x: Binding)
    requires SupportedOn(t, q)
    ensures InAnswer(t, parse, PlannedSteps(q), x) && TargetsLabelled(t, q.pattern, HopCount(q.pattern), x)
            <==> Means(t, parse, q, x) && StartFound(t, q, x)
    ensures InAnswer(t, parse, PlannedSteps(q), x) ==> StartFound(t, q, x)
    ensures Means(t, parse, q, x) ==> TargetsLabelled(t, q.pattern, HopCount(q.pattern), x)
  {
    PlanRows(t, parse, q, x);
    MeaningParts(t, parse, q, x);
    RowsAreFiltered(t, parse, q, HopCount(q.pattern), x);
  }

  /** The planner preserves meaning wherever edge types imply target labels and the
      start property is indexed and holds no time stamps. */
  lemma PlanMeansQuery(t: Tables, parse: TsParser, q: Query, x: Binding)
    requires SupportedOn(t, q) && LabelsImplied(t, q.pattern) && LookupUsable(t, FirstStep(q).value)
    ensures InAnswer(t, parse, PlannedSteps(q), x) <==> Means(t, parse, q, x)
  {
    PlanAgainstMeaning(t, parse, q, x);
    if InAnswer(t, parse, PlannedSteps(q), x) {
      AnswersLabelled(t, parse, q, x);
    }
    if Means(t, parse, q, x) {
      MatchesFound(t, parse, q, x);
    }
  }

  lemma AnswersLabelled(t: Tables, parse: TsParser, q: Query, x: Binding)
    requires SupportedOn(t, q) && LabelsImplied(t, q.pattern) && InAnswer(t, parse, PlannedSteps(q), x)
    ensures TargetsLabelled(t, q.pattern, HopCount(q.pattern), x)
  {
    PlanRows(t, parse, q, x);
    var vs, ps :| BuildsRow(t, parse, q, HopCount(q.pattern), vs, ps, x);
    RowOfFits(t, parse, q, HopCount(q.pattern), vs, ps, x);
    forall j | 1 <= j <= HopCount(q.pattern) ensures HasLabel(t, vs[j], NodeAt(q.pattern, j).labelName) {
      LabelOfTarget(t, parse, q, vs, ps, j);
    }
  }

  lemma LabelOfTarget(t: Tables, parse: TsParser, q: Query, vs: seq<NodeId>, ps: seq<seq<EdgeRow>>, j: nat)
    requires CleanTables(t) && IsChain(q.pattern) && LabelsImplied(t, q.pattern)
             && Fits(t, parse, q, HopCount(q.pattern), vs, ps)
    requires 1 <= j <= HopCount(q.pattern) && IsChainOf(q.pattern, j)
    ensures HasLabel(t, vs[j], NodeAt(q.pattern, j).labelName)
  {
    FitsHop(t, parse, q, HopCount(q.pattern), vs, ps, j);
    LastStep(t, EdgeAt(q.pattern, j), vs[j - 1], ps[j - 1], vs[j]);
    assert vs[j] in NodeIds(t);
  }

  lemma {:induction false} FitsHop(
      t: Tables, parse: TsParser, q: Query, n: nat, vs: seq<NodeId>, ps: seq<seq<EdgeRow>>, j: nat)
    requires IsChainOf(q.pattern, n) && Fits(t, parse, q, n, vs, ps) && 1 <= j <= n && IsChainOf(q.pattern, j)
    ensures EdgeMatches(t, EdgeAt(q.pattern, j), vs[j - 1], ps[j - 1], vs[j])
  {
    if j < n { FitsHop(t, parse, q, n - 1, vs[..n], ps[..n - 1], j); }
  }

  lemma MatchesFound(t: Tables, parse: TsParser, q: Query, x: Binding)
    requires Plannable(q) && UniqueIds(t) && LookupUsable(t, FirstStep(q).value) && Means(t, parse, q, x)
    ensures StartFound(t, q, x)
  {
    var n := HopCount(q.pattern);
    var vs, ps :| IsMatch(t, parse, q.pattern, n, vs, ps) && Binds(q.pattern, n, vs, ps, x);
    assert NodeMatches(t, parse, NodeAt(q.pattern, 0), vs[0]);
    forall r | r in t.nodes && r.id == vs[0] ensures r.labelName == NodeAt(q.pattern, 0).labelName.value {
      var s :| s in t.nodes && s.id == vs[0] && s.labelName == NodeAt(q.pattern, 0).labelName.value;
      OnlyRow(t.nodes, r, s);
    }
  }

  lemma PlanSplits(t: Tables, parse: TsParser, q: Query, x: Binding)
    requires Plannable(q)
    ensures InAnswer(t, parse, PlannedSteps(q), x) <==>
              && InAnswer(t, parse, ChainSteps(q, FirstStep(q).value, HopCount(q.pattern)), x)
              && forall a :: AntiJoin(a) in AntiJoins(q.whereConditions) ==> NotExistsHolds(t, parse, a, x)
  {
    var chain := ChainSteps(q, FirstStep(q).value, HopCount(q.pattern));
    ChainStepsLaws(q, FirstStep(q).value, HopCount(q.pattern));
    AntiJoinsMembers(q.whereConditions);
    AntiJoinsFilter(t, parse, chain, AntiJoins(q.whereConditions), x);
  }

  lemma SupportedShape(q: Query)
    requires Supported(q)
    ensures Shaped(q, HopCount(q.pattern))
    ensures NodeAliases(q.pattern, HopCount(q.pattern)) !! EdgeAliases(q.pattern, HopCount(q.pattern))
    ensures forall c :: c in q.whereConditions && c.NotExists? ==> SupportedSubquery(c.subquery)
  {
    ChainPrefix(q.pattern, HopCount(q.pattern));
    forall j | 1 <= j <= HopCount(q.pattern) ensures FreshHop(q.pattern, j) { DistinctIsFresh(q.pattern, j); }
    forall c | c in q.whereConditions && c.PropertyCondition?
      ensures c.alias in NodeAliases(q.pattern, HopCount(q.pattern))
    {
      assert SupportedCondition(q, c);
    }
    forall c | c in q.whereConditions && c.NotExists? ensures SupportedSubquery(c.subquery) {
      assert SupportedCondition(q, c);
    }
  }
}
