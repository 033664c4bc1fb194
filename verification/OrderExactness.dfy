/** ORDER BY over the tables of a schema: every answer of an accepted query can be ordered. */
module OrderExactness {
  import opened Basics
  import opened GraphModel
  import opened FilterEval
  import opened PropertyIndexes
  import opened Plan
  import opened Wire
  import opened Denotation
  import opened GlobalAnswer
  import opened ClusterAccess
  import opened QueryAst
  import opened Validation
  import opened Planning
  import opened QueryMeaning
  import opened QuerySoundness
  import opened PlannerGaps
  import opened SchemaExactness
  import opened OrderLimit
  import opened Coordinator

  /** No stored double is a NaN, which the comparator ties with everything. */
  ghost predicate NoNaN(t: Tables) {
    && (forall r, p :: r in t.nodes && p in r.properties ==> r.properties[p] != Float64(NaN))
    && (forall e, p :: e in t.edges && p in e.properties ==> e.properties[p] != Float64(NaN))
  }

  /** A sort key of one declared column. */
  predicate KeyOfType(key: Option<PropertyValue>, ty: ScalarType) {
    key.Some? ==> ValueOfType(key.value, ty) && key.value != Float64(NaN)
  }

  lemma OneTypeIsSortable(keys: set<Option<PropertyValue>>, ty: ScalarType)
    requires !ty.ListType? && !ty.VectorType? && forall key :: key in keys ==> KeyOfType(key, ty)
    ensures Sortable(keys)
  {
    HomogeneousIsSortable(keys);
  }

  // ---------------------------------------------------------------- the declared column

  lemma NodeKeyOfType(w: World, orderBy: OrderBy, labelName: string, d: PropertyDef, b: Binding)
    requires UniqueIds(w.t) && Conforms(w.t) && NoNaN(w.t) && d in DefsOf(w.t.schema, labelName)
             && d.name == orderBy.property
    requires orderBy.alias in b.nodes ==> InTableOf(w.t, b.nodes[orderBy.alias], labelName)
    ensures KeyOfType(TableKey(w, orderBy, false, b), d.ty)
  {
    if TableKey(w, orderBy, false, b).Some? {
      var r :| r in w.t.nodes && r.id == b.nodes[orderBy.alias] && r.labelName == labelName;
      assert NodeConforms(w.t.schema, r);
      var s :| s in w.t.nodes && s.id == r.id && Held(w, r.id);
      NodePropsUnique(w, r);
      TransportedLaws(r.properties);
    }
  }

  lemma EdgeKeyOfType(w: World, orderBy: OrderBy, edgeType: string, d: PropertyDef, b: Binding)
    requires UniqueIds(w.t) && Conforms(w.t) && NoNaN(w.t)
    requires edgeType in w.t.schema.edges && d in w.t.schema.edges[edgeType].properties && d.name == orderBy.property
    requires orderBy.alias in b.edges ==> InEdgeTableOf(w.t, b.edges[orderBy.alias], edgeType)
    ensures KeyOfType(TableKey(w, orderBy, true, b), d.ty)
  {
    if TableKey(w, orderBy, true, b).Some? {
      var e :| e in w.t.edges && e.id == b.edges[orderBy.alias] && e.edgeType == edgeType;
      assert EdgeConforms(w.t, e);
      var f :| f in w.t.edges && f.id == e.id && Shown(w, f.src);
      SameEdge(w.t, e, f);
      EdgePropsUnique(w, e);
      TransportedLaws(e.properties);
    }
  }

  // ---------------------------------------------------------------- rows and their aliases

  ghost predicate RowOf(t: Tables, parse: TsParser, pattern: seq<PatternStep>, b: Binding)
    requires IsChain(pattern)
  {
    SomeMatch(t, parse, pattern, HopCount(pattern), b)
  }

  lemma NodeOfRow(t: Tables, parse: TsParser, pattern: seq<PatternStep>, b: Binding, alias: string, labelName: string)
    requires IsChain(pattern) && RowOf(t, parse, pattern, b) && IsNodeOf(pattern, HopCount(pattern), alias, labelName)
    ensures alias in b.nodes && InTableOf(t, b.nodes[alias], labelName)
  {
    var n := HopCount(pattern);
    var vs, ps :| IsMatch(t, parse, pattern, n, vs, ps) && Binds(pattern, n, vs, ps, b);
    var j :| 0 <= j <= n && NodeAt(pattern, j).alias == alias && NodeAt(pattern, j).labelName == Some(labelName);
    assert NodeAt(pattern, j).alias in NodeAliases(pattern, n);
    assert NodeMatches(t, parse, NodeAt(pattern, j), vs[j]);
  }

  lemma EdgeOfRow(t: Tables, parse: TsParser, pattern: seq<PatternStep>, b: Binding, alias: string, edgeType: string)
    requires IsChain(pattern) && RowOf(t, parse, pattern, b) && IsEdgeOf(pattern, HopCount(pattern), alias, edgeType)
    ensures alias in b.edges && InEdgeTableOf(t, b.edges[alias], edgeType)
  {
    var n := HopCount(pattern);
    var vs, ps :| IsMatch(t, parse, pattern, n, vs, ps) && Binds(pattern, n, vs, ps, b);
    var j :| 1 <= j <= n && EdgeAt(pattern, j).alias == Some(alias) && EdgeAt(pattern, j).edgeType == Some(edgeType);
    assert EdgeAt(pattern, j).alias.value in EdgeAliases(pattern, n);
    assert EdgeMatches(t, EdgeAt(pattern, j), vs[j - 1], ps[j - 1], vs[j]);
    assert IsPathStep(t, vs[j - 1], ps[j - 1], 0, EdgeAt(pattern, j).edgeType, EdgeAt(pattern, j).direction);
  }

  lemma RowsFit(t: Tables, parse: TsParser, pattern: seq<PatternStep>, rows: seq<Binding>)
    requires IsChain(pattern) && forall b :: b in rows ==> RowOf(t, parse, pattern, b)
    ensures AllFit(ToSet(rows), Scope(NodeAliases(pattern, HopCount(pattern)), EdgeAliases(pattern, HopCount(pattern))))
  {
    forall b | b in ToSet(rows)
      ensures FitsScope(b, Scope(NodeAliases(pattern, HopCount(pattern)), EdgeAliases(pattern, HopCount(pattern))))
    {
      assert RowOf(t, parse, pattern, b);
    }
  }

  /** No alias names both a node and an edge. */
  lemma NodeIsNoEdge(pattern: seq<PatternStep>, alias: string)
    requires IsChain(pattern) && DistinctAliases(pattern)
    ensures !(alias in NodeAliases(pattern, HopCount(pattern)) && alias in EdgeAliases(pattern, HopCount(pattern)))
  {
  }

  // ---------------------------------------------------------------- every answer can be ordered

  lemma NodeColumnOrders(w: World, q: Query, rows: seq<Binding>, labelName: string)
    requires IsChain(q.pattern) && DistinctAliases(q.pattern) && UniqueIds(w.t) && Conforms(w.t) && NoNaN(w.t)
    requires q.orderBy.Some? && IsNodeOf(q.pattern, HopCount(q.pattern), q.orderBy.value.alias, labelName)
    requires NodePropertyErrors(labelName, q.orderBy.value.property, Eq, w.t.schema) == []
    requires rows != [] && forall b :: b in rows ==> RowOf(w.t, w.parse, q.pattern, b)
    ensures CanOrder(w, q, rows)
  {
    var orderBy, n := q.orderBy.value, HopCount(q.pattern);
    forall b | b in rows ensures orderBy.alias in b.nodes && InTableOf(w.t, b.nodes[orderBy.alias], labelName) {
      NodeOfRow(w.t, w.parse, q.pattern, b, orderBy.alias, labelName);
    }
    RowsFit(w.t, w.parse, q.pattern, rows);
    assert rows[0] in ToSet(rows);
    NodeIsNoEdge(q.pattern, orderBy.alias);
    KindIsThePlans(rows, Scope(NodeAliases(q.pattern, n), EdgeAliases(q.pattern, n)), orderBy.alias);
    var r :| r in w.t.nodes && r.id == rows[0].nodes[orderBy.alias] && r.labelName == labelName;
    assert NodeConforms(w.t.schema, r);
    var d := FindProperty(DefsOf(w.t.schema, labelName), orderBy.property).value;
    FindsFirst(DefsOf(w.t.schema, labelName), orderBy.property);
    forall b | b in rows
      ensures KeyOfType(TableKey(w, orderBy, false, b), d.ty)
    {
      NodeKeyOfType(w, orderBy, labelName, d, b);
    }
    OneTypeIsSortable(TableKeys(w, orderBy, false, rows), d.ty);
  }

  lemma EdgeColumnOrders(w: World, q: Query, rows: seq<Binding>, edgeType: string)
    requires IsChain(q.pattern) && UniqueIds(w.t) && Conforms(w.t) && NoNaN(w.t)
    requires q.orderBy.Some? && IsEdgeOf(q.pattern, HopCount(q.pattern), q.orderBy.value.alias, edgeType)
    requires EdgePropertyErrors(edgeType, q.orderBy.value.property, Eq, w.t.schema) == []
    requires rows != [] && forall b :: b in rows ==> RowOf(w.t, w.parse, q.pattern, b)
    ensures CanOrder(w, q, rows)
  {
    var orderBy, n := q.orderBy.value, HopCount(q.pattern);
    forall b | b in rows ensures orderBy.alias in b.edges && InEdgeTableOf(w.t, b.edges[orderBy.alias], edgeType) {
      EdgeOfRow(w.t, w.parse, q.pattern, b, orderBy.alias, edgeType);
    }
    RowsFit(w.t, w.parse, q.pattern, rows);
    assert rows[0] in ToSet(rows);
    KindIsThePlans(rows, Scope(NodeAliases(q.pattern, n), EdgeAliases(q.pattern, n)), orderBy.alias);
    var e :| e in w.t.edges && e.id == rows[0].edges[orderBy.alias] && e.edgeType == edgeType;
    assert EdgeConforms(w.t, e);
    var d := FindProperty(w.t.schema.edges[edgeType].properties, orderBy.property).value;
    FindsFirst(w.t.schema.edges[edgeType].properties, orderBy.property);
    forall b | b in rows
      ensures KeyOfType(TableKey(w, orderBy, true, b), d.ty)
    {
      EdgeKeyOfType(w, orderBy, edgeType, d, b);
    }
    OneTypeIsSortable(TableKeys(w, orderBy, true, rows), d.ty);
  }

  /** The validator's check on ORDER BY is enough: on tables of the schema without NaN, the
      comparator is a total preorder on the keys of any rows that match the pattern. */
  lemma AcceptedOrderIsTotal(w: World, q: Query, rows: seq<Binding>)
    requires IsChain(q.pattern) && DistinctAliases(q.pattern) && IsValid(q, w.t.schema)
    requires UniqueIds(w.t) && Conforms(w.t) && NoNaN(w.t)
    requires forall b :: b in rows ==> RowOf(w.t, w.parse, q.pattern, b)
    ensures CanOrder(w, q, rows)
  {
    if q.orderBy.Some? && rows != [] {
      var orderBy, scope := q.orderBy.value, PatternScope(q.pattern);
      WholeScopeDeclared(q.pattern);
      assert PropertyRefErrors(scope, w.t.schema, orderBy.alias, orderBy.property, Eq) == [];
      if orderBy.alias in scope.nodeLabels {
        NodeColumnOrders(w, q, rows, scope.nodeLabels[orderBy.alias]);
      } else {
        EdgeColumnOrders(w, q, rows, scope.edgeTypes[orderBy.alias]);
      }
    }
  }

  /** So the answer of such a query is the one stable arrangement of the rows it means. */
  lemma AnswersAreOrdered(w: World, q: Query, rows: seq<Binding>, sorted: seq<Binding>)
    requires Supported(q) && IsValid(q, w.t.schema)
    requires TargetsDeclared(w.t.schema, q.pattern) && StartDeclared(w.t.schema, FirstStep(q).value)
    requires AllServed(w) && TablesOf(w.t, w.t.schema) && NoNaN(w.t)
    requires Denote(w, PlannedSteps(q)) == Ok(ToSet(rows)) && IsOrderedAs(w, q, rows, sorted)
    ensures sorted == Ordered(w, q, rows) && forall b :: b in rows <==> Means(w.t, w.parse, q, b)
  {
    forall b ensures b in rows <==> Means(w.t, w.parse, q, b) { SchemaDecidesMeaning(w, q, b); }
    forall b | b in rows ensures RowOf(w.t, w.parse, q.pattern, b) { MeansIsMatch(w.t, w.parse, q, b); }
    AcceptedOrderIsTotal(w, q, rows);
  }
}
