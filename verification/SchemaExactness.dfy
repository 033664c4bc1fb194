/** When the plan is exact, read off query and schema alone. */
module SchemaExactness {
  import opened GraphModel
  import opened PropertyIndexes
  import opened Plan
  import opened Denotation
  import opened GlobalAnswer
  import opened DistributionLaws
  import opened IndexLaws
  import opened QueryAst
  import opened Validation
  import opened Planning
  import opened QueryMeaning
  import opened QuerySoundness
  import opened PlannerGaps

  // ---------------------------------------------------------------- tables of a schema

  predicate ValueOfType(value: PropertyValue, ty: ScalarType) {
    match value
    case Int64(_) => ty.Int64Type?
    case Float64(_) => ty.Float64Type?
    case Bool(_) => ty.BoolType?
    case Str(_) => ty.StringType?
    case Timestamp(_) => ty.TimestampType?
    case Bytes(_) => ty.BytesType?
    case List(_) => ty.ListType? || ty.VectorType?
    case Null => true
  }

  ghost predicate NodeConforms(schema: Schema, r: NodeRow) {
    && r.labelName in schema.nodes
    && forall d ::
         d in DefsOf(schema, r.labelName) && d.name in r.properties ==> ValueOfType(r.properties[d.name], d.ty)
  }

  ghost predicate EdgeConforms(t: Tables, e: EdgeRow) {
    && e.edgeType in t.schema.edges
    && (forall d :: d in t.schema.edges[e.edgeType].properties && d.name in e.properties ==> ValueOfType(e.properties[d.name], d.ty))
    && forall r :: r in t.nodes ==>
         && (r.id == e.src ==> r.labelName == t.schema.edges[e.edgeType].from)
         && (r.id == e.dst ==> r.labelName == t.schema.edges[e.edgeType].to)
  }

  /** Stored values have their declared types, and edges join their declared labels. */
  ghost predicate Conforms(t: Tables) {
    && (forall r :: r in t.nodes ==> NodeConforms(t.schema, r))
    && (forall e :: e in t.edges ==> EdgeConforms(t, e))
  }

  /** The tables a coordinator with this schema may meet. */
  ghost predicate TablesOf(t: Tables, schema: Schema) {
    t.schema == schema && CleanTables(t) && Conforms(t)
  }

  /** The schema parser rejects an edge type between labels that are not declared. */
  ghost predicate EndpointsDeclared(schema: Schema) {
    forall ty :: ty in schema.edges ==> schema.edges[ty].from in schema.nodes && schema.edges[ty].to in schema.nodes
  }

  // ---------------------------------------------------------------- target labels

  /** The declared label a traversal of the edge type reaches. */
  function EndLabel(def: EdgeDef, dir: Direction): string {
    if dir.Outgoing? then def.to else def.from
  }

  /** Every edge type a hop to a labelled target may take is declared to end in that label. */
  ghost predicate TargetsDeclared(schema: Schema, pattern: seq<PatternStep>)
    requires IsChain(pattern)
  {
    forall k, ty :: 1 <= k <= HopCount(pattern) && ty in schema.edges ==> TargetDeclared(schema, pattern, k, ty)
  }

  ghost predicate TargetDeclared(schema: Schema, pattern: seq<PatternStep>, k: nat, ty: string)
    requires IsChain(pattern) && 1 <= k <= HopCount(pattern) && ty in schema.edges
  {
    NodeAt(pattern, k).labelName.Some? && TypeMatches(ty, EdgeAt(pattern, k).edgeType) ==>
      EndLabel(schema.edges[ty], EdgeAt(pattern, k).direction) == NodeAt(pattern, k).labelName.value
  }

  lemma DeclaredTargetsAreImplied(t: Tables, pattern: seq<PatternStep>)
    requires IsChain(pattern) && Conforms(t) && TargetsDeclared(t.schema, pattern)
    ensures LabelsImplied(t, pattern)
  {
    forall k, e, r |
      1 <= k <= HopCount(pattern) && NodeAt(pattern, k).labelName.Some? && e in t.edges && r in t.nodes
      && TypeMatches(e.edgeType, EdgeAt(pattern, k).edgeType) && r.id == Far(e, EdgeAt(pattern, k).direction)
      ensures r.labelName == NodeAt(pattern, k).labelName.value
    {
      assert EdgeConforms(t, e);
      assert TargetDeclared(t.schema, pattern, k, e.edgeType);
    }
  }

  /** Two nodes of the declared labels and one edge of the type between them. */
  function OneEdge(schema: Schema, ty: string): Tables
    requires ty in schema.edges
  {
    Tables(schema, [NodeRow(schema.edges[ty].from, NodeId(0), map[]), NodeRow(schema.edges[ty].to, NodeId(1), map[])],
           [EdgeRow(ty, EdgeId(0), NodeId(0), NodeId(1), map[])])
  }

  lemma OneEdgeConforms(schema: Schema, ty: string)
    requires EndpointsDeclared(schema) && ty in schema.edges
    ensures TablesOf(OneEdge(schema, ty), schema)
  {
    var t := OneEdge(schema, ty);
    assert t.nodes[0] in t.nodes && t.nodes[1] in t.nodes;
  }

  /** Edges imply the target labels on all tables of a schema exactly when the schema
      declares them so. */
  lemma LabelsImpliedIff(schema: Schema, pattern: seq<PatternStep>)
    requires IsChain(pattern) && EndpointsDeclared(schema)
    ensures (forall t :: TablesOf(t, schema) ==> LabelsImplied(t, pattern)) <==> TargetsDeclared(schema, pattern)
  {
    if TargetsDeclared(schema, pattern) {
      forall t | TablesOf(t, schema) ensures LabelsImplied(t, pattern) { DeclaredTargetsAreImplied(t, pattern); }
    } else {
      var k, ty :| 1 <= k <= HopCount(pattern) && ty in schema.edges && !TargetDeclared(schema, pattern, k, ty);
      var t := OneEdge(schema, ty);
      OneEdgeConforms(schema, ty);
      var e, r := t.edges[0], if EdgeAt(pattern, k).direction.Outgoing? then t.nodes[1] else t.nodes[0];
      assert e in t.edges && r in t.nodes && r.id == Far(e, EdgeAt(pattern, k).direction);
      assert !LabelsImplied(t, pattern);
    }
  }

  // ---------------------------------------------------------------- the start lookup

  /** All declarations of the property say time stamp. */
  ghost predicate IsTimestampColumn(schema: Schema, labelName: string, property: string) {
    forall d :: d in DefsOf(schema, labelName) && d.name == property ==> d.ty.TimestampType?
  }

  ghost predicate StartDeclared(schema: Schema, start: PlanStep) {
    start.ResolveStart? ==>
      IsIndexed(schema, start.labelOrType, start.property)
      && !IsTimestampColumn(schema, start.labelOrType, start.property)
  }

  lemma DeclaredStartIsUsable(t: Tables, start: PlanStep)
    requires Conforms(t) && StartDeclared(t.schema, start)
    ensures LookupUsable(t, start)
  {
    if start.ResolveStart? {
      var d :| d in DefsOf(t.schema, start.labelOrType) && d.name == start.property && !d.ty.TimestampType?;
      forall r | r in t.nodes && r.labelName == start.labelOrType && start.property in r.properties
        ensures !r.properties[start.property].Timestamp?
      {
        assert NodeConforms(t.schema, r);
      }
    }
  }

  function OneStamp(schema: Schema, labelName: string, property: string): Tables {
    Tables(schema, [NodeRow(labelName, NodeId(0), map[property := Timestamp(0)])], [])
  }

  /** The index serves the start filter on all tables of a schema exactly when the schema
      declares the property `@indexed` and not a time stamp. */
  lemma LookupUsableIff(schema: Schema, start: PlanStep)
    ensures (forall t :: TablesOf(t, schema) ==> LookupUsable(t, start)) <==> StartDeclared(schema, start)
  {
    if StartDeclared(schema, start) {
      forall t | TablesOf(t, schema) ensures LookupUsable(t, start) { DeclaredStartIsUsable(t, start); }
    } else if !IsIndexed(schema, start.labelOrType, start.property) {
      var t := Tables(schema, [], []);
      assert TablesOf(t, schema) && !LookupUsable(t, start);
    } else {
      var t := OneStamp(schema, start.labelOrType, start.property);
      var d :| d in DefsOf(schema, start.labelOrType) && d.indexed && d.name == start.property;
      assert TablesOf(t, schema);
      assert t.nodes[0] in t.nodes;
      assert !LookupUsable(t, start);
    }
  }

  // ---------------------------------------------------------------- exactness by query and schema

  lemma NothingUnbound(q: Query, schema: Schema)
    requires Plannable(q) && IsValid(q, schema) && DistinctAliases(q.pattern) && NoSelfComparison(q)
    ensures WellScoped(PlannedSteps(q)) && NotExistsOutgoing(PlannedSteps(q))
  {
    EnforcedIsSupported(q, schema);
    UnreadLeavesNoTrace(q);
    SupportedHasNoSelfComparison(Enforced(q));
    ValidIsWellScopedIff(q, schema);
  }

  /** What can be told before the run: an accepted query with distinct aliases and no self
      comparison, whose targets and start lookup are declared, succeeds on every served
      cluster over tables of the schema, with exactly the rows of what the planner reads. */
  lemma SchemaDecides(w: World, q: Query, x: Binding)
    requires Plannable(q) && IsValid(q, w.t.schema) && DistinctAliases(q.pattern) && NoSelfComparison(q)
    requires TargetsDeclared(w.t.schema, q.pattern) && StartDeclared(w.t.schema, FirstStep(q).value)
    requires AllServed(w) && TablesOf(w.t, w.t.schema)
    ensures Denote(w, PlannedSteps(q)).Ok? && IsChain(Enforced(q).pattern)
    ensures x in Denote(w, PlannedSteps(q)).value <==> Means(w.t, w.parse, Enforced(q), x)
  {
    NothingUnbound(q, w.t.schema);
    WellScopedNeverFails(w, PlannedSteps(q));
    DistributedIsGlobal(w, PlannedSteps(q), x);
    DeclaredTargetsAreImplied(w.t, q.pattern);
    DeclaredStartIsUsable(w.t, FirstStep(q).value);
    SuperfluousAndMissingRows(w.t, w.parse, q, x);
  }

  /** And with exactly the rows it means, if the planner reads all of it. */
  lemma SchemaDecidesMeaning(w: World, q: Query, x: Binding)
    requires Supported(q) && IsValid(q, w.t.schema)
    requires TargetsDeclared(w.t.schema, q.pattern) && StartDeclared(w.t.schema, FirstStep(q).value)
    requires AllServed(w) && TablesOf(w.t, w.t.schema)
    ensures Denote(w, PlannedSteps(q)).Ok?
    ensures x in Denote(w, PlannedSteps(q)).value <==> Means(w.t, w.parse, q, x)
  {
    DeclaredTargetsAreImplied(w.t, q.pattern);
    DeclaredStartIsUsable(w.t, FirstStep(q).value);
    ValidQueryIsAnswered(w, q, x);
  }
}
