/** Accepted queries at which plan and meaning part, one for each way in which they can, on
    clean tables of two nodes and one edge; and one accepted query that fails. */
module PlannerExamples {
  import opened Basics
  import opened GraphModel
  import opened FilterEval
  import opened PropertyIndexes
  import opened Plan
  import opened Denotation
  import opened GlobalAnswer
  import opened DistributionLaws
  import opened QueryAst
  import opened Validation
  import opened Planning
  import opened QueryMeaning
  import opened QuerySoundness

  // ---------------------------------------------------------------- the tables

  const A_DEFS := [PropertyDef("x", Int64Type, false, true), PropertyDef("y", Int64Type, false, false)]

  const B_DEFS := [PropertyDef("n", Int64Type, false, false)]

  const SCHEMA := Schema("v1", map["A" := NodeDef("A", A_DEFS), "B" := NodeDef("B", B_DEFS)],
                         map["T" := EdgeDef("T", "A", "B", [PropertyDef("w", Int64Type, false, false)])])

  const ROW_A := NodeRow("A", NodeId(0), map["x" := Int64(1), "y" := Int64(2)])

  const ROW_B := NodeRow("B", NodeId(1), map["n" := Int64(2)])

  const EDGE := EdgeRow("T", EdgeId(7), NodeId(0), NodeId(1), map["w" := Int64(1)])

  const TABLES := Tables(SCHEMA, [ROW_A, ROW_B], [EDGE])

  lemma TablesAreClean()
    ensures CleanTables(TABLES)
    ensures ROW_A in TABLES.nodes && ROW_B in TABLES.nodes && EDGE in TABLES.edges
  {
    assert TABLES.nodes[0] == ROW_A && TABLES.nodes[1] == ROW_B && TABLES.edges[0] == EDGE;
  }

  // ---------------------------------------------------------------- one-hop queries over them

  /** `(a:A {f})-[e:T]->(b:target {g})` */
  function OneHop(f: seq<PropertyFilter>, target: string, g: seq<PropertyFilter>): seq<PatternStep> {
    [NodeStep(NodePattern("a", Some("A"), f)), EdgeStep(EdgePattern(Some("e"), Some("T"), Outgoing, HopRange(1, 1))),
     NodeStep(NodePattern("b", Some(target), g))]
  }

  /** `MATCH` that pattern `WHERE cs RETURN b` */
  function Ask(f: seq<PropertyFilter>, target: string, g: seq<PropertyFilter>, cs: seq<WhereCondition>): Query {
    Query(OneHop(f, target, g), cs, [ReturnItem("b", None)], None, None)
  }

  /** `property = i` */
  function Is(property: string, i: int): PropertyFilter {
    PropertyFilter(property, Eq, IntLit(i))
  }

  /** The row of the one edge. */
  const ROW := Binding(map["a" := NodeId(0), "b" := NodeId(1)], map["e" := EdgeId(7)])

  function HopTo(target: string): PlanStep {
    ExpandHop("a", "b", Some(target), Some("T"), Outgoing, HopRange(1, 1), [], Some("e"))
  }

  lemma OneHopShape(f: seq<PropertyFilter>, target: string, g: seq<PropertyFilter>)
    ensures IsChain(OneHop(f, target, g)) && HopCount(OneHop(f, target, g)) == 1
    ensures NodeAt(OneHop(f, target, g), 0) == NodePattern("a", Some("A"), f)
    ensures NodeAt(OneHop(f, target, g), 1) == NodePattern("b", Some(target), g)
    ensures EdgeAt(OneHop(f, target, g), 1) == EdgePattern(Some("e"), Some("T"), Outgoing, HopRange(1, 1))
  {
    forall i | 0 <= i <= 2 ensures Alternates(OneHop(f, target, g), i) {}
  }

  lemma OneHopScope(f: seq<PropertyFilter>, target: string, g: seq<PropertyFilter>)
    ensures PatternScope(OneHop(f, target, g)) == TypeScope({"a", "b"}, map["a" := "A", "b" := target], map["e" := "T"])
  {
    var pattern := OneHop(f, target, g);
    assert pattern[..3] == pattern && pattern[..1][..0] == [];
    TwoMoreSteps(pattern, 1);
    assert PatternScope(pattern[..1]) == BindStep(TypeScope({}, map[], map[]), pattern[0]);
  }

  lemma OneHopValid(f: seq<PropertyFilter>, target: string, g: seq<PropertyFilter>, cs: seq<WhereCondition>)
    requires target in {"A", "B"} && InlineErrors("A", f, SCHEMA) == [] && InlineErrors(target, g, SCHEMA) == []
    requires AllConditionErrors(cs, SCHEMA, PatternScope(OneHop(f, target, g)), true) == []
    ensures IsValid(Ask(f, target, g, cs), SCHEMA)
  {
    var pattern := OneHop(f, target, g);
    OneHopScope(f, target, g);
    assert pattern[..2][..1] == pattern[..1] && pattern[..1][..0] == [];
    assert PatternErrors(pattern[..1], SCHEMA) == [];
    assert PatternErrors(pattern[..2], SCHEMA) == [];
    var items := [ReturnItem("b", None)];
    assert items[..0] == [] && ReturnErrors(items, SCHEMA, PatternScope(pattern)) == [];
  }

  lemma Declared()
    ensures NodePropertyErrors("A", "x", Eq, SCHEMA) == [] && NodePropertyErrors("A", "y", Eq, SCHEMA) == []
    ensures NodePropertyErrors("B", "n", Eq, SCHEMA) == [] && EdgePropertyErrors("T", "w", Eq, SCHEMA) == []
  {
    assert A_DEFS[1..][0] == A_DEFS[1];
  }

  lemma {:induction false} InlineValid(labelName: string, f: seq<PropertyFilter>)
    requires forall i :: 0 <= i < |f| ==> NodePropertyErrors(labelName, f[i].property, f[i].op, SCHEMA) == []
    ensures InlineErrors(labelName, f, SCHEMA) == []
  {
    if f != [] { InlineValid(labelName, f[..|f| - 1]); }
  }

  lemma OneCondition(c: WhereCondition, scope: TypeScope)
    requires ConditionErrors(c, SCHEMA, scope, true) == []
    ensures AllConditionErrors([c], SCHEMA, scope, true) == []
  {
    assert [c][..0] == [];
  }

  lemma OneHopPlan(f: seq<PropertyFilter>, target: string, g: seq<PropertyFilter>, cs: seq<WhereCondition>)
    requires StartStep(NodePattern("a", Some("A"), f), FiltersOn(cs, "a")).Ok? && FiltersOn(cs, "b") == []
             && SubqueriesWellShaped(cs)
    ensures Plannable(Ask(f, target, g, cs))
    ensures PlannedSteps(Ask(f, target, g, cs)) == [StartStep(NodePattern("a", Some("A"), f), FiltersOn(cs, "a")).value, HopTo(target)] + AntiJoins(cs)
  {
    var q := Ask(f, target, g, cs);
    OneHopShape(f, target, g);
    var start := FirstStep(q).value;
    assert ChainSteps(q, start, 0) == [start];
    assert HopAt(q, 1) == HopTo(target);
    assert ChainSteps(q, start, 1) == [start] + [HopTo(target)];
  }

  /** The row of the edge answers whatever start step finds the source. */
  lemma RowAnswers(parse: TsParser, start: PlanStep, target: string)
    requires StartRow(TABLES, start, FromNode("a", NodeId(0)))
    ensures InAnswer(TABLES, parse, [start, HopTo(target)], ROW)
  {
    TablesAreClean();
    var b, hop := FromNode("a", NodeId(0)), HopTo(target);
    assert [start, hop][..1] == [start];
    assert IsPathStep(TABLES, NodeId(0), [EDGE], 0, Some("T"), Outgoing);
    assert ROW == RowOfPath(b, [EDGE], hop);
    assert PathRow(TABLES, parse, hop, b, [EDGE], ROW);
  }

  lemma RowStartsAtA(parse: TsParser)
    ensures StartRow(TABLES, ResolveAll("a", "A"), FromNode("a", NodeId(0)))
    ensures StartRow(TABLES, ResolveStart("a", "A", "x", IntKey(1)), FromNode("a", NodeId(0)))
  {
    TablesAreClean();
    assert DefsOf(SCHEMA, "A") == A_DEFS && A_DEFS[0] in A_DEFS;
    assert Contributes(A_DEFS[0], ROW_A, "x", IntKey(1));
    assert Carries(SCHEMA, ROW_A, "A", "x", IntKey(1));
  }

  lemma OneHopAliases(f: seq<PropertyFilter>, target: string, g: seq<PropertyFilter>)
    ensures IsChain(OneHop(f, target, g)) && HopCount(OneHop(f, target, g)) == 1
    ensures NodeAliases(OneHop(f, target, g), 1) == {"a", "b"} && EdgeAliases(OneHop(f, target, g), 1) == {"e"}
  {
    var pattern := OneHop(f, target, g);
    OneHopShape(f, target, g);
    AliasesSnoc(pattern, 1);
    assert NodeAliases(pattern, 0) == {"a"} by { assert NodeAt(pattern, 0).alias == "a"; }
    assert EdgeAliases(pattern, 0) == {};
  }

  lemma RowBindsAliases(f: seq<PropertyFilter>, target: string, g: seq<PropertyFilter>)
    ensures IsChain(OneHop(f, target, g)) && HopCount(OneHop(f, target, g)) == 1
    ensures Binds(OneHop(f, target, g), 1, [NodeId(0), NodeId(1)], [[EDGE]], ROW)
  {
    OneHopShape(f, target, g);
    OneHopAliases(f, target, g);
  }

  lemma EdgeTakesHop(f: seq<PropertyFilter>, g: seq<PropertyFilter>)
    ensures IsChain(OneHop(f, "B", g)) && HopCount(OneHop(f, "B", g)) == 1
    ensures EdgeMatches(TABLES, EdgeAt(OneHop(f, "B", g), 1), NodeId(0), [EDGE], NodeId(1))
  {
    TablesAreClean();
    OneHopShape(f, "B", g);
    assert IsPathStep(TABLES, NodeId(0), [EDGE], 0, Some("T"), Outgoing);
  }

  /** The row is a match of the pattern when the inline filters hold of its nodes. */
  lemma RowMatches(parse: TsParser, f: seq<PropertyFilter>, g: seq<PropertyFilter>)
    requires AllHold(parse, ROW_A.properties, f) && AllHold(parse, ROW_B.properties, g)
    ensures IsChain(OneHop(f, "B", g)) && HopCount(OneHop(f, "B", g)) == 1
    ensures SomeMatch(TABLES, parse, OneHop(f, "B", g), 1, ROW)
  {
    TablesAreClean();
    var pattern := OneHop(f, "B", g);
    OneHopShape(f, "B", g);
    EdgeTakesHop(f, g);
    RowBindsAliases(f, "B", g);
    assert NodeMatches(TABLES, parse, NodeAt(pattern, 0), NodeId(0))
           && NodeMatches(TABLES, parse, NodeAt(pattern, 1), NodeId(1));
    assert IsMatch(TABLES, parse, pattern, 1, [NodeId(0), NodeId(1)], [[EDGE]]);
  }

  /** No match gives the row when an inline filter fails at one of its nodes. */
  lemma RowDoesNotMatch(parse: TsParser, f: seq<PropertyFilter>, target: string, g: seq<PropertyFilter>)
    requires !AllHold(parse, ROW_A.properties, f) || !AllHold(parse, ROW_B.properties, g) || target != "B"
    ensures IsChain(OneHop(f, target, g)) && HopCount(OneHop(f, target, g)) == 1
    ensures !SomeMatch(TABLES, parse, OneHop(f, target, g), 1, ROW)
  {
    TablesAreClean();
    var pattern := OneHop(f, target, g);
    OneHopShape(f, target, g);
    forall vs, ps | Binds(pattern, 1, vs, ps, ROW) ensures !IsMatch(TABLES, parse, pattern, 1, vs, ps) {
      assert vs[0] == ROW.nodes[NodeAt(pattern, 0).alias] == NodeId(0)
             && vs[1] == ROW.nodes[NodeAt(pattern, 1).alias] == NodeId(1);
      assert !NodeMatches(TABLES, parse, NodeAt(pattern, 0), vs[0]) || !NodeMatches(TABLES, parse, NodeAt(pattern, 1), vs[1]);
    }
  }

  // ---------------------------------------------------------------- rows that should not be there

  /** The plan returns the row of the edge although the accepted query excludes it. */
  ghost predicate ReturnsExcludedRow(parse: TsParser, q: Query) {
    && IsValid(q, SCHEMA) && Plannable(q) && DistinctAliases(q.pattern)
    && InAnswer(TABLES, parse, PlannedSteps(q), ROW) && !Means(TABLES, parse, q, ROW)
  }

  lemma OneHopDistinct(f: seq<PropertyFilter>, target: string, g: seq<PropertyFilter>)
    ensures IsChain(OneHop(f, target, g)) && DistinctAliases(OneHop(f, target, g))
  {
    OneHopShape(f, target, g);
    OneHopAliases(f, target, g);
  }

  /** Where the start step of these queries finds the source of the edge. */
  ghost predicate StartsAtA(f: seq<PropertyFilter>) {
    f == [] || f[0] == Is("x", 1)
  }

  lemma StartOf(parse: TsParser, f: seq<PropertyFilter>, wheres: seq<PropertyFilter>)
    requires StartsAtA(f) && (f == [] ==> wheres == [])
    ensures StartStep(NodePattern("a", Some("A"), f), wheres).Ok?
    ensures StartRow(TABLES, StartStep(NodePattern("a", Some("A"), f), wheres).value, FromNode("a", NodeId(0)))
  {
    RowStartsAtA(parse);
  }

  lemma PlanAnswersRow(
      parse: TsParser, f: seq<PropertyFilter>, target: string, g: seq<PropertyFilter>, cs: seq<WhereCondition>)
    requires StartsAtA(f) && (f == [] ==> FiltersOn(cs, "a") == []) && FiltersOn(cs, "b") == []
    requires forall i :: 0 <= i < |cs| ==> !cs[i].NotExists?
    ensures Plannable(Ask(f, target, g, cs)) && InAnswer(TABLES, parse, PlannedSteps(Ask(f, target, g, cs)), ROW)
  {
    StartOf(parse, f, FiltersOn(cs, "a"));
    OneHopPlan(f, target, g, cs);
    NoJoins(cs);
    var start := StartStep(NodePattern("a", Some("A"), f), FiltersOn(cs, "a")).value;
    assert [start, HopTo(target)] + [] == [start, HopTo(target)];
    RowAnswers(parse, start, target);
  }

  lemma {:induction false} NoJoins(cs: seq<WhereCondition>)
    requires SubqueriesWellShaped(cs) && forall i :: 0 <= i < |cs| ==> !cs[i].NotExists?
    ensures AntiJoins(cs) == []
  {
    if cs != [] { NoJoins(cs[..|cs| - 1]); }
  }

  lemma NotMeant(parse: TsParser, q: Query, c: WhereCondition)
    requires IsChain(q.pattern) && c in q.whereConditions && !Holds(TABLES, parse, ROW, c)
    ensures !Means(TABLES, parse, q, ROW)
  {
  }

  /** Shared by the examples with one condition that the plan does not read. */
  lemma OneConditionValid(f: seq<PropertyFilter>, c: WhereCondition)
    requires f == [] || f == [Is("x", 1)]
    requires ConditionErrors(c, SCHEMA, PatternScope(OneHop(f, "B", [])), true) == []
    ensures IsValid(Ask(f, "B", [], [c]), SCHEMA)
  {
    Declared();
    InlineValid("A", f);
    OneCondition(c, PatternScope(OneHop(f, "B", [])));
    OneHopValid(f, "B", [], [c]);
  }

  lemma NoFilterOn(c: WhereCondition, alias: string)
    requires !(c.PropertyCondition? && c.alias == alias)
    ensures FiltersOn([c], alias) == []
  {
    assert [c][..0] == [] && FiltersOn([], alias) == [];
  }

  lemma ConditionNotRead(parse: TsParser, f: seq<PropertyFilter>, c: WhereCondition)
    requires f == [] || f == [Is("x", 1)]
    requires !c.NotExists? && !(c.PropertyCondition? && c.alias == "b")
             && (f == [] ==> !(c.PropertyCondition? && c.alias == "a"))
    requires ConditionErrors(c, SCHEMA, PatternScope(OneHop(f, "B", [])), true) == [] && !Holds(TABLES, parse, ROW, c)
    ensures ReturnsExcludedRow(parse, Ask(f, "B", [], [c]))
  {
    var cs := [c];
    OneConditionValid(f, c);
    OneHopDistinct(f, "B", []);
    NoFilterOn(c, "b");
    if f == [] { NoFilterOn(c, "a"); }
    PlanAnswersRow(parse, f, "B", [], cs);
    NotMeant(parse, Ask(f, "B", [], cs), c);
  }

  /** `MATCH (a:A)-[e:T]->(b:B) WHERE e.w = 5`: a condition on an edge is not applied. */
  lemma EdgeConditionIsDropped(parse: TsParser)
    ensures ReturnsExcludedRow(parse, Ask([], "B", [], [PropertyCondition("e", Is("w", 5))]))
  {
    OneHopScope([], "B", []);
    ConditionNotRead(parse, [], PropertyCondition("e", Is("w", 5)));
  }

  /** `MATCH (a:A {x: 1})-[e:T]->(b:B) WHERE a.y = 5`: beside an inline start filter a
      condition on the start node is not applied. */
  lemma ConditionBesideFilterIsDropped(parse: TsParser)
    ensures ReturnsExcludedRow(parse, Ask([Is("x", 1)], "B", [], [PropertyCondition("a", Is("y", 5))]))
  {
    OneHopScope([Is("x", 1)], "B", []);
    ConditionNotRead(parse, [Is("x", 1)], PropertyCondition("a", Is("y", 5)));
  }

  lemma DifferentValues(parse: TsParser)
    ensures !Holds(TABLES, parse, ROW, PropertyComparison(PropertyRef("a", "x"), Eq, PropertyRef("b", "n")))
  {
    TablesAreClean();
    assert IsRecordOf(TABLES, ROW, "a", ROW_A.properties) && IsRecordOf(TABLES, ROW, "b", ROW_B.properties);
    assert HasValue(TABLES, ROW, PropertyRef("a", "x"), Int64(1))
           && HasValue(TABLES, ROW, PropertyRef("b", "n"), Int64(2));
    forall x, y | HasValue(TABLES, ROW, PropertyRef("a", "x"), x) && HasValue(TABLES, ROW, PropertyRef("b", "n"), y)
      ensures !ValuesSatisfy(parse, x, Eq, y)
    {
      ValueIsUnique(TABLES, ROW, PropertyRef("a", "x"), x, Int64(1));
      ValueIsUnique(TABLES, ROW, PropertyRef("b", "n"), y, Int64(2));
    }
  }

  /** `MATCH (a:A)-[e:T]->(b:B) WHERE a.x = b.n`: comparisons outside NOT EXISTS are not applied. */
  lemma ComparisonIsDropped(parse: TsParser)
    ensures ReturnsExcludedRow(parse, Ask([], "B", [], [PropertyComparison(PropertyRef("a", "x"), Eq, PropertyRef("b", "n"))]))
  {
    OneHopScope([], "B", []);
    Declared();
    DifferentValues(parse);
    ConditionNotRead(parse, [], PropertyComparison(PropertyRef("a", "x"), Eq, PropertyRef("b", "n")));
  }

  /** Shared by the examples whose inline filters the plan does not read. */
  lemma FilterNotRead(parse: TsParser, f: seq<PropertyFilter>, target: string, g: seq<PropertyFilter>)
    requires target in {"A", "B"} && InlineErrors("A", f, SCHEMA) == [] && InlineErrors(target, g, SCHEMA) == []
    requires StartsAtA(f)
    requires !AllHold(parse, ROW_A.properties, f) || !AllHold(parse, ROW_B.properties, g) || target != "B"
    ensures ReturnsExcludedRow(parse, Ask(f, target, g, []))
  {
    OneHopValid(f, target, g, []);
    OneHopDistinct(f, target, g);
    PlanAnswersRow(parse, f, target, g, []);
    RowDoesNotMatch(parse, f, target, g);
  }

  /** `MATCH (a:A)-[e:T]->(b:B {n: 1})`: an inline filter on a later node is not applied. */
  lemma LaterFilterIsDropped(parse: TsParser)
    ensures ReturnsExcludedRow(parse, Ask([], "B", [Is("n", 1)], []))
  {
    var g := [Is("n", 1)];
    Declared();
    InlineValid("B", g);
    assert !EvaluateFilter(parse, ROW_B.properties, g[0]);
    FilterNotRead(parse, [], "B", g);
  }

  /** `MATCH (a:A {x: 1, y: 5})-[e:T]->(b:B)`: of two start filters only the first is applied. */
  lemma SecondFilterIsDropped(parse: TsParser)
    ensures ReturnsExcludedRow(parse, Ask([Is("x", 1), Is("y", 5)], "B", [], []))
  {
    var f := [Is("x", 1), Is("y", 5)];
    Declared();
    InlineValid("A", f);
    assert !EvaluateFilter(parse, ROW_A.properties, f[1]);
    FilterNotRead(parse, f, "B", []);
  }

  /** `MATCH (a:A)-[e:T]->(b:A)`: the label of a target is not checked. */
  lemma TargetLabelIsDropped(parse: TsParser)
    ensures ReturnsExcludedRow(parse, Ask([], "A", [], []))
  {
    FilterNotRead(parse, [], "A", []);
  }

  // ---------------------------------------------------------------- rows that should be there

  /** The plan misses the row of the edge although the accepted query admits it. */
  ghost predicate MissesRow(parse: TsParser, q: Query) {
    && IsValid(q, SCHEMA) && Plannable(q) && DistinctAliases(q.pattern)
    && Means(TABLES, parse, q, ROW) && !InAnswer(TABLES, parse, PlannedSteps(q), ROW)
  }

  lemma NoUnindexedStart(x: Binding)
    ensures !StartRow(TABLES, ResolveStart("a", "A", "y", IntKey(2)), x)
  {
    assert DefsOf(SCHEMA, "A") == A_DEFS;
    forall r ensures !Carries(SCHEMA, r, "A", "y", IntKey(2)) {}
  }

  lemma HopFromNothing(parse: TsParser, start: PlanStep, hop: PlanStep, x: Binding)
    requires hop.ExpandHop? && forall b :: !StartRow(TABLES, start, b)
    ensures !InAnswer(TABLES, parse, [start, hop], x)
  {
    assert [start, hop][..1] == [start];
  }

  lemma UnindexedPlan(parse: TsParser)
    ensures Plannable(Ask([Is("y", 2)], "B", [], []))
            && !InAnswer(TABLES, parse, PlannedSteps(Ask([Is("y", 2)], "B", [], [])), ROW)
  {
    OneHopPlan([Is("y", 2)], "B", [], []);
    var start := ResolveStart("a", "A", "y", IntKey(2));
    assert [start, HopTo("B")] + [] == [start, HopTo("B")];
    forall b ensures !StartRow(TABLES, start, b) { NoUnindexedStart(b); }
    HopFromNothing(parse, start, HopTo("B"), ROW);
  }

  lemma MatchIsMeant(parse: TsParser, f: seq<PropertyFilter>, cs: seq<WhereCondition>)
    requires AllHold(parse, ROW_A.properties, f) && forall c :: c in cs ==> Holds(TABLES, parse, ROW, c)
    ensures IsChain(Ask(f, "B", [], cs).pattern) && Means(TABLES, parse, Ask(f, "B", [], cs), ROW)
  {
    RowMatches(parse, f, []);
  }

  /** `MATCH (a:A {y: 2})-[e:T]->(b:B)`: a start filter without an index finds nothing. */
  lemma UnindexedStartFindsNothing(parse: TsParser)
    ensures MissesRow(parse, Ask([Is("y", 2)], "B", [], []))
  {
    var f := [Is("y", 2)];
    Declared();
    InlineValid("A", f);
    OneHopValid(f, "B", [], []);
    OneHopDistinct(f, "B", []);
    assert EvaluateFilter(parse, ROW_A.properties, f[0]);
    MatchIsMeant(parse, f, []);
    UnindexedPlan(parse);
  }

  /** `NOT EXISTS { MATCH (a)-[c:T]->(b) WHERE cs }` */
  function Without(cs: seq<WhereCondition>): ExistsSubquery {
    ExistsSubquery([NodeStep(NodePattern("a", None, [])), EdgeStep(EdgePattern(Some("c"), Some("T"), Outgoing, HopRange(1, 1))),
                    NodeStep(NodePattern("b", None, []))], cs)
  }

  const INNER_SCOPE := TypeScope({"a", "b"}, map["a" := "A", "b" := "B"], map["e" := "T", "c" := "T"])

  lemma WithoutValid(cs: seq<WhereCondition>)
    requires NestedErrors(cs, SCHEMA, INNER_SCOPE) == []
    ensures IsValid(Ask([], "B", [], [NotExists(Without(cs))]), SCHEMA)
  {
    var scope := PatternScope(OneHop([], "B", []));
    OneHopScope([], "B", []);
    assert BindEdge(scope, Without(cs).pattern[1].edge) == INNER_SCOPE;
    OneCondition(NotExists(Without(cs)), scope);
    OneHopValid([], "B", [], [NotExists(Without(cs))]);
  }

  lemma WithoutPlan(cs: seq<WhereCondition>)
    ensures Plannable(Ask([], "B", [], [NotExists(Without(cs))]))
    ensures PlannedSteps(Ask([], "B", [], [NotExists(Without(cs))])) == [ResolveAll("a", "A"), HopTo("B")] + [AntiJoin(AntiJoinOf(Without(cs)))]
  {
    var where := [NotExists(Without(cs))];
    assert where[..0] == [];
    assert FiltersOn(where, "a") == [] && FiltersOn(where, "b") == [];
    assert AntiJoins(where) == [] + [AntiJoin(AntiJoinOf(Without(cs)))];
    OneHopPlan([], "B", [], where);
  }

  /** `c.w = 1 AND a.y = 5` */
  const MIXED := [PropertyCondition("c", Is("w", 1)), PropertyCondition("a", Is("y", 5))]

  lemma MixedPlan()
    ensures AntiJoinOf(Without(MIXED)) == AntiJoinStep("a", "b", Outgoing, Some("c"), Some("T"), [Is("w", 1)], [])
  {
    assert MIXED[..1] == [MIXED[0]] && MIXED[..1][..0] == [];
    assert LiteralConditions(MIXED[..1], Some("c")) == [Is("w", 1)];
    assert OuterConditions(MIXED[..1], Some("c")) == [];
  }

  lemma MixedMeans(parse: TsParser)
    ensures NoSuchEdge(TABLES, parse, ROW, Without(MIXED))
    ensures !NotExistsHolds(TABLES, parse, AntiJoinOf(Without(MIXED)), ROW)
  {
    TablesAreClean();
    MixedPlan();
    var c := PropertyCondition("a", Is("y", 5));
    assert MIXED[1] == c && c in MIXED;
    assert !PropertyHolds(TABLES, parse, ROW, "a", Is("y", 5)) by {
      if props :| IsRecordOf(TABLES, ROW, "a", props) && EvaluateFilter(parse, props, Is("y", 5)) {
        RecordIsUnique(TABLES, ROW, "a", props, ROW_A.properties);
      }
    }
    assert AllHold(parse, EDGE.properties, [Is("w", 1)]);
    forall conditions | Substituted(TABLES, ROW, [], conditions)
      ensures SomeEdgeSatisfies(TABLES, parse, AntiJoinOf(Without(MIXED)), NodeId(0), NodeId(1), [Is("w", 1)] + conditions)
    {
      assert [Is("w", 1)] + conditions == [Is("w", 1)];
    }
  }

  lemma MixedValid()
    ensures IsValid(Ask([], "B", [], [NotExists(Without(MIXED))]), SCHEMA)
  {
    Declared();
    assert MIXED[..1] == [MIXED[0]] && MIXED[..1][..0] == [];
    assert NestedErrors(MIXED[..1], SCHEMA, INNER_SCOPE) == [];
    WithoutValid(MIXED);
  }

  lemma JoinDropsRow(parse: TsParser, start: PlanStep, hop: PlanStep, a: AntiJoinStep)
    requires !NotExistsHolds(TABLES, parse, a, ROW)
    ensures !InAnswer(TABLES, parse, [start, hop] + [AntiJoin(a)], ROW)
  {
    var steps := [start, hop] + [AntiJoin(a)];
    assert steps[..2] == [start, hop] && steps[2] == AntiJoin(a);
  }

  /** `MATCH (a:A)-[e:T]->(b:B) WHERE NOT EXISTS { MATCH (a)-[c:T]->(b) WHERE c.w = 1 AND a.y = 5 }`:
      a condition that does not name the subquery's edge is not read, and the row is lost. */
  lemma OtherAliasInsideIsDropped(parse: TsParser)
    ensures MissesRow(parse, Ask([], "B", [], [NotExists(Without(MIXED))]))
  {
    MixedValid();
    WithoutPlan(MIXED);
    OneHopDistinct([], "B", []);
    MixedMeans(parse);
    MatchIsMeant(parse, [], [NotExists(Without(MIXED))]);
    JoinDropsRow(parse, ResolveAll("a", "A"), HopTo("B"), AntiJoinOf(Without(MIXED)));
  }

  // ---------------------------------------------------------------- a query that fails

  /** `c.w = c.w` */
  const SELF := PropertyComparison(PropertyRef("c", "w"), Eq, PropertyRef("c", "w"))

  /** `MATCH (a:A)-[e:T]->(b:B) WHERE NOT EXISTS { MATCH (a)-[c:T]->(b) WHERE c.w = c.w }` is
      accepted and fails however the tables are partitioned. */
  lemma AcceptedSelfComparisonFails(w: World)
    requires w.t == TABLES && AllServed(w)
    ensures var q := Ask([], "B", [], [NotExists(Without([SELF]))]);
            && IsValid(q, SCHEMA) && Plannable(q)
            && Denote(w, PlannedSteps(q)).Err? && Denote(w, PlannedSteps(q)).error.UnknownAlias?
  {
    Declared();
    assert [SELF][..0] == [];
    assert NestedErrors([SELF], SCHEMA, INNER_SCOPE) == [];
    WithoutValid([SELF]);
    WithoutPlan([SELF]);
    var prefix := [ResolveAll("a", "A"), HopTo("B")];
    PrefixReachesRow(w);
    SelfComparisonFails(w, prefix, Without([SELF]), SELF);
  }

  lemma PrefixReachesRow(w: World)
    requires w.t == TABLES && AllServed(w)
    ensures var prefix := [ResolveAll("a", "A"), HopTo("B")];
            && Denote(w, prefix).Ok? && Denote(w, prefix).value != {} && ScopeOf(prefix) == Scope({"a", "b"}, {"e"})
  {
    var prefix := [ResolveAll("a", "A"), HopTo("B")];
    TablesAreClean();
    RowStartsAtA(w.parse);
    RowAnswers(w.parse, ResolveAll("a", "A"), "B");
    PrefixScope();
    WellScopedNeverFails(w, prefix);
    DistributedIsGlobal(w, prefix, ROW);
  }

  lemma PrefixScope()
    ensures var prefix := [ResolveAll("a", "A"), HopTo("B")]; WellScoped(prefix) && NotExistsOutgoing(prefix) && ScopeOf(prefix) == Scope({"a", "b"}, {"e"})
  {
    var prefix := [ResolveAll("a", "A"), HopTo("B")];
    assert prefix[..1] == [ResolveAll("a", "A")] && prefix[..1][..0] == [];
    assert ScopeOf(prefix[..1]) == Scope({"a"}, {});
  }
}
