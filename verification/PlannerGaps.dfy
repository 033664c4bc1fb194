/** What the planner reads of an accepted query, and what its plan therefore answers. */
module PlannerGaps {
  import opened Basics
  import opened GraphModel
  import opened FilterEval
  import opened Plan
  import opened GlobalAnswer
  import opened QueryAst
  import opened Validation
  import opened Planning
  import opened QueryMeaning
  import opened QuerySoundness

  // ---------------------------------------------------------------- what the planner reads

  /** Of the inline filters only the first one of the start node is read. */
  function ReadFilters(i: nat, filters: seq<PropertyFilter>): seq<PropertyFilter> {
    if i == 0 && filters != [] then [filters[0]] else []
  }

  function UnreadFilters(i: nat, filters: seq<PropertyFilter>): seq<PropertyFilter> {
    if i == 0 && filters != [] then filters[1..] else filters
  }

  function ReadStep(i: nat, step: PatternStep): PatternStep {
    match step
    case NodeStep(node) => NodeStep(node.(propertyFilters := ReadFilters(i, node.propertyFilters)))
    case EdgeStep(_) => step
  }

  function ReadPattern(pattern: seq<PatternStep>): seq<PatternStep> {
    seq(|pattern|, i requires 0 <= i < |pattern| => ReadStep(i, pattern[i]))
  }

  /** Some step of the plan takes the WHERE filters of this alias. */
  ghost predicate RoutedAlias(pattern: seq<PatternStep>, alias: string)
    requires IsChain(pattern)
  {
    exists k :: 0 <= k <= HopCount(pattern) && NodeAt(pattern, k).alias == alias && NodeAt(pattern, k).labelName.Some?
                && (k == 0 ==> NodeAt(pattern, 0).propertyFilters == [])
  }

  /** Dropped: comparisons outside NOT EXISTS, and property conditions on edges, on
      unlabelled nodes, and on a start node that already has an inline filter. */
  ghost predicate IsRouted(pattern: seq<PatternStep>, c: WhereCondition)
    requires IsChain(pattern)
  {
    c.NotExists? || (c.PropertyCondition? && RoutedAlias(pattern, c.alias))
  }

  /** Inside NOT EXISTS only conditions that name the subquery's own edge are read. */
  predicate NamesInner(c: WhereCondition, inner: Option<string>) {
    match c
    case PropertyCondition(alias, _) => IsInner(alias, inner)
    case PropertyComparison(left, _, right) => IsInner(left.alias, inner) || IsInner(right.alias, inner)
    case _ => false
  }

  function ReadConditions(cs: seq<WhereCondition>, inner: Option<string>): seq<WhereCondition> {
    if cs == [] then []
    else
      var n := |cs| - 1;
      ReadConditions(cs[..n], inner) + (if NamesInner(cs[n], inner) then [cs[n]] else [])
  }

  function ReadSubquery(s: ExistsSubquery): ExistsSubquery
    requires IsOneHop(s.pattern)
  {
    s.(whereConditions := ReadConditions(s.whereConditions, s.pattern[1].edge.alias))
  }

  function ReadCondition(c: WhereCondition): WhereCondition {
    if c.NotExists? && IsOneHop(c.subquery.pattern) then NotExists(ReadSubquery(c.subquery)) else c
  }

  ghost function RoutedConditions(pattern: seq<PatternStep>, cs: seq<WhereCondition>): seq<WhereCondition>
    requires IsChain(pattern)
  {
    if cs == [] then []
    else
      var n := |cs| - 1;
      RoutedConditions(pattern, cs[..n]) + (if IsRouted(pattern, cs[n]) then [ReadCondition(cs[n])] else [])
  }

  /** The query without anything the planner does not read. */
  ghost function Enforced(q: Query): Query
    requires IsChain(q.pattern)
  {
    q.(pattern := ReadPattern(q.pattern), whereConditions := RoutedConditions(q.pattern, q.whereConditions))
  }

  // ---------------------------------------------------------------- the read pattern

  lemma ReadChainOf(pattern: seq<PatternStep>, k: nat)
    ensures IsChainOf(ReadPattern(pattern), k) <==> IsChainOf(pattern, k)
  {
    forall i | 0 <= i < |pattern| ensures Alternates(ReadPattern(pattern), i) <==> Alternates(pattern, i) {}
  }

  lemma ReadNode(pattern: seq<PatternStep>, k: nat)
    requires IsChainOf(pattern, k)
    ensures IsChainOf(ReadPattern(pattern), k)
    ensures NodeAt(ReadPattern(pattern), k) ==
            NodeAt(pattern, k).(propertyFilters := ReadFilters(k, NodeAt(pattern, k).propertyFilters))
    ensures k > 0 ==> EdgeAt(ReadPattern(pattern), k) == EdgeAt(pattern, k)
  {
    ReadChainOf(pattern, k);
    assert Alternates(pattern, 2 * k);
    if k > 0 { assert Alternates(pattern, 2 * k - 1); }
  }

  lemma ReadChain(pattern: seq<PatternStep>)
    requires IsChain(pattern)
    ensures IsChain(ReadPattern(pattern)) && HopCount(ReadPattern(pattern)) == HopCount(pattern)
  {
    ReadChainOf(pattern, HopCount(pattern));
  }

  lemma ReadAliases(pattern: seq<PatternStep>, k: nat)
    requires IsChainOf(pattern, k)
    ensures IsChainOf(ReadPattern(pattern), k)
    ensures NodeAliases(ReadPattern(pattern), k) == NodeAliases(pattern, k)
    ensures EdgeAliases(ReadPattern(pattern), k) == EdgeAliases(pattern, k)
  {
    ReadChainOf(pattern, k);
    forall j | 0 <= j <= k
      ensures NodeAt(ReadPattern(pattern), j).alias == NodeAt(pattern, j).alias
    {
      ReadNode(pattern, j);
    }
    forall j | 1 <= j <= k ensures EdgeAt(ReadPattern(pattern), j) == EdgeAt(pattern, j) { ReadNode(pattern, j); }
  }

  lemma ReadDistinct(pattern: seq<PatternStep>)
    requires IsChain(pattern) && DistinctAliases(pattern)
    ensures IsChain(ReadPattern(pattern)) && DistinctAliases(ReadPattern(pattern))
  {
    ReadChain(pattern);
    ReadAliases(pattern, HopCount(pattern));
    forall j | 0 <= j <= HopCount(pattern)
      ensures NodeAt(ReadPattern(pattern), j).alias == NodeAt(pattern, j).alias
    {
      ReadNode(pattern, j);
    }
    forall j | 1 <= j <= HopCount(pattern)
      ensures EdgeAt(ReadPattern(pattern), j) == EdgeAt(pattern, j)
    {
      ReadNode(pattern, j);
    }
  }

  /** The conditions of an accepted query that are not read outside NOT EXISTS: comparisons,
      conditions on typed edges, and those on a start node with an inline filter. */
  lemma UnroutedKinds(q: Query, schema: Schema, c: WhereCondition)
    requires Plannable(q) && IsValid(q, schema) && DistinctAliases(q.pattern) && c in q.whereConditions
    ensures !IsRouted(q.pattern, c) <==>
              || c.AliasComparison? || c.PropertyComparison?
              || (c.PropertyCondition? && IsTypedEdge(q.pattern, HopCount(q.pattern), c.alias))
              || (c.PropertyCondition? && c.alias == NodeAt(q.pattern, 0).alias && NodeAt(q.pattern, 0).propertyFilters != [])
  {
    var n := HopCount(q.pattern);
    if c.PropertyCondition? {
      AcceptedConditionAlias(q, schema, c);
      if j :| 1 <= j <= n && EdgeAt(q.pattern, j).alias == Some(c.alias) && EdgeAt(q.pattern, j).edgeType.Some? {
        assert c.alias in EdgeAliases(q.pattern, n);
        forall k | 0 <= k <= n
          ensures NodeAt(q.pattern, k).alias != c.alias
        {
          assert NodeAt(q.pattern, k).alias in NodeAliases(q.pattern, n);
        }
      } else {
        var k :| 0 <= k <= n && NodeAt(q.pattern, k).alias == c.alias && NodeAt(q.pattern, k).labelName.Some?;
        forall j | 0 <= j <= n && NodeAt(q.pattern, j).alias == c.alias ensures j == k {}
      }
    }
  }

  // ---------------------------------------------------------------- the same plan

  lemma {:induction false} RoutedMembers(pattern: seq<PatternStep>, cs: seq<WhereCondition>, d: WhereCondition)
    requires IsChain(pattern)
    ensures d in RoutedConditions(pattern, cs) <==> exists c :: c in cs && IsRouted(pattern, c) && ReadCondition(c) == d
  {
    if cs != [] {
      var n := |cs| - 1;
      RoutedMembers(pattern, cs[..n], d);
      LastSplits(cs);
    }
  }

  lemma {:induction false} RoutedFilters(pattern: seq<PatternStep>, cs: seq<WhereCondition>, alias: string)
    requires IsChain(pattern)
    ensures FiltersOn(RoutedConditions(pattern, cs), alias) == if RoutedAlias(pattern, alias) then FiltersOn(cs, alias) else []
  {
    if cs != [] {
      var n := |cs| - 1;
      RoutedFilters(pattern, cs[..n], alias);
      var front := RoutedConditions(pattern, cs[..n]);
      if IsRouted(pattern, cs[n]) {
        assert (front + [ReadCondition(cs[n])])[..|front|] == front;
      } else {
        assert RoutedConditions(pattern, cs) == front;
      }
    }
  }

  lemma {:induction false} ReadLiterals(cs: seq<WhereCondition>, inner: Option<string>)
    ensures LiteralConditions(ReadConditions(cs, inner), inner) == LiteralConditions(cs, inner)
    ensures OuterConditions(ReadConditions(cs, inner), inner) == OuterConditions(cs, inner)
  {
    if cs != [] {
      var n := |cs| - 1;
      ReadLiterals(cs[..n], inner);
      var front := ReadConditions(cs[..n], inner);
      if NamesInner(cs[n], inner) {
        assert (front + [cs[n]])[..|front|] == front;
      } else {
        assert ReadConditions(cs, inner) == front;
        assert OuterOf(cs[n], inner).None?;
      }
    }
  }

  /** The anti-join of a subquery does not depend on the conditions it does not read. */
  lemma ReadAntiJoin(s: ExistsSubquery)
    requires IsOneHop(s.pattern)
    ensures AntiJoinOf(ReadSubquery(s)) == AntiJoinOf(s)
  {
    ReadLiterals(s.whereConditions, s.pattern[1].edge.alias);
  }

  lemma {:induction false} RoutedAntiJoins(pattern: seq<PatternStep>, cs: seq<WhereCondition>)
    requires IsChain(pattern) && SubqueriesWellShaped(cs)
    ensures SubqueriesWellShaped(RoutedConditions(pattern, cs))
    ensures AntiJoins(RoutedConditions(pattern, cs)) == AntiJoins(cs)
  {
    if cs != [] {
      var n := |cs| - 1;
      RoutedAntiJoins(pattern, cs[..n]);
      var front := RoutedConditions(pattern, cs[..n]);
      if IsRouted(pattern, cs[n]) {
        assert (front + [ReadCondition(cs[n])])[..|front|] == front;
        if cs[n].NotExists? { ReadAntiJoin(cs[n].subquery); }
      } else {
        assert RoutedConditions(pattern, cs) == front;
      }
    }
  }

  lemma SameFirstStep(q: Query)
    requires IsChain(q.pattern)
    ensures IsChain(Enforced(q).pattern) && FirstStep(Enforced(q)) == FirstStep(q)
  {
    var first := NodeAt(q.pattern, 0);
    ReadChain(q.pattern);
    ReadNode(q.pattern, 0);
    RoutedFilters(q.pattern, q.whereConditions, first.alias);
    assert first.labelName.Some? && first.propertyFilters == [] ==> RoutedAlias(q.pattern, first.alias);
  }

  lemma SameHop(q: Query, k: nat)
    requires IsChain(q.pattern) && 1 <= k <= HopCount(q.pattern) && IsChainOf(q.pattern, k)
    ensures IsChainOf(Enforced(q).pattern, k) && HopAt(Enforced(q), k) == HopAt(q, k)
  {
    ReadNode(q.pattern, k);
    ReadNode(q.pattern, k - 1);
    RoutedFilters(q.pattern, q.whereConditions, NodeAt(q.pattern, k).alias);
    assert NodeAt(q.pattern, k).labelName.Some? ==> RoutedAlias(q.pattern, NodeAt(q.pattern, k).alias);
  }

  lemma {:induction false} SameChain(q: Query, start: PlanStep, k: nat)
    requires IsChain(q.pattern) && k <= HopCount(q.pattern) && IsChainOf(q.pattern, k)
    ensures IsChainOf(Enforced(q).pattern, k) && ChainSteps(Enforced(q), start, k) == ChainSteps(q, start, k)
  {
    ReadChainOf(q.pattern, k);
    if k > 0 {
      SameChain(q, start, k - 1);
      SameHop(q, k);
    }
  }

  /** What the planner does not read leaves no trace in the plan. */
  lemma UnreadLeavesNoTrace(q: Query)
    requires Plannable(q)
    ensures Plannable(Enforced(q)) && PlannedSteps(Enforced(q)) == PlannedSteps(q)
  {
    SameFirstStep(q);
    ReadChain(q.pattern);
    RoutedAntiJoins(q.pattern, q.whereConditions);
    SameChain(q, FirstStep(q).value, HopCount(q.pattern));
  }

  // ---------------------------------------------------------------- what is left is supported

  /** No NOT EXISTS compares its own edge with itself. */
  ghost predicate NoSelfComparison(q: Query) {
    forall s, c :: NotExists(s) in q.whereConditions && IsOneHop(s.pattern) && c in s.whereConditions ==>
      !ComparesInnerWithItself(c, s.pattern[1].edge.alias)
  }

  lemma {:induction false} ReadMembers(cs: seq<WhereCondition>, inner: Option<string>)
    ensures forall c :: c in ReadConditions(cs, inner) <==> c in cs && NamesInner(c, inner)
  {
    if cs != [] {
      ReadMembers(cs[..|cs| - 1], inner);
      LastSplits(cs);
    }
  }

  lemma ReadIsSupported(s: ExistsSubquery, schema: Schema, outer: TypeScope)
    requires NotExistsErrors(s, schema, outer) == [] && IsOneHop(s.pattern)
    requires forall c :: c in s.whereConditions ==> !ComparesInnerWithItself(c, s.pattern[1].edge.alias)
    ensures SupportedSubquery(ReadSubquery(s))
  {
    AcceptedSubquery(s, schema, outer);
    ReadMembers(s.whereConditions, s.pattern[1].edge.alias);
  }

  lemma LeftConditionsSupported(q: Query, schema: Schema, d: WhereCondition)
    requires Plannable(q) && IsValid(q, schema) && NoSelfComparison(q) && d in Enforced(q).whereConditions
    ensures IsChain(Enforced(q).pattern) && SupportedCondition(Enforced(q), d)
  {
    ReadChain(q.pattern);
    RoutedMembers(q.pattern, q.whereConditions, d);
    var c :| c in q.whereConditions && IsRouted(q.pattern, c) && ReadCondition(c) == d;
    if c.NotExists? {
      ValidScope(q, schema);
      assert NotExists(c.subquery) in q.whereConditions;
      ReadIsSupported(c.subquery, schema, PatternScope(q.pattern));
    } else {
      var k :| 0 <= k <= HopCount(q.pattern) && NodeAt(q.pattern, k).alias == c.alias
               && NodeAt(q.pattern, k).labelName.Some?;
      ReadNode(q.pattern, k);
    }
  }

  lemma OneStartFilterLeft(q: Query)
    requires Plannable(q) && DistinctAliases(q.pattern)
    ensures IsChain(Enforced(q).pattern) && AtMostOneStartFilter(Enforced(q))
  {
    ReadChain(q.pattern);
    ReadNode(q.pattern, 0);
    var first := NodeAt(q.pattern, 0);
    RoutedFilters(q.pattern, q.whereConditions, first.alias);
    if first.propertyFilters != [] {
      if k :| 1 <= k <= HopCount(q.pattern) && NodeAt(q.pattern, k).alias == first.alias { assert false; }
      assert !RoutedAlias(q.pattern, first.alias);
    }
  }

  /** What is left of every accepted, plannable query with distinct aliases is supported,
      as long as no NOT EXISTS compares its own edge with itself. */
  lemma EnforcedIsSupported(q: Query, schema: Schema)
    requires Plannable(q) && IsValid(q, schema) && DistinctAliases(q.pattern) && NoSelfComparison(q)
    ensures Supported(Enforced(q))
  {
    UnreadLeavesNoTrace(q);
    ReadChain(q.pattern);
    ReadDistinct(q.pattern);
    OneStartFilterLeft(q);
    forall k | 1 <= k <= HopCount(q.pattern) ensures NodeAt(Enforced(q).pattern, k).propertyFilters == [] {
      ReadNode(q.pattern, k);
    }
    forall d | d in Enforced(q).whereConditions ensures SupportedCondition(Enforced(q), d) {
      LeftConditionsSupported(q, schema, d);
    }
  }

  // ---------------------------------------------------------------- the exact answer

  /** Every inline filter the planner does not read holds of the row's node. */
  ghost predicate UnreadFiltersHold(t: Tables, parse: TsParser, pattern: seq<PatternStep>, n: nat, x: Binding)
    requires IsChainOf(pattern, n)
  {
    forall k :: 0 <= k <= n ==>
      && NodeAt(pattern, k).alias in x.nodes
      && Passes(t, parse, x.nodes[NodeAt(pattern, k).alias], UnreadFilters(k, NodeAt(pattern, k).propertyFilters))
  }

  ghost predicate UnroutedConditionsHold(t: Tables, parse: TsParser, q: Query, x: Binding)
    requires IsChain(q.pattern)
  {
    forall c :: c in q.whereConditions && !IsRouted(q.pattern, c) ==> Holds(t, parse, x, c)
  }

  /** Everything outside NOT EXISTS that the planner does not read holds of the row. */
  ghost predicate UnreadHolds(t: Tables, parse: TsParser, q: Query, x: Binding)
    requires IsChain(q.pattern)
  {
    UnreadFiltersHold(t, parse, q.pattern, HopCount(q.pattern), x) && UnroutedConditionsHold(t, parse, q, x)
  }

  /** Every NOT EXISTS holds of the row without the conditions the planner does not read. */
  ghost predicate ReadNotExistsHold(t: Tables, parse: TsParser, q: Query, x: Binding) {
    forall s :: NotExists(s) in q.whereConditions && IsOneHop(s.pattern) ==> NoSuchEdge(t, parse, x, ReadSubquery(s))
  }

  lemma ReadNodeMatches(t: Tables, parse: TsParser, node: NodePattern, k: nat, v: NodeId)
    requires UniqueIds(t)
    ensures NodeMatches(t, parse, node, v) <==>
              && NodeMatches(t, parse, node.(propertyFilters := ReadFilters(k, node.propertyFilters)), v)
              && Passes(t, parse, v, UnreadFilters(k, node.propertyFilters))
  {
    var filters := node.propertyFilters;
    assert ReadFilters(k, filters) + UnreadFilters(k, filters) == filters;
    forall r | r in t.nodes && r.id == v
      ensures AllHold(parse, r.properties, filters) <==>
                AllHold(parse, r.properties, ReadFilters(k, filters))
                && AllHold(parse, r.properties, UnreadFilters(k, filters))
    {
      AllHoldConcat(parse, r.properties, ReadFilters(k, filters), UnreadFilters(k, filters));
    }
    forall r, s | r in t.nodes && s in t.nodes && r.id == s.id ensures r == s { OnlyRow(t.nodes, r, s); }
  }

  lemma ReadMatch(
      t: Tables, parse: TsParser, pattern: seq<PatternStep>, n: nat, vs: seq<NodeId>, ps: seq<seq<EdgeRow>>, x: Binding)
    requires UniqueIds(t) && IsChainOf(pattern, n) && IsChainOf(ReadPattern(pattern), n) && Binds(pattern, n, vs, ps, x)
    ensures IsMatch(t, parse, pattern, n, vs, ps) <==>
              IsMatch(t, parse, ReadPattern(pattern), n, vs, ps) && UnreadFiltersHold(t, parse, pattern, n, x)
  {
    forall k | 0 <= k <= n
      ensures NodeMatches(t, parse, NodeAt(pattern, k), vs[k]) <==>
                && NodeMatches(t, parse, NodeAt(ReadPattern(pattern), k), vs[k])
                && Passes(t, parse, vs[k], UnreadFilters(k, NodeAt(pattern, k).propertyFilters))
    {
      ReadNode(pattern, k);
      ReadNodeMatches(t, parse, NodeAt(pattern, k), k, vs[k]);
    }
    forall k | 1 <= k <= n ensures EdgeAt(ReadPattern(pattern), k) == EdgeAt(pattern, k) { ReadNode(pattern, k); }
  }

  lemma ReadBinds(pattern: seq<PatternStep>, n: nat, vs: seq<NodeId>, ps: seq<seq<EdgeRow>>, x: Binding)
    requires IsChainOf(pattern, n) && IsChainOf(ReadPattern(pattern), n)
    ensures Binds(ReadPattern(pattern), n, vs, ps, x) <==> Binds(pattern, n, vs, ps, x)
  {
    ReadAliases(pattern, n);
    forall j | 0 <= j <= n
      ensures NodeAt(ReadPattern(pattern), j).alias == NodeAt(pattern, j).alias
    {
      ReadNode(pattern, j);
    }
    forall j | 1 <= j <= n ensures EdgeAt(ReadPattern(pattern), j) == EdgeAt(pattern, j) { ReadNode(pattern, j); }
  }

  lemma ReadSomeMatch(t: Tables, parse: TsParser, pattern: seq<PatternStep>, n: nat, x: Binding)
    requires UniqueIds(t) && IsChainOf(pattern, n) && IsChainOf(ReadPattern(pattern), n)
    ensures SomeMatch(t, parse, pattern, n, x) <==>
              SomeMatch(t, parse, ReadPattern(pattern), n, x) && UnreadFiltersHold(t, parse, pattern, n, x)
  {
    if vs, ps :| IsMatch(t, parse, pattern, n, vs, ps) && Binds(pattern, n, vs, ps, x) {
      ReadBinds(pattern, n, vs, ps, x);
      ReadMatch(t, parse, pattern, n, vs, ps, x);
    }
    if vs, ps :| IsMatch(t, parse, ReadPattern(pattern), n, vs, ps) && Binds(ReadPattern(pattern), n, vs, ps, x) {
      ReadBinds(pattern, n, vs, ps, x);
      ReadMatch(t, parse, pattern, n, vs, ps, x);
    }
  }

  /** A NOT EXISTS that reads fewer conditions is refuted by more edges. */
  lemma ReadIsStricter(t: Tables, parse: TsParser, x: Binding, s: ExistsSubquery)
    requires IsOneHop(s.pattern) && NoSuchEdge(t, parse, x, ReadSubquery(s))
    ensures NoSuchEdge(t, parse, x, s)
  {
    var inner := s.pattern[1].edge.alias;
    ReadMembers(s.whereConditions, inner);
    forall c | c in s.whereConditions ensures OuterReadable(t, x, inner, c) {
      if OuterOf(c, inner).Some? {
        assert c in ReadSubquery(s).whereConditions;
        assert OuterReadable(t, x, inner, c);
      }
    }
    forall e | EdgeSatisfies(t, parse, x, s, e) ensures EdgeSatisfies(t, parse, x, ReadSubquery(s), e) {}
  }

  lemma EnforcedConditionsHold(t: Tables, parse: TsParser, q: Query, x: Binding)
    requires Plannable(q)
    ensures (forall d :: d in Enforced(q).whereConditions ==> Holds(t, parse, x, d)) <==>
              && ReadNotExistsHold(t, parse, q, x)
              && forall c :: c in q.whereConditions && IsRouted(q.pattern, c) && !c.NotExists? ==> Holds(t, parse, x, c)
  {
    forall d
      ensures d in Enforced(q).whereConditions <==>
                exists c :: c in q.whereConditions && IsRouted(q.pattern, c) && ReadCondition(c) == d
    {
      RoutedMembers(q.pattern, q.whereConditions, d);
    }
    if forall d :: d in Enforced(q).whereConditions ==> Holds(t, parse, x, d) {
      forall s | NotExists(s) in q.whereConditions && IsOneHop(s.pattern)
        ensures NoSuchEdge(t, parse, x, ReadSubquery(s))
      {
        assert ReadCondition(NotExists(s)) in Enforced(q).whereConditions;
      }
      forall c | c in q.whereConditions && IsRouted(q.pattern, c) && !c.NotExists? ensures Holds(t, parse, x, c) {
        assert ReadCondition(c) in Enforced(q).whereConditions;
      }
    }
    if ReadNotExistsHold(t, parse, q, x) && forall c :: c in q.whereConditions && IsRouted(q.pattern, c) && !c.NotExists? ==> Holds(t, parse, x, c) {
      forall d | d in Enforced(q).whereConditions ensures Holds(t, parse, x, d) {
        var c :| c in q.whereConditions && IsRouted(q.pattern, c) && ReadCondition(c) == d;
        if c.NotExists? { assert NotExists(c.subquery) in q.whereConditions; }
      }
    }
  }

  lemma ConditionsSplit(t: Tables, parse: TsParser, q: Query, x: Binding)
    requires Plannable(q)
    ensures (forall c :: c in q.whereConditions ==> Holds(t, parse, x, c)) ==> UnroutedConditionsHold(t, parse, q, x)
    ensures ReadNotExistsHold(t, parse, q, x) ==>
              ((forall c :: c in q.whereConditions ==> Holds(t, parse, x, c)) <==>
                (forall d :: d in Enforced(q).whereConditions ==> Holds(t, parse, x, d)) && UnroutedConditionsHold(t, parse, q, x))
    ensures (forall d :: d in Enforced(q).whereConditions ==> Holds(t, parse, x, d)) ==>
      ReadNotExistsHold(t, parse, q, x)
  {
    EnforcedConditionsHold(t, parse, q, x);
    if ReadNotExistsHold(t, parse, q, x) {
      forall s | NotExists(s) in q.whereConditions ensures Holds(t, parse, x, NotExists(s)) {
        ReadIsStricter(t, parse, x, s);
      }
    }
    forall c | c in q.whereConditions && !IsRouted(q.pattern, c) ensures !c.NotExists? {}
  }

  /** How the query and what is left of it differ, row by row: what is left admits the rows
      that fail an unread filter or condition, and misses those that survive a NOT EXISTS
      only by a condition it does not read. */
  lemma MeaningAgainstEnforced(t: Tables, parse: TsParser, q: Query, x: Binding)
    requires Plannable(q) && UniqueIds(t)
    ensures IsChain(Enforced(q).pattern)
    ensures Means(t, parse, q, x) && ReadNotExistsHold(t, parse, q, x) <==>
              Means(t, parse, Enforced(q), x) && UnreadHolds(t, parse, q, x)
    ensures Means(t, parse, Enforced(q), x) ==> ReadNotExistsHold(t, parse, q, x)
    ensures Means(t, parse, q, x) ==> UnreadHolds(t, parse, q, x)
  {
    ReadChain(q.pattern);
    ReadSomeMatch(t, parse, q.pattern, HopCount(q.pattern), x);
    ConditionsSplit(t, parse, q, x);
    MeansIsMatch(t, parse, q, x);
    MeansIsMatch(t, parse, Enforced(q), x);
  }

  lemma MeansIsMatch(t: Tables, parse: TsParser, q: Query, x: Binding)
    requires IsChain(q.pattern)
    ensures Means(t, parse, q, x) <==>
              SomeMatch(t, parse, q.pattern, HopCount(q.pattern), x)
              && forall c :: c in q.whereConditions ==> Holds(t, parse, x, c)
  {
  }

  /** The exact answer of every accepted, plannable query with distinct aliases that does
      not compare a NOT EXISTS edge with itself: the rows of what is left of it, up to
      target labels and what the index holds. */
  lemma AnswerIsEnforced(t: Tables, parse: TsParser, q: Query, x: Binding)
    requires Plannable(q) && IsValid(q, t.schema) && DistinctAliases(q.pattern) && NoSelfComparison(q) && CleanTables(t)
    ensures IsChain(Enforced(q).pattern)
    ensures InAnswer(t, parse, PlannedSteps(q), x) && TargetsLabelled(t, q.pattern, HopCount(q.pattern), x)
            <==> Means(t, parse, Enforced(q), x) && StartFound(t, q, x)
    ensures InAnswer(t, parse, PlannedSteps(q), x) ==> StartFound(t, q, x)
    ensures Means(t, parse, Enforced(q), x) ==> TargetsLabelled(t, q.pattern, HopCount(q.pattern), x)
  {
    ReadChain(q.pattern);
    EnforcedIsSupported(q, t.schema);
    UnreadLeavesNoTrace(q);
    SameFirstStep(q);
    PlanAgainstMeaning(t, parse, Enforced(q), x);
    SameLabels(t, q.pattern, HopCount(q.pattern), x);
    ReadNode(q.pattern, 0);
  }

  lemma SameLabels(t: Tables, pattern: seq<PatternStep>, n: nat, x: Binding)
    requires IsChainOf(pattern, n) && IsChainOf(ReadPattern(pattern), n)
    ensures TargetsLabelled(t, ReadPattern(pattern), n, x) <==> TargetsLabelled(t, pattern, n, x)
  {
    forall j | 1 <= j <= n
      ensures NodeAt(ReadPattern(pattern), j).alias == NodeAt(pattern, j).alias
      ensures NodeAt(ReadPattern(pattern), j).labelName == NodeAt(pattern, j).labelName
    {
      ReadNode(pattern, j);
    }
  }

  /** Where edge types imply target labels and the index is usable, the superfluous rows of
      an accepted query are exactly those that fail something unread outside NOT EXISTS, and
      the missing rows exactly those that meet an edge only unread conditions would excuse. */
  lemma SuperfluousAndMissingRows(t: Tables, parse: TsParser, q: Query, x: Binding)
    requires Plannable(q) && IsValid(q, t.schema) && DistinctAliases(q.pattern) && NoSelfComparison(q) && CleanTables(t)
    requires LabelsImplied(t, q.pattern) && LookupUsable(t, FirstStep(q).value)
    ensures IsChain(Enforced(q).pattern)
    ensures InAnswer(t, parse, PlannedSteps(q), x) <==> Means(t, parse, Enforced(q), x)
    ensures InAnswer(t, parse, PlannedSteps(q), x) && !Means(t, parse, q, x) <==>
              InAnswer(t, parse, PlannedSteps(q), x) && !UnreadHolds(t, parse, q, x)
    ensures Means(t, parse, q, x) && !InAnswer(t, parse, PlannedSteps(q), x) <==>
              Means(t, parse, q, x) && !ReadNotExistsHold(t, parse, q, x)
  {
    ReadChain(q.pattern);
    EnforcedIsSupported(q, t.schema);
    UnreadLeavesNoTrace(q);
    SameFirstStep(q);
    ReadLabelsImplied(t, q.pattern);
    PlanMeansQuery(t, parse, Enforced(q), x);
    MeaningAgainstEnforced(t, parse, q, x);
  }

  lemma ReadLabelsImplied(t: Tables, pattern: seq<PatternStep>)
    requires IsChain(pattern) && IsChain(ReadPattern(pattern)) && LabelsImplied(t, pattern)
    ensures LabelsImplied(t, ReadPattern(pattern))
  {
    forall k | 1 <= k <= HopCount(pattern)
      ensures NodeAt(ReadPattern(pattern), k).labelName == NodeAt(pattern, k).labelName
      ensures EdgeAt(ReadPattern(pattern), k) == EdgeAt(pattern, k)
    {
      ReadNode(pattern, k);
    }
  }
}
