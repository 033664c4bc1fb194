/** What validation buys at run time, and the end-to-end statement for a served cluster. */
module QuerySoundness {
  import opened Basics
  import opened GraphModel
  import opened Plan
  import opened Denotation
  import opened GlobalAnswer
  import opened DistributionLaws
  import opened QueryAst
  import opened Validation
  import opened Planning
  import opened QueryMeaning

  // ---------------------------------------------------------------- scopes of the pattern and of the plan

  lemma {:induction false} ChainScope(q: Query, start: PlanStep, k: nat)
    requires IsChainOf(q.pattern, k) && IsChainOf(q.pattern, 0)
    requires (start.ResolveAll? || start.ResolveStart?) && start.alias == NodeAt(q.pattern, 0).alias
    ensures ScopeOf(ChainSteps(q, start, k)) == Scope(NodeAliases(q.pattern, k), EdgeAliases(q.pattern, k))
  {
    if k == 0 {
      ScopeSnoc([], start);
      assert [] + [start] == [start];
    } else {
      ChainScope(q, start, k - 1);
      ScopeOfLonger(q, ChainSteps(q, start, k - 1), k);
    }
  }

  lemma ScopeOfLonger(q: Query, steps: seq<PlanStep>, k: nat)
    requires k > 0 && IsChainOf(q.pattern, k) && IsChainOf(q.pattern, k - 1)
    requires ScopeOf(steps) == Scope(NodeAliases(q.pattern, k - 1), EdgeAliases(q.pattern, k - 1))
    ensures ScopeOf(steps + [HopAt(q, k)]) == Scope(NodeAliases(q.pattern, k), EdgeAliases(q.pattern, k))
  {
    AliasesSnoc(q.pattern, k);
    ScopeSnoc(steps, HopAt(q, k));
    HopScope(q, k, ScopeOf(steps));
  }

  lemma ScopeSnoc(steps: seq<PlanStep>, step: PlanStep)
    ensures ScopeOf(steps + [step]) == ScopeAfter(ScopeOf(steps), step)
  {
    assert (steps + [step])[..|steps|] == steps;
  }

  lemma HopScope(q: Query, k: nat, sc: Scope)
    requires k > 0 && IsChainOf(q.pattern, k) && IsChainOf(q.pattern, k - 1)
    ensures ScopeAfter(sc, HopAt(q, k)) ==
            Scope(sc.nodes + {NodeAt(q.pattern, k).alias}, sc.edges + (if EdgeAt(q.pattern, k).alias.Some? then {EdgeAt(q.pattern, k).alias.value} else {}))
  {
  }

  lemma {:induction false} AntiJoinsKeepScope(chain: seq<PlanStep>, joins: seq<PlanStep>)
    requires forall i :: 0 <= i < |joins| ==> joins[i].AntiJoin?
    ensures ScopeOf(chain + joins) == ScopeOf(chain)
  {
    if joins == [] {
      assert chain + joins == chain;
    } else {
      var n := |joins| - 1;
      AntiJoinsKeepScope(chain, joins[..n]);
      assert (chain + joins)[..|chain + joins| - 1] == chain + joins[..n];
    }
  }

  /** Node aliases and typed edge aliases met in the first `i` pattern steps. */
  ghost predicate ScopeWithin(scope: TypeScope, nodes: set<string>, edges: set<string>) {
    scope.boundNodes == nodes && scope.nodeLabels.Keys <= nodes && scope.edgeTypes.Keys <= edges
  }

  lemma {:induction false} PatternScopeWithin(pattern: seq<PatternStep>, k: nat)
    requires IsChainOf(pattern, k)
    ensures ScopeWithin(PatternScope(pattern[..2 * k + 1]), NodeAliases(pattern, k), EdgeAliases(pattern, k))
  {
    if k == 0 {
      StartScopeWithin(pattern);
    } else {
      PatternScopeWithin(pattern, k - 1);
      HopScopeWithin(pattern, k);
    }
  }

  lemma StartScopeWithin(pattern: seq<PatternStep>)
    requires IsChainOf(pattern, 0)
    ensures ScopeWithin(PatternScope(pattern[..1]), NodeAliases(pattern, 0), EdgeAliases(pattern, 0))
  {
    assert Alternates(pattern, 0);
    assert pattern[..1][..0] == [];
    assert PatternScope(pattern[..1]) == BindStep(PatternScope([]), pattern[0]);
    assert NodeAliases(pattern, 0) == {NodeAt(pattern, 0).alias};
  }

  lemma HopScopeWithin(pattern: seq<PatternStep>, k: nat)
    requires k > 0 && IsChainOf(pattern, k) && IsChainOf(pattern, k - 1)
    requires ScopeWithin(PatternScope(pattern[..2 * k - 1]), NodeAliases(pattern, k - 1), EdgeAliases(pattern, k - 1))
    ensures ScopeWithin(PatternScope(pattern[..2 * k + 1]), NodeAliases(pattern, k), EdgeAliases(pattern, k))
  {
    AliasesSnoc(pattern, k);
    TwoMoreSteps(pattern, 2 * k - 1);
    assert Alternates(pattern, 2 * k - 1) && Alternates(pattern, 2 * k);
  }

  lemma TwoMoreSteps(pattern: seq<PatternStep>, i: nat)
    requires i + 1 < |pattern|
    ensures PatternScope(pattern[..i + 2]) == BindStep(BindStep(PatternScope(pattern[..i]), pattern[i]), pattern[i + 1])
  {
    assert pattern[..i + 2][..i + 1] == pattern[..i + 1];
    TakeNext(pattern, i);
  }

  // ---------------------------------------------------------------- what an accepted query satisfies

  /** Both sides of the comparison are properties of the candidate edge. */
  predicate ComparesInnerWithItself(c: WhereCondition, inner: Option<string>) {
    c.PropertyComparison? && IsInner(c.left.alias, inner) && IsInner(c.right.alias, inner)
  }

  predicate Typed(scope: TypeScope, alias: string) {
    alias in scope.nodeLabels || alias in scope.edgeTypes
  }

  /** An accepted NOT EXISTS leaves between bound aliases and reads bound aliases. */
  lemma AcceptedSubquery(s: ExistsSubquery, schema: Schema, outer: TypeScope)
    requires NotExistsErrors(s, schema, outer) == []
    ensures IsOneHop(s.pattern)
    ensures AntiJoinOf(s).direction == Outgoing && AntiJoinOf(s).fromAlias in outer.boundNodes
            && AntiJoinOf(s).toAlias in outer.boundNodes
    ensures forall c :: c in s.whereConditions && OuterOf(c, s.pattern[1].edge.alias).Some? ==>
              if ComparesInnerWithItself(c, s.pattern[1].edge.alias)
              then s.pattern[1].edge.alias == Some(OuterOf(c, s.pattern[1].edge.alias).value.outer.alias)
              else Typed(outer, OuterOf(c, s.pattern[1].edge.alias).value.outer.alias)
  {
    var inner := BindEdge(outer, s.pattern[1].edge);
    NestedIsAll(s.whereConditions, schema, inner);
    NoConditionErrors(s.whereConditions, schema, inner, false);
    forall c | c in s.whereConditions && c.PropertyComparison?
      ensures Typed(inner, c.left.alias) && Typed(inner, c.right.alias)
    {
      assert ConditionErrors(c, schema, inner, false) == [];
    }
  }

  /** Every comparison of the inner edge with itself names an alias the pattern also binds. */
  ghost predicate SelfComparisonsBound(q: Query)
    requires IsChain(q.pattern)
  {
    forall s, c :: NotExists(s) in q.whereConditions && IsOneHop(s.pattern) && c in s.whereConditions
                   && ComparesInnerWithItself(c, s.pattern[1].edge.alias) ==>
      c.right.alias in NodeAliases(q.pattern, HopCount(q.pattern)) + EdgeAliases(q.pattern, HopCount(q.pattern))
  }

  ghost predicate AntiJoinInScope(a: AntiJoinStep, sc: Scope) {
    StepInScope(AntiJoin(a), sc)
  }

  ghost function PlanScope(q: Query): Scope
    requires IsChain(q.pattern)
  {
    Scope(NodeAliases(q.pattern, HopCount(q.pattern)), EdgeAliases(q.pattern, HopCount(q.pattern)))
  }

  lemma ValidScope(q: Query, schema: Schema)
    requires IsChain(q.pattern) && IsValid(q, schema)
    ensures ScopeWithin(PatternScope(q.pattern), PlanScope(q).nodes, PlanScope(q).edges)
    ensures forall s :: NotExists(s) in q.whereConditions ==> NotExistsErrors(s, schema, PatternScope(q.pattern)) == []
  {
    PatternScopeWithin(q.pattern, HopCount(q.pattern));
    assert q.pattern[..2 * HopCount(q.pattern) + 1] == q.pattern;
    NoConditionErrors(q.whereConditions, schema, PatternScope(q.pattern), true);
    forall s | NotExists(s) in q.whereConditions ensures NotExistsErrors(s, schema, PatternScope(q.pattern)) == [] {
      assert ConditionErrors(NotExists(s), schema, PatternScope(q.pattern), true) == [];
    }
  }

  ghost predicate SubquerySelfBound(s: ExistsSubquery, sc: Scope)
    requires IsOneHop(s.pattern)
  {
    forall c :: c in s.whereConditions && ComparesInnerWithItself(c, s.pattern[1].edge.alias) ==> InScope(c.right.alias, sc)
  }

  lemma SubqueryInScopeIff(s: ExistsSubquery, schema: Schema, outer: TypeScope, sc: Scope)
    requires NotExistsErrors(s, schema, outer) == [] && ScopeWithin(outer, sc.nodes, sc.edges)
    ensures IsOneHop(s.pattern)
    ensures AntiJoinInScope(AntiJoinOf(s), sc) <==> SubquerySelfBound(s, sc)
  {
    AcceptedSubquery(s, schema, outer);
    var inner, outers := s.pattern[1].edge.alias, AntiJoinOf(s).outerConditions;
    OuterConditionsMembers(s.whereConditions, inner);
    if SubquerySelfBound(s, sc) {
      forall i | 0 <= i < |outers| ensures InScope(outers[i].outer.alias, sc) {
        assert outers[i] in outers;
        var c :| c in s.whereConditions && OuterOf(c, inner) == Some(outers[i]);
      }
    }
    if AntiJoinInScope(AntiJoinOf(s), sc) {
      forall c | c in s.whereConditions && ComparesInnerWithItself(c, inner) ensures InScope(c.right.alias, sc) {
        var o := OuterOf(c, inner).value;
        assert o in outers;
        var i :| 0 <= i < |outers| && outers[i] == o;
      }
    }
  }

  // ---------------------------------------------------------------- scope safety of accepted queries

  ghost predicate AllAntiJoinsInScope(joins: seq<PlanStep>, sc: Scope) {
    forall a :: AntiJoin(a) in joins ==> AntiJoinInScope(a, sc)
  }

  lemma ChainWellScoped(q: Query)
    requires Plannable(q)
    ensures WellScoped(ChainSteps(q, FirstStep(q).value, HopCount(q.pattern)))
  {
    var start, n := FirstStep(q).value, HopCount(q.pattern);
    ChainStepsLaws(q, start, n);
    forall i | 1 <= i <= n ensures StepInScope(ChainSteps(q, start, n)[i], ScopeOf(ChainSteps(q, start, n)[..i])) {
      HopInScope(q, start, n, i - 1);
    }
  }

  lemma PrefixScope(q: Query, start: PlanStep, n: nat, k: nat)
    requires IsChainOf(q.pattern, n) && IsChainOf(q.pattern, k) && IsChainOf(q.pattern, 0) && k <= n
    requires (start.ResolveAll? || start.ResolveStart?) && start.alias == NodeAt(q.pattern, 0).alias
    ensures |ChainSteps(q, start, n)| == n + 1
    ensures ScopeOf(ChainSteps(q, start, n)[..k + 1]) == Scope(NodeAliases(q.pattern, k), EdgeAliases(q.pattern, k))
  {
    ChainStepsPrefix(q, start, n, k);
    ChainScope(q, start, k);
  }

  lemma HopInScope(q: Query, start: PlanStep, n: nat, k: nat)
    requires IsChainOf(q.pattern, n) && IsChainOf(q.pattern, k) && IsChainOf(q.pattern, 0) && k < n
    requires (start.ResolveAll? || start.ResolveStart?) && start.alias == NodeAt(q.pattern, 0).alias
    ensures |ChainSteps(q, start, n)| == n + 1
    ensures StepInScope(ChainSteps(q, start, n)[k + 1], ScopeOf(ChainSteps(q, start, n)[..k + 1]))
  {
    ChainStepAt(q, start, n, k + 1);
    PrefixScope(q, start, n, k);
    HopReadsBound(q, k + 1);
  }

  lemma ChainStepAt(q: Query, start: PlanStep, n: nat, j: nat)
    requires IsChainOf(q.pattern, n) && 1 <= j <= n
    ensures |ChainSteps(q, start, n)| == n + 1 && IsChainOf(q.pattern, j) && ChainSteps(q, start, n)[j] == HopAt(q, j)
  {
    ChainStepsLaws(q, start, n);
  }

  lemma HopReadsBound(q: Query, k: nat)
    requires k > 0 && IsChainOf(q.pattern, k) && IsChainOf(q.pattern, k - 1)
    ensures StepInScope(HopAt(q, k), Scope(NodeAliases(q.pattern, k - 1), EdgeAliases(q.pattern, k - 1)))
  {
    assert NodeAt(q.pattern, k - 1).alias in NodeAliases(q.pattern, k - 1);
  }

  lemma WellScopedWithJoins(chain: seq<PlanStep>, joins: seq<PlanStep>)
    requires WellScoped(chain) && forall i :: 0 <= i < |joins| ==> joins[i].AntiJoin?
    ensures WellScoped(chain + joins) <==> AllAntiJoinsInScope(joins, ScopeOf(chain))
  {
    var steps, sc := chain + joins, ScopeOf(chain);
    forall i | 1 <= i < |chain| ensures StepInScope(steps[i], ScopeOf(steps[..i])) {
      assert steps[..i] == chain[..i] && steps[i] == chain[i];
      assert StepInScope(chain[i], ScopeOf(chain[..i]));
    }
    forall j | 0 <= j < |joins|
      ensures StepInScope(steps[|chain| + j], ScopeOf(steps[..|chain| + j])) <==> StepInScope(joins[j], sc)
    {
      JoinStep(chain, joins, j);
    }
    JoinsInScope(joins, sc);
    if forall j :: 0 <= j < |joins| ==> StepInScope(joins[j], sc) {
      forall i | 1 <= i < |steps| ensures StepInScope(steps[i], ScopeOf(steps[..i])) {
        if i >= |chain| { assert steps[|chain| + (i - |chain|)] == steps[i] && StepInScope(joins[i - |chain|], sc); }
      }
    }
  }

  lemma JoinStep(chain: seq<PlanStep>, joins: seq<PlanStep>, j: nat)
    requires j < |joins| && forall i :: 0 <= i < |joins| ==> joins[i].AntiJoin?
    ensures (chain + joins)[|chain| + j] == joins[j] && ScopeOf((chain + joins)[..|chain| + j]) == ScopeOf(chain)
  {
    assert (chain + joins)[..|chain| + j] == chain + joins[..j];
    AntiJoinsKeepScope(chain, joins[..j]);
  }

  lemma JoinsInScope(joins: seq<PlanStep>, sc: Scope)
    requires forall i :: 0 <= i < |joins| ==> joins[i].AntiJoin?
    ensures AllAntiJoinsInScope(joins, sc) <==> forall j :: 0 <= j < |joins| ==> StepInScope(joins[j], sc)
  {
    if AllAntiJoinsInScope(joins, sc) {
      forall j | 0 <= j < |joins| ensures StepInScope(joins[j], sc) {
        assert AntiJoin(joins[j].step) in joins;
        assert AntiJoinInScope(joins[j].step, sc);
      }
    }
  }

  /** An accepted query never reads an unbound alias, except where NOT EXISTS compares its
      own edge with itself: that alias must also be bound by the pattern. */
  lemma ValidIsWellScopedIff(q: Query, schema: Schema)
    requires Plannable(q) && IsValid(q, schema)
    ensures WellScoped(PlannedSteps(q)) <==> SelfComparisonsBound(q)
  {
    var chain := ChainSteps(q, FirstStep(q).value, HopCount(q.pattern));
    ChainWellScoped(q);
    ChainScope(q, FirstStep(q).value, HopCount(q.pattern));
    AntiJoinsMembers(q.whereConditions);
    WellScopedWithJoins(chain, AntiJoins(q.whereConditions));
    JoinsInScopeIff(q, schema);
  }

  lemma JoinsInScopeIff(q: Query, schema: Schema)
    requires Plannable(q) && IsValid(q, schema)
    ensures AllAntiJoinsInScope(AntiJoins(q.whereConditions), PlanScope(q)) <==> SelfComparisonsBound(q)
  {
    var sc := PlanScope(q);
    ValidScope(q, schema);
    AntiJoinsMembers(q.whereConditions);
    forall s | NotExists(s) in q.whereConditions
      ensures IsOneHop(s.pattern) && (AntiJoinInScope(AntiJoinOf(s), sc) <==> SubquerySelfBound(s, sc))
    {
      SubqueryInScopeIff(s, schema, PatternScope(q.pattern), sc);
    }
    if AllAntiJoinsInScope(AntiJoins(q.whereConditions), sc) {
      forall s | NotExists(s) in q.whereConditions && IsOneHop(s.pattern) ensures SubquerySelfBound(s, sc) {
        assert AntiJoin(AntiJoinOf(s)) in AntiJoins(q.whereConditions);
      }
    }
    if SelfComparisonsBound(q) {
      forall a | AntiJoin(a) in AntiJoins(q.whereConditions) ensures AntiJoinInScope(a, sc) {
        var s :| NotExists(s) in q.whereConditions && IsOneHop(s.pattern) && a == AntiJoinOf(s);
        assert SubquerySelfBound(s, sc);
      }
    }
  }

  /** Every alias RETURN or ORDER BY names is bound in every row of every run. */
  lemma ProjectedAliasesBound(w: World, q: Query, schema: Schema, b: Binding)
    requires Plannable(q) && IsValid(q, schema) && SelfComparisonsBound(q)
    ensures Denote(w, PlannedSteps(q)).Ok?
    ensures b in Denote(w, PlannedSteps(q)).value ==>
              && b.nodes.Keys == PlanScope(q).nodes && b.edges.Keys == PlanScope(q).edges
              && (forall r :: r in q.projection ==> r.alias in b.nodes || r.alias in b.edges)
              && (q.orderBy.Some? ==> q.orderBy.value.alias in b.nodes || q.orderBy.value.alias in b.edges)
  {
    ValidIsWellScopedIff(q, schema);
    WellScopedNeverFails(w, PlannedSteps(q));
    DenoteFitsScope(w, PlannedSteps(q));
    ScopeOfPlan(q);
    ValidScope(q, schema);
    NoReturnErrors(q.projection, schema, PatternScope(q.pattern));
    forall r | r in q.projection ensures r.alias in PlanScope(q).nodes || r.alias in PlanScope(q).edges {
      assert ReturnItemErrors(r, schema, PatternScope(q.pattern)) == [];
    }
  }

  lemma ScopeOfPlan(q: Query)
    requires Plannable(q)
    ensures ScopeOf(PlannedSteps(q)) == PlanScope(q)
  {
    ChainScope(q, FirstStep(q).value, HopCount(q.pattern));
    AntiJoinsMembers(q.whereConditions);
    AntiJoinsKeepScope(ChainSteps(q, FirstStep(q).value, HopCount(q.pattern)), AntiJoins(q.whereConditions));
  }

  /** The accepted queries that fail: a self comparison over an alias the pattern lacks
      stops the run as soon as one row reaches the NOT EXISTS. */
  lemma SelfComparisonFails(w: World, prefix: seq<PlanStep>, s: ExistsSubquery, c: WhereCondition)
    requires IsOneHop(s.pattern) && c in s.whereConditions && ComparesInnerWithItself(c, s.pattern[1].edge.alias)
    requires !InScope(c.right.alias, ScopeOf(prefix)) && Denote(w, prefix).Ok? && Denote(w, prefix).value != {}
    ensures Denote(w, prefix + [AntiJoin(AntiJoinOf(s))]).Err?
            && Denote(w, prefix + [AntiJoin(AntiJoinOf(s))]).error.UnknownAlias?
  {
    var steps := prefix + [AntiJoin(AntiJoinOf(s))];
    assert prefix != [] && steps[..|steps| - 1] == prefix;
    var inner := s.pattern[1].edge.alias;
    OuterConditionsMembers(s.whereConditions, inner);
    assert OuterOf(c, inner).value in OuterConditions(s.whereConditions, inner);
    UnboundMeansError(ScopeOf(prefix), OuterConditions(s.whereConditions, inner), OuterOf(c, inner).value);
  }

  lemma {:induction false} UnboundMeansError(sc: Scope, outers: seq<OuterCondition>, o: OuterCondition)
    requires o in outers && !InScope(o.outer.alias, sc)
    ensures UnboundOuter(sc, outers).Some?
  {
    if InScope(outers[0].outer.alias, sc) { UnboundMeansError(sc, outers[1..], o); }
  }

  lemma {:induction false} EmptyStaysEmpty(w: World, steps: seq<PlanStep>, i: nat)
    requires 0 < i <= |steps| && Denote(w, steps[..i]) == Ok({})
    requires forall j :: i <= j < |steps| ==> steps[j].AntiJoin?
    ensures Denote(w, steps) == Ok({})
    decreases |steps|
  {
    if i == |steps| {
      assert steps[..i] == steps;
    } else {
      var n := |steps| - 1;
      assert steps[..n][..i] == steps[..i];
      EmptyStaysEmpty(w, steps[..n], i);
      assert steps[n].AntiJoin?;
    }
  }

  lemma UnboundStepStops(w: World, steps: seq<PlanStep>, k: nat, s: ExistsSubquery, c: WhereCondition)
    requires 0 < k < |steps| && IsOneHop(s.pattern) && steps[k] == AntiJoin(AntiJoinOf(s))
    requires c in s.whereConditions && ComparesInnerWithItself(c, s.pattern[1].edge.alias)
    requires !InScope(c.right.alias, ScopeOf(steps[..k]))
    requires forall j :: k <= j < |steps| ==> steps[j].AntiJoin?
    ensures Denote(w, steps).Ok? ==> Denote(w, steps).value == {}
  {
    TakeNext(steps, k);
    var before := Denote(w, steps[..k]);
    if before.Err? {
      ErrorSticks(w, steps, k);
    } else if before.value != {} {
      SelfComparisonFails(w, steps[..k], s, c);
      ErrorSticks(w, steps, k + 1);
    } else {
      EmptyStaysEmpty(w, steps, k);
    }
  }

  /** A query that compares a NOT EXISTS edge with itself, under an alias its pattern does
      not bind, never returns a row: a run either fails or had no row to begin with. */
  lemma SelfComparisonNeverAnswers(w: World, q: Query, s: ExistsSubquery, c: WhereCondition)
    requires Plannable(q) && NotExists(s) in q.whereConditions && IsOneHop(s.pattern) && c in s.whereConditions
    requires ComparesInnerWithItself(c, s.pattern[1].edge.alias) && !InScope(c.right.alias, PlanScope(q))
    ensures Denote(w, PlannedSteps(q)).Ok? ==> Denote(w, PlannedSteps(q)).value == {}
  {
    var chain, joins := ChainSteps(q, FirstStep(q).value, HopCount(q.pattern)), AntiJoins(q.whereConditions);
    AntiJoinsMembers(q.whereConditions);
    ChainStepsLaws(q, FirstStep(q).value, HopCount(q.pattern));
    assert AntiJoin(AntiJoinOf(s)) in joins;
    ChainScope(q, FirstStep(q).value, HopCount(q.pattern));
    UnboundJoinStops(w, chain, joins, s, c);
  }

  lemma UnboundJoinStops(w: World, chain: seq<PlanStep>, joins: seq<PlanStep>, s: ExistsSubquery, c: WhereCondition)
    requires chain != [] && (forall i :: 0 <= i < |joins| ==> joins[i].AntiJoin?)
    requires IsOneHop(s.pattern) && AntiJoin(AntiJoinOf(s)) in joins && c in s.whereConditions
    requires ComparesInnerWithItself(c, s.pattern[1].edge.alias) && !InScope(c.right.alias, ScopeOf(chain))
    ensures Denote(w, chain + joins).Ok? ==> Denote(w, chain + joins).value == {}
  {
    var i :| 0 <= i < |joins| && joins[i] == AntiJoin(AntiJoinOf(s));
    JoinStep(chain, joins, i);
    UnboundStepStops(w, chain + joins, |chain| + i, s, c);
  }

  // ---------------------------------------------------------------- which WHERE conditions are accepted

  ghost predicate IsLabelledNode(pattern: seq<PatternStep>, k: nat, alias: string)
    requires IsChainOf(pattern, k)
  {
    exists j :: 0 <= j <= k && NodeAt(pattern, j).alias == alias && NodeAt(pattern, j).labelName.Some?
  }

  ghost predicate IsTypedEdge(pattern: seq<PatternStep>, k: nat, alias: string)
    requires IsChainOf(pattern, k)
  {
    exists j :: 1 <= j <= k && EdgeAt(pattern, j).alias == Some(alias) && EdgeAt(pattern, j).edgeType.Some?
  }

  ghost predicate IsNodeOf(pattern: seq<PatternStep>, k: nat, alias: string, labelName: string)
    requires IsChainOf(pattern, k)
  {
    exists j :: 0 <= j <= k && NodeAt(pattern, j).alias == alias && NodeAt(pattern, j).labelName == Some(labelName)
  }

  ghost predicate IsEdgeOf(pattern: seq<PatternStep>, k: nat, alias: string, edgeType: string)
    requires IsChainOf(pattern, k)
  {
    exists j :: 1 <= j <= k && EdgeAt(pattern, j).alias == Some(alias) && EdgeAt(pattern, j).edgeType == Some(edgeType)
  }

  /** What the scope can resolve was declared with that label or edge type. */
  ghost predicate ScopeDeclared(scope: TypeScope, pattern: seq<PatternStep>, k: nat)
    requires IsChainOf(pattern, k)
  {
    && (forall a :: a in scope.nodeLabels ==> IsNodeOf(pattern, k, a, scope.nodeLabels[a]))
    && (forall a :: a in scope.edgeTypes ==> IsEdgeOf(pattern, k, a, scope.edgeTypes[a]))
  }

  lemma DeclaredLater(pattern: seq<PatternStep>, k: nat, a: string, name: string)
    requires k > 0 && IsChainOf(pattern, k) && IsChainOf(pattern, k - 1)
    ensures IsNodeOf(pattern, k - 1, a, name) ==> IsNodeOf(pattern, k, a, name)
    ensures IsEdgeOf(pattern, k - 1, a, name) ==> IsEdgeOf(pattern, k, a, name)
  {
  }

  lemma HopDeclares(scope: TypeScope, pattern: seq<PatternStep>, k: nat)
    requires k > 0 && IsChainOf(pattern, k) && IsChainOf(pattern, k - 1) && ScopeDeclared(scope, pattern, k - 1)
    ensures ScopeDeclared(BindStep(BindEdge(scope, EdgeAt(pattern, k)), NodeStep(NodeAt(pattern, k))), pattern, k)
  {
    var node, edge := NodeAt(pattern, k), EdgeAt(pattern, k);
    forall a, name
      ensures IsNodeOf(pattern, k - 1, a, name) ==> IsNodeOf(pattern, k, a, name)
    {
      DeclaredLater(pattern, k, a, name);
    }
    forall a, name
      ensures IsEdgeOf(pattern, k - 1, a, name) ==> IsEdgeOf(pattern, k, a, name)
    {
      DeclaredLater(pattern, k, a, name);
    }
    assert node.labelName.Some? ==> IsNodeOf(pattern, k, node.alias, node.labelName.value);
    assert edge.alias.Some? && edge.edgeType.Some? ==> IsEdgeOf(pattern, k, edge.alias.value, edge.edgeType.value);
  }

  lemma {:induction false} PatternScopeDeclared(pattern: seq<PatternStep>, k: nat)
    requires IsChainOf(pattern, k)
    ensures ScopeDeclared(PatternScope(pattern[..2 * k + 1]), pattern, k)
  {
    if k == 0 {
      StartDeclares(pattern);
    } else {
      PatternScopeDeclared(pattern, k - 1);
      HopScopeDeclared(pattern, k);
    }
  }

  lemma HopScopeDeclared(pattern: seq<PatternStep>, k: nat)
    requires k > 0 && IsChainOf(pattern, k) && IsChainOf(pattern, k - 1)
    requires ScopeDeclared(PatternScope(pattern[..2 * k - 1]), pattern, k - 1)
    ensures ScopeDeclared(PatternScope(pattern[..2 * k + 1]), pattern, k)
  {
    HopDeclares(PatternScope(pattern[..2 * k - 1]), pattern, k);
    TwoMoreSteps(pattern, 2 * k - 1);
    assert Alternates(pattern, 2 * k - 1) && Alternates(pattern, 2 * k);
    assert PatternScope(pattern[..2 * k + 1]) ==
           BindStep(BindEdge(PatternScope(pattern[..2 * k - 1]), EdgeAt(pattern, k)), NodeStep(NodeAt(pattern, k)));
  }

  lemma StartDeclares(pattern: seq<PatternStep>)
    requires IsChainOf(pattern, 0)
    ensures ScopeDeclared(PatternScope(pattern[..1]), pattern, 0)
  {
    assert Alternates(pattern, 0);
    assert pattern[..1] == [pattern[0]] && pattern[..1][..0] == [];
    var node := NodeAt(pattern, 0);
    assert PatternScope(pattern[..1]) == BindStep(TypeScope({}, map[], map[]), NodeStep(node));
    assert node.labelName.Some? ==> IsNodeOf(pattern, 0, node.alias, node.labelName.value);
  }

  /** An accepted property condition names a labelled node or a typed edge of the pattern. */
  lemma AcceptedConditionAlias(q: Query, schema: Schema, c: WhereCondition)
    requires IsChain(q.pattern) && IsValid(q, schema) && c in q.whereConditions && c.PropertyCondition?
    ensures IsLabelledNode(q.pattern, HopCount(q.pattern), c.alias) || IsTypedEdge(q.pattern, HopCount(q.pattern), c.alias)
  {
    WholeScopeDeclared(q.pattern);
    NoConditionErrors(q.whereConditions, schema, PatternScope(q.pattern), true);
    assert ConditionErrors(c, schema, PatternScope(q.pattern), true) == [];
    ResolvedIsDeclared(PatternScope(q.pattern), q.pattern, HopCount(q.pattern), c.alias);
  }

  lemma WholeScopeDeclared(pattern: seq<PatternStep>)
    requires IsChain(pattern)
    ensures ScopeDeclared(PatternScope(pattern), pattern, HopCount(pattern))
  {
    PatternScopeDeclared(pattern, HopCount(pattern));
    assert pattern[..2 * HopCount(pattern) + 1] == pattern;
  }

  lemma ResolvedIsDeclared(scope: TypeScope, pattern: seq<PatternStep>, k: nat, alias: string)
    requires IsChainOf(pattern, k) && ScopeDeclared(scope, pattern, k)
    ensures alias in scope.nodeLabels ==> IsLabelledNode(pattern, k, alias)
    ensures alias in scope.edgeTypes ==> IsTypedEdge(pattern, k, alias)
  {
    if alias in scope.nodeLabels {
      var j :| 0 <= j <= k && NodeAt(pattern, j).alias == alias
               && NodeAt(pattern, j).labelName == Some(scope.nodeLabels[alias]);
    }
    if alias in scope.edgeTypes {
      var j :| 1 <= j <= k && EdgeAt(pattern, j).alias == Some(alias)
               && EdgeAt(pattern, j).edgeType == Some(scope.edgeTypes[alias]);
    }
  }

  /** So with distinct aliases a condition on an unlabelled node, or on an edge without a
      type, is rejected. */
  lemma UndeclaredIsRejected(q: Query, schema: Schema, c: WhereCondition, k: nat)
    requires IsChain(q.pattern) && DistinctAliases(q.pattern) && c in q.whereConditions && c.PropertyCondition?
    requires k <= HopCount(q.pattern) && IsChainOf(q.pattern, k)
    requires (NodeAt(q.pattern, k).alias == c.alias && NodeAt(q.pattern, k).labelName.None?)
             || (k > 0 && EdgeAt(q.pattern, k).alias == Some(c.alias) && EdgeAt(q.pattern, k).edgeType.None?)
    ensures !IsValid(q, schema)
  {
    if IsValid(q, schema) {
      AcceptedConditionAlias(q, schema, c);
      NotBothDeclared(q.pattern, c.alias, k);
    }
  }

  lemma NotBothDeclared(pattern: seq<PatternStep>, alias: string, k: nat)
    requires IsChain(pattern) && DistinctAliases(pattern) && k <= HopCount(pattern) && IsChainOf(pattern, k)
    requires (NodeAt(pattern, k).alias == alias && NodeAt(pattern, k).labelName.None?)
             || (k > 0 && EdgeAt(pattern, k).alias == Some(alias) && EdgeAt(pattern, k).edgeType.None?)
    ensures !IsLabelledNode(pattern, HopCount(pattern), alias) && !IsTypedEdge(pattern, HopCount(pattern), alias)
  {
    var n := HopCount(pattern);
    assert NodeAt(pattern, k).alias in NodeAliases(pattern, n);
    assert k > 0 && EdgeAt(pattern, k).alias.Some? ==> EdgeAt(pattern, k).alias.value in EdgeAliases(pattern, n);
  }

  // ---------------------------------------------------------------- end to end

  lemma SupportedHasNoSelfComparison(q: Query)
    requires Supported(q)
    ensures SelfComparisonsBound(q) && NotExistsOutgoing(PlannedSteps(q))
  {
    forall s | NotExists(s) in q.whereConditions ensures SupportedSubquery(s) {
      assert SupportedCondition(q, NotExists(s));
    }
    forall s, c | NotExists(s) in q.whereConditions && c in s.whereConditions
      ensures !ComparesInnerWithItself(c, s.pattern[1].edge.alias)
    {
      assert NamesInnerOnce(c, s.pattern[1].edge.alias);
    }
    SupportedIsOutgoing(q);
  }

  lemma SupportedIsOutgoing(q: Query)
    requires Supported(q)
    ensures NotExistsOutgoing(PlannedSteps(q))
  {
    AntiJoinsMembers(q.whereConditions);
    ChainStepsLaws(q, FirstStep(q).value, HopCount(q.pattern));
    var chain, joins := ChainSteps(q, FirstStep(q).value, HopCount(q.pattern)), AntiJoins(q.whereConditions);
    var steps := PlannedSteps(q);
    assert steps == chain + joins;
    forall i | 0 <= i < |steps| && steps[i].AntiJoin? ensures steps[i].step.direction == Outgoing {
      if i >= |chain| {
        assert AntiJoin(steps[i].step) in joins;
        var s :| NotExists(s) in q.whereConditions && IsOneHop(s.pattern) && steps[i].step == AntiJoinOf(s);
        assert SupportedCondition(q, NotExists(s));
      }
    }
  }

  /** An accepted supported query, run over any partitioning of clean tables with every
      partition served, never fails and answers exactly what the query means. */
  lemma ValidQueryIsAnswered(w: World, q: Query, x: Binding)
    requires AllServed(w) && SupportedOn(w.t, q) && IsValid(q, w.t.schema)
    requires LabelsImplied(w.t, q.pattern) && LookupUsable(w.t, FirstStep(q).value)
    ensures Denote(w, PlannedSteps(q)).Ok?
    ensures x in Denote(w, PlannedSteps(q)).value <==> Means(w.t, w.parse, q, x)
  {
    SupportedHasNoSelfComparison(q);
    ValidIsWellScopedIff(q, w.t.schema);
    WellScopedNeverFails(w, PlannedSteps(q));
    DistributedIsGlobal(w, PlannedSteps(q), x);
    PlanMeansQuery(w.t, w.parse, q, x);
  }
}
