/** Lowering of a query to plan steps, in pattern order (planner.rs). */
module Planning {
  import opened Basics
  import opened FilterEval
  import opened PropertyIndexes
  import opened Plan
  import opened LocalExecutor
  import opened QueryAst

  /** Where the source panics instead of planning. */
  datatype PlanPanic =
    | MalformedPattern
    | UnlabeledStart
    | TooManyStartConditions
    | NonEqualityStart
    | FloatStartKey
    | MalformedNotExists

  function FlipOp(op: ComparisonOp): ComparisonOp {
    match op
    case Eq => Eq
    case Ne => Ne
    case Lt => Gt
    case Lte => Gte
    case Gt => Lt
    case Gte => Lte
  }

  /** The WHERE property filters that target `alias`, in order. */
  function FiltersOn(conditions: seq<WhereCondition>, alias: string): seq<PropertyFilter> {
    if conditions == [] then []
    else
      var n := |conditions| - 1;
      FiltersOn(conditions[..n], alias)
      + (if conditions[n].PropertyCondition? && conditions[n].alias == alias then [conditions[n].filter] else [])
  }

  /** The first inline filter wins; otherwise a single WHERE condition may serve. */
  function StartFilter(
      node: NodePattern, whereFilters: seq<PropertyFilter>): Result<Option<PropertyFilter>, PlanPanic> {
    if node.propertyFilters != [] then Ok(Some(node.propertyFilters[0]))
    else if |whereFilters| == 0 then Ok(None)
    else if |whereFilters| == 1 then Ok(Some(whereFilters[0]))
    else Err(TooManyStartConditions)
  }

  function StartStep(node: NodePattern, whereFilters: seq<PropertyFilter>): Result<PlanStep, PlanPanic> {
    if node.labelName.None? then Err(UnlabeledStart)
    else
      match StartFilter(node, whereFilters)
      case Err(e) => Err(e)
      case Ok(None) => Ok(ResolveAll(node.alias, node.labelName.value))
      case Ok(Some(filter)) =>
        if filter.op != Eq then Err(NonEqualityStart)
        else if LiteralToPropertyKey(filter.value).None? then Err(FloatStartKey)
        else Ok(ResolveStart(node.alias, node.labelName.value, filter.property, LiteralToPropertyKey(filter.value).value))
  }

  /** Filters on an unlabeled target are dropped. */
  function HopStep(from: NodePattern, edge: EdgePattern, to: NodePattern, conditions: seq<WhereCondition>): PlanStep {
    ExpandHop(from.alias, to.alias, to.labelName, edge.edgeType, edge.direction, edge.hops,
              if to.labelName.Some? then FiltersOn(conditions, to.alias) else [], edge.alias)
  }

  function IsInner(alias: string, inner: Option<string>): bool {
    inner == Some(alias)
  }

  /** Literal filters on the subquery's own edge alias. */
  function LiteralConditions(conditions: seq<WhereCondition>, inner: Option<string>): seq<PropertyFilter> {
    if conditions == [] then []
    else
      var n := |conditions| - 1;
      var c := conditions[n];
      LiteralConditions(conditions[..n], inner)
      + (if c.PropertyCondition? && IsInner(c.alias, inner) then [c.filter] else [])
  }

  /** A comparison read as "inner OP outer"; with the inner alias on the right both
      sides and the operator are flipped. */
  function OuterOf(c: WhereCondition, inner: Option<string>): Option<OuterCondition> {
    if !c.PropertyComparison? then None
    else if IsInner(c.left.alias, inner) then Some(OuterCondition(c.left.property, c.op, c.right))
    else if IsInner(c.right.alias, inner) then Some(OuterCondition(c.right.property, FlipOp(c.op), c.left))
    else None
  }

  function OuterConditions(conditions: seq<WhereCondition>, inner: Option<string>): seq<OuterCondition> {
    if conditions == [] then []
    else
      var n := |conditions| - 1;
      OuterConditions(conditions[..n], inner)
      + (if OuterOf(conditions[n], inner).Some? then [OuterOf(conditions[n], inner).value] else [])
  }

  function AntiJoinOf(subquery: ExistsSubquery): AntiJoinStep
    requires IsOneHop(subquery.pattern)
  {
    var edge := subquery.pattern[1].edge;
    AntiJoinStep(subquery.pattern[0].node.alias, subquery.pattern[2].node.alias, edge.direction, edge.alias, edge.edgeType,
                 LiteralConditions(subquery.whereConditions, edge.alias), OuterConditions(subquery.whereConditions, edge.alias))
  }

  predicate SubqueriesWellShaped(conditions: seq<WhereCondition>) {
    forall i :: 0 <= i < |conditions| && conditions[i].NotExists? ==> IsOneHop(conditions[i].subquery.pattern)
  }

  /** The trailing anti-joins, one for each NOT EXISTS. */
  function AntiJoins(conditions: seq<WhereCondition>): seq<PlanStep>
    requires SubqueriesWellShaped(conditions)
  {
    if conditions == [] then []
    else
      var n := |conditions| - 1;
      AntiJoins(conditions[..n]) + (if conditions[n].NotExists? then [AntiJoin(AntiJoinOf(conditions[n].subquery))] else [])
  }

  function FirstStep(q: Query): Result<PlanStep, PlanPanic>
    requires IsChainOf(q.pattern, 0)
  {
    var first := NodeAt(q.pattern, 0);
    StartStep(first, FiltersOn(q.whereConditions, first.alias))
  }

  function HopAt(q: Query, k: nat): PlanStep
    requires k > 0 && IsChainOf(q.pattern, k)
  {
    HopStep(NodeAt(q.pattern, k - 1), EdgeAt(q.pattern, k), NodeAt(q.pattern, k), q.whereConditions)
  }

  /** Start and first `k` hops. */
  function ChainSteps(q: Query, start: PlanStep, k: nat): seq<PlanStep>
    requires IsChainOf(q.pattern, k)
  {
    if k == 0 then [start] else ChainSteps(q, start, k - 1) + [HopAt(q, k)]
  }

  predicate Plannable(q: Query) {
    && IsChain(q.pattern)
    && FirstStep(q).Ok?
    && SubqueriesWellShaped(q.whereConditions)
  }

  function PlannedSteps(q: Query): seq<PlanStep>
    requires Plannable(q)
  {
    ChainSteps(q, FirstStep(q).value, HopCount(q.pattern)) + AntiJoins(q.whereConditions)
  }

  /** Sorts each WHERE condition of the subquery into one of two lists, or drops it. */
  method CompileAntiJoin(subquery: ExistsSubquery) returns (r: Result<PlanStep, PlanPanic>)
    ensures r.Ok? <==> IsOneHop(subquery.pattern)
    ensures r.Err? ==> r.error == MalformedNotExists
    ensures r.Ok? ==> r.value == AntiJoin(AntiJoinOf(subquery))
  {
    if !IsOneHop(subquery.pattern) { return Err(MalformedNotExists); }
    var edge := subquery.pattern[1].edge;
    var inner := edge.alias;
    var literals: seq<PropertyFilter> := [];
    var outers: seq<OuterCondition> := [];
    var conditions := subquery.whereConditions;
    for i := 0 to |conditions|
      invariant literals == LiteralConditions(conditions[..i], inner)
      invariant outers == OuterConditions(conditions[..i], inner)
    {
      TakeNext(conditions, i);
      match conditions[i]
      case PropertyCondition(alias, filter) =>
        if inner == Some(alias) { literals := literals + [filter]; }
      case PropertyComparison(left, op, right) =>
        if inner == Some(left.alias) {
          outers := outers + [OuterCondition(left.property, op, right)];
        } else if inner == Some(right.alias) {
          outers := outers + [OuterCondition(right.property, FlipOp(op), left)];
        }
      case AliasComparison(_, _, _) =>
      case NotExists(_) =>
    }
    assert conditions[..|conditions|] == conditions;
    r := Ok(
      AntiJoin(
        AntiJoinStep(
          subquery.pattern[0].node.alias, subquery.pattern[2].node.alias, edge.direction, edge.alias, edge.edgeType,
          literals, outers)));
  }

  method CompileNotExists(conditions: seq<WhereCondition>) returns (r: Result<seq<PlanStep>, PlanPanic>)
    ensures r.Ok? <==> SubqueriesWellShaped(conditions)
    ensures r.Ok? ==> r.value == AntiJoins(conditions)
    ensures r.Err? ==> r.error == MalformedNotExists
  {
    var steps: seq<PlanStep> := [];
    for i := 0 to |conditions|
      invariant SubqueriesWellShaped(conditions[..i])
      invariant steps == AntiJoins(conditions[..i])
    {
      TakeNext(conditions, i);
      if conditions[i].NotExists? {
        var compiled := CompileAntiJoin(conditions[i].subquery);
        if compiled.Err? { return Err(compiled.error); }
        steps := steps + [compiled.value];
      }
    }
    assert conditions[..|conditions|] == conditions;
    r := Ok(steps);
  }

  lemma ChainGrows(pattern: seq<PatternStep>, k: nat)
    requires IsChainOf(pattern, k)
    requires 2 * k + 2 < |pattern| && pattern[2 * k + 1].EdgeStep? && pattern[2 * k + 2].NodeStep?
    ensures IsChainOf(pattern, k + 1)
  {
    forall i | 0 <= i <= 2 * k + 2 ensures Alternates(pattern, i) {
      if i <= 2 * k { assert Alternates(pattern, i); }
    }
  }

  lemma ChainStops(pattern: seq<PatternStep>, k: nat)
    requires 2 * k + 1 < |pattern|
    requires !pattern[2 * k + 1].EdgeStep? || 2 * k + 2 >= |pattern| || !pattern[2 * k + 2].NodeStep?
    ensures !IsChain(pattern)
  {
    if !pattern[2 * k + 1].EdgeStep? {
      assert !Alternates(pattern, 2 * k + 1);
    } else if 2 * k + 2 < |pattern| {
      assert !Alternates(pattern, 2 * k + 2);
    }
  }

  /** Lowers the pattern, two steps at a time. */
  method PlanChain(q: Query, start: PlanStep) returns (r: Result<seq<PlanStep>, PlanPanic>)
    requires IsChainOf(q.pattern, 0)
    ensures r.Ok? <==> IsChain(q.pattern)
    ensures r.Ok? ==> r.value == ChainSteps(q, start, HopCount(q.pattern))
    ensures r.Err? ==> r.error == MalformedPattern
  {
    var steps := q.pattern;
    var planSteps := [start];
    var from := NodeAt(steps, 0);
    var i := 1;
    ghost var k := 0;
    while i < |steps|
      invariant i == 2 * k + 1 && IsChainOf(steps, k)
      invariant from == NodeAt(steps, k)
      invariant planSteps == ChainSteps(q, start, k)
    {
      if !steps[i].EdgeStep? || i + 1 >= |steps| || !steps[i + 1].NodeStep? {
        ChainStops(steps, k);
        return Err(MalformedPattern);
      }
      ChainGrows(steps, k);
      planSteps := planSteps + [HopStep(from, steps[i].edge, steps[i + 1].node, q.whereConditions)];
      from := steps[i + 1].node;
      i := i + 2;
      k := k + 1;
    }
    assert k == HopCount(steps);
    r := Ok(planSteps);
  }

  // ---------------------------------------------------------------- which queries can be planned

  predicate IsConditionOn(c: WhereCondition, alias: string) {
    c.PropertyCondition? && c.alias == alias
  }

  predicate NoCondition(cs: seq<WhereCondition>, alias: string) {
    forall i :: 0 <= i < |cs| ==> !IsConditionOn(cs[i], alias)
  }

  /** Exactly one condition targets the alias, at one position, with this filter. */
  ghost predicate OnlyCondition(cs: seq<WhereCondition>, alias: string, filter: PropertyFilter) {
    exists i :: 0 <= i < |cs| && cs[i] == PropertyCondition(alias, filter)
                && forall j :: 0 <= j < |cs| && IsConditionOn(cs[j], alias) ==> j == i
  }

  ghost predicate TwoConditions(cs: seq<WhereCondition>, alias: string) {
    exists i, j :: 0 <= i < j < |cs| && IsConditionOn(cs[i], alias) && IsConditionOn(cs[j], alias)
  }

  lemma {:induction false} FiltersOnCount(cs: seq<WhereCondition>, alias: string)
    ensures FiltersOn(cs, alias) == [] <==> NoCondition(cs, alias)
    ensures |FiltersOn(cs, alias)| > 1 <==> TwoConditions(cs, alias)
  {
    if cs != [] {
      var n := |cs| - 1;
      FiltersOnCount(cs[..n], alias);
      CountLast(cs, alias);
    }
  }

  lemma CountLast(cs: seq<WhereCondition>, alias: string)
    requires cs != []
    ensures var front, last := cs[..|cs| - 1], IsConditionOn(cs[|cs| - 1], alias);
            && (NoCondition(cs, alias) <==> NoCondition(front, alias) && !last)
            && (TwoConditions(cs, alias) <==> TwoConditions(front, alias) || (last && !NoCondition(front, alias)))
  {
    var n := |cs| - 1;
    var front := cs[..n];
    forall i | 0 <= i < n ensures front[i] == cs[i] {}
    if i, j :| 0 <= i < j < |cs| && IsConditionOn(cs[i], alias) && IsConditionOn(cs[j], alias) {
      assert IsConditionOn(front[i], alias);
      if j < n { assert IsConditionOn(front[j], alias); }
    }
    if i :| 0 <= i < n && IsConditionOn(front[i], alias) { assert IsConditionOn(cs[i], alias); }
    if i, j :| 0 <= i < j < n && IsConditionOn(front[i], alias) && IsConditionOn(front[j], alias) {
      assert IsConditionOn(cs[i], alias) && IsConditionOn(cs[j], alias);
    }
  }

  lemma {:induction false} FiltersOnOnly(cs: seq<WhereCondition>, alias: string, filter: PropertyFilter)
    ensures FiltersOn(cs, alias) == [filter] <==> OnlyCondition(cs, alias, filter)
  {
    if cs != [] {
      var n := |cs| - 1;
      if IsConditionOn(cs[n], alias) {
        FiltersOnCount(cs[..n], alias);
        assert FiltersOn(cs, alias) == FiltersOn(cs[..n], alias) + [cs[n].filter];
        SnocIsOne(FiltersOn(cs[..n], alias), cs[n].filter, filter);
        LastIsOnly(cs, alias, filter);
      } else {
        FiltersOnOnly(cs[..n], alias, filter);
        OnlyEarlier(cs, alias, filter);
      }
    }
  }

  lemma LastIsOnly(cs: seq<WhereCondition>, alias: string, filter: PropertyFilter)
    requires cs != [] && IsConditionOn(cs[|cs| - 1], alias)
    ensures OnlyCondition(cs, alias, filter) <==> cs[|cs| - 1].filter == filter && NoCondition(cs[..|cs| - 1], alias)
  {
    var n := |cs| - 1;
    if OnlyCondition(cs, alias, filter) {
      var i :| 0 <= i < |cs| && cs[i] == PropertyCondition(alias, filter)
               && forall j :: 0 <= j < |cs| && IsConditionOn(cs[j], alias) ==> j == i;
      assert i == n;
      forall j | 0 <= j < n ensures !IsConditionOn(cs[..n][j], alias) { assert cs[..n][j] == cs[j]; }
    }
    if cs[n].filter == filter && NoCondition(cs[..n], alias) {
      forall j | 0 <= j < n ensures !IsConditionOn(cs[j], alias) { assert cs[..n][j] == cs[j]; }
      assert cs[n] == PropertyCondition(alias, filter);
    }
  }

  lemma OnlyEarlier(cs: seq<WhereCondition>, alias: string, filter: PropertyFilter)
    requires cs != [] && !IsConditionOn(cs[|cs| - 1], alias)
    ensures OnlyCondition(cs[..|cs| - 1], alias, filter) <==> OnlyCondition(cs, alias, filter)
  {
    var front := cs[..|cs| - 1];
    if i :| 0 <= i < |front| && front[i] == PropertyCondition(alias, filter)
            && forall j :: 0 <= j < |front| && IsConditionOn(front[j], alias) ==> j == i {
      forall j | 0 <= j < |cs| && IsConditionOn(cs[j], alias) ensures j == i { assert front[j] == cs[j]; }
    }
    if i :| 0 <= i < |cs| && cs[i] == PropertyCondition(alias, filter)
            && forall j :: 0 <= j < |cs| && IsConditionOn(cs[j], alias) ==> j == i {
      assert front[i] == cs[i];
    }
  }

  /** The key writes the literal; a float has none. */
  predicate KeyWrites(key: PropertyKey, literal: Literal) {
    || (literal.IntLit? && key == IntKey(literal.i))
    || (literal.BoolLit? && key == BoolKey(literal.b))
    || (literal.StrLit? && key == StrKey(literal.s))
  }

  /** The filter that decides the start: the first inline one, or else the only condition. */
  ghost predicate Decides(node: NodePattern, cs: seq<WhereCondition>, filter: PropertyFilter) {
    if node.propertyFilters != [] then filter == node.propertyFilters[0] else OnlyCondition(cs, node.alias, filter)
  }

  ghost predicate Unfiltered(node: NodePattern, cs: seq<WhereCondition>) {
    node.propertyFilters == [] && NoCondition(cs, node.alias)
  }

  predicate IsLookup(node: NodePattern, filter: PropertyFilter, step: PlanStep) {
    && node.labelName.Some? && filter.op == Eq
    && step.ResolveStart? && step.alias == node.alias && step.labelOrType == node.labelName.value
    && step.property == filter.property && KeyWrites(step.key, filter.value)
  }

  /** The start step of a labelled node: a lookup of the filter that decides, or every node
      of the label when nothing filters it. */
  ghost predicate IsStart(node: NodePattern, cs: seq<WhereCondition>, step: PlanStep) {
    || (node.labelName.Some? && Unfiltered(node, cs) && step == ResolveAll(node.alias, node.labelName.value))
    || exists filter :: Decides(node, cs, filter) && IsLookup(node, filter, step)
  }

  /** A node can start a plan when it is labelled and either nothing filters it or the filter
      that decides is an equality with a literal that is no float. */
  ghost predicate CanStart(node: NodePattern, cs: seq<WhereCondition>) {
    && node.labelName.Some?
    && (Unfiltered(node, cs) || exists filter :: Decides(node, cs, filter) && filter.op == Eq && !filter.value.FloatLit?)
  }

  lemma FilterDecides(node: NodePattern, cs: seq<WhereCondition>, filter: PropertyFilter)
    ensures StartFilter(node, FiltersOn(cs, node.alias)) == Ok(Some(filter)) <==> Decides(node, cs, filter)
  {
    FiltersOnOnly(cs, node.alias, filter);
  }

  lemma NothingFilters(node: NodePattern, cs: seq<WhereCondition>)
    ensures StartFilter(node, FiltersOn(cs, node.alias)) == Ok(None) <==> Unfiltered(node, cs)
    ensures StartFilter(node, FiltersOn(cs, node.alias)).Err? <==>
              node.propertyFilters == [] && TwoConditions(cs, node.alias)
    ensures StartFilter(node, FiltersOn(cs, node.alias)).Err? ==>
      StartFilter(node, FiltersOn(cs, node.alias)).error == TooManyStartConditions
  {
    FiltersOnCount(cs, node.alias);
  }

  lemma StartStepIff(node: NodePattern, cs: seq<WhereCondition>, step: PlanStep)
    ensures StartStep(node, FiltersOn(cs, node.alias)) == Ok(step) <==> IsStart(node, cs, step)
  {
    var found := StartFilter(node, FiltersOn(cs, node.alias));
    NothingFilters(node, cs);
    forall filter ensures found == Ok(Some(filter)) <==> Decides(node, cs, filter) { FilterDecides(node, cs, filter); }
    if found.Ok? && found.value.Some? { assert Decides(node, cs, found.value.value); }
  }

  lemma StartStepFails(node: NodePattern, cs: seq<WhereCondition>, panic: PlanPanic)
    ensures StartStep(node, FiltersOn(cs, node.alias)) == Err(panic) <==> StartPanics(node, cs, panic)
    ensures StartStep(node, FiltersOn(cs, node.alias)).Ok? <==> CanStart(node, cs)
  {
    var found := StartFilter(node, FiltersOn(cs, node.alias));
    NothingFilters(node, cs);
    forall filter ensures found == Ok(Some(filter)) <==> Decides(node, cs, filter) { FilterDecides(node, cs, filter); }
    if found.Ok? && found.value.Some? { assert Decides(node, cs, found.value.value); }
  }

  /** Which panic a start node that cannot start a plan gives. */
  ghost predicate StartPanics(node: NodePattern, cs: seq<WhereCondition>, panic: PlanPanic) {
    match panic
    case UnlabeledStart => node.labelName.None?
    case TooManyStartConditions => node.labelName.Some? && node.propertyFilters == [] && TwoConditions(cs, node.alias)
    case NonEqualityStart => node.labelName.Some? && exists filter :: Decides(node, cs, filter) && filter.op != Eq
    case FloatStartKey =>
      node.labelName.Some? && exists filter :: Decides(node, cs, filter) && filter.op == Eq && filter.value.FloatLit?
    case MalformedPattern => false
    case MalformedNotExists => false
  }

  ghost predicate StartsWithNode(pattern: seq<PatternStep>) {
    pattern != [] && pattern[0].NodeStep?
  }

  /** Every panic and its condition: the start is looked at first, then the chain, then the
      NOT EXISTS conditions. */
  ghost predicate Panics(q: Query, panic: PlanPanic) {
    if !StartsWithNode(q.pattern) then panic == MalformedPattern
    else
      || StartPanics(q.pattern[0].node, q.whereConditions, panic)
      || (CanStart(q.pattern[0].node, q.whereConditions)
          && (if !IsChain(q.pattern) then panic == MalformedPattern
              else panic == MalformedNotExists && exists s :: NotExists(s) in q.whereConditions && !IsOneHop(s.pattern)))
  }

  lemma ShapedSubqueries(cs: seq<WhereCondition>)
    ensures SubqueriesWellShaped(cs) <==> forall s :: NotExists(s) in cs ==> IsOneHop(s.pattern)
  {
    forall i | 0 <= i < |cs| && cs[i].NotExists? ensures NotExists(cs[i].subquery) in cs {}
  }

  /** The plannable queries, without a word about how they are planned: a chain from a node
      that can start a plan, with one-hop NOT EXISTS conditions. */
  lemma PlannableIff(q: Query)
    ensures Plannable(q) <==>
              && IsChain(q.pattern) && CanStart(NodeAt(q.pattern, 0), q.whereConditions)
              && forall s :: NotExists(s) in q.whereConditions ==> IsOneHop(s.pattern)
    ensures Plannable(q) ==> IsStart(NodeAt(q.pattern, 0), q.whereConditions, PlannedSteps(q)[0])
  {
    ShapedSubqueries(q.whereConditions);
    if IsChain(q.pattern) {
      var first := NodeAt(q.pattern, 0);
      StartStepFails(first, q.whereConditions, MalformedPattern);
      if Plannable(q) {
        StartStepIff(first, q.whereConditions, FirstStep(q).value);
        ChainStepsLaws(q, FirstStep(q).value, HopCount(q.pattern));
      }
    }
  }

  /** Plans exactly the plannable queries; every other one panics for its own reason. */
  method PlanQuery(q: Query) returns (r: Result<QueryPlan, PlanPanic>)
    ensures r.Ok? <==> Plannable(q)
    ensures r.Ok? ==> r.value == QueryPlan(PlannedSteps(q), q.projection)
    ensures r.Ok? ==> IsStart(NodeAt(q.pattern, 0), q.whereConditions, r.value.steps[0])
    ensures r.Err? ==> Panics(q, r.error)
  {
    PlannableIff(q);
    ShapedSubqueries(q.whereConditions);
    if q.pattern == [] || !q.pattern[0].NodeStep? {
      assert q.pattern != [] ==> !Alternates(q.pattern, 0);
      return Err(MalformedPattern);
    }
    assert Alternates(q.pattern, 0);
    var start := FirstStep(q);
    ghost var panic := if start.Err? then start.error else MalformedPattern;
    StartStepFails(q.pattern[0].node, q.whereConditions, panic);
    if start.Err? { return Err(start.error); }
    var chain := PlanChain(q, start.value);
    if chain.Err? { return Err(chain.error); }
    var antiJoins := CompileNotExists(q.whereConditions);
    if antiJoins.Err? { return Err(antiJoins.error); }
    r := Ok(QueryPlan(chain.value + antiJoins.value, q.projection));
  }

  // ---------------------------------------------------------------- laws

  /** `a > b` becomes `b < a`: flipping the operator undoes swapping the sides. */
  lemma FlipUndoesSwap(op: ComparisonOp, o: Ordering)
    ensures OpHolds(FlipOp(op), Reverse(o)) == OpHolds(op, o)
    ensures FlipOp(FlipOp(op)) == op
  {
  }

  lemma {:induction false} ChainStepsLaws(q: Query, start: PlanStep, k: nat)
    requires IsChainOf(q.pattern, k)
    ensures |ChainSteps(q, start, k)| == k + 1
    ensures ChainSteps(q, start, k)[0] == start
    ensures forall j :: 1 <= j <= k ==> IsChainOf(q.pattern, j) && ChainSteps(q, start, k)[j] == HopAt(q, j)
  {
    if k > 0 {
      ChainStepsLaws(q, start, k - 1);
      var shorter := ChainSteps(q, start, k - 1);
      SnocIndexes(shorter, HopAt(q, k));
    }
  }

  lemma {:induction false} ChainStepsPrefix(q: Query, start: PlanStep, k: nat, j: nat)
    requires j <= k && IsChainOf(q.pattern, k)
    ensures IsChainOf(q.pattern, j) && |ChainSteps(q, start, k)| == k + 1
    ensures ChainSteps(q, start, k)[..j + 1] == ChainSteps(q, start, j)
  {
    if j == k {
      ChainStepsLaws(q, start, k);
    } else {
      OneHopLess(q, start, k);
      ChainStepsPrefix(q, start, k - 1, j);
      PrefixOfPrefix(ChainSteps(q, start, k), k, j + 1);
    }
  }

  lemma OneHopLess(q: Query, start: PlanStep, k: nat)
    requires k > 0 && IsChainOf(q.pattern, k)
    ensures IsChainOf(q.pattern, k - 1) && |ChainSteps(q, start, k)| == k + 1
    ensures ChainSteps(q, start, k)[..k] == ChainSteps(q, start, k - 1)
  {
    ChainStepsLaws(q, start, k);
    ChainStepsLaws(q, start, k - 1);
  }

  lemma {:induction false} FiltersOnMembers(conditions: seq<WhereCondition>, alias: string)
    ensures forall f :: f in FiltersOn(conditions, alias) <==> PropertyCondition(alias, f) in conditions
  {
    if conditions != [] {
      var n := |conditions| - 1;
      FiltersOnMembers(conditions[..n], alias);
      assert conditions == conditions[..n] + [conditions[n]];
    }
  }

  lemma {:induction false} AntiJoinsMembers(conditions: seq<WhereCondition>)
    requires SubqueriesWellShaped(conditions)
    ensures forall i :: 0 <= i < |AntiJoins(conditions)| ==> AntiJoins(conditions)[i].AntiJoin?
    ensures forall s :: NotExists(s) in conditions ==> IsOneHop(s.pattern)
    ensures forall a ::
              AntiJoin(a) in AntiJoins(conditions) <==>
                exists s :: NotExists(s) in conditions && IsOneHop(s.pattern) && a == AntiJoinOf(s)
  {
    if conditions != [] {
      var n := |conditions| - 1;
      AntiJoinsMembers(conditions[..n]);
      assert conditions == conditions[..n] + [conditions[n]];
    }
  }

  lemma {:induction false} OuterConditionsMembers(conditions: seq<WhereCondition>, inner: Option<string>)
    ensures forall o ::
              o in OuterConditions(conditions, inner) <==> exists c :: c in conditions && OuterOf(c, inner) == Some(o)
  {
    if conditions != [] {
      var n := |conditions| - 1;
      OuterConditionsMembers(conditions[..n], inner);
      assert conditions == conditions[..n] + [conditions[n]];
    }
  }

  lemma {:induction false} LiteralConditionsMembers(conditions: seq<WhereCondition>, inner: Option<string>)
    ensures forall f ::
              f in LiteralConditions(conditions, inner) <==>
                exists a :: PropertyCondition(a, f) in conditions && IsInner(a, inner)
  {
    if conditions != [] {
      var n := |conditions| - 1;
      LiteralConditionsMembers(conditions[..n], inner);
      assert conditions == conditions[..n] + [conditions[n]];
    }
  }
}
