/** What a plan means on the unpartitioned tables, which a served cluster computes. */
module GlobalAnswer {
  import opened Basics
  import opened GraphModel
  import opened FilterEval
  import opened FilterMeaning
  import opened PropertyIndexes
  import opened Plan
  import opened Wire
  import opened Denotation

  // ---------------------------------------------------------------- reference semantics

  /** A path of table edges of the wanted type, each starting where the last one ended. */
  ghost predicate IsPath(t: Tables, v: NodeId, path: seq<EdgeRow>, edgeType: Option<string>, dir: Direction) {
    forall i :: 0 <= i < |path| ==> IsPathStep(t, v, path, i, edgeType, dir)
  }

  ghost predicate IsPathStep(t: Tables, v: NodeId, path: seq<EdgeRow>, i: nat, edgeType: Option<string>, dir: Direction)
    requires i < |path|
  {
    && path[i] in t.edges
    && TypeMatches(path[i].edgeType, edgeType)
    && Near(path[i], dir) == if i == 0 then v else Far(path[i - 1], dir)
  }

  /** Edge `i` of a path, in terms of sources and targets. */
  ghost predicate Follows(
      t: Tables, v: NodeId, path: seq<EdgeRow>, i: nat, edgeType: Option<string>, dir: Direction)
    requires i < |path|
  {
    && path[i] in t.edges && (edgeType == None || edgeType == Some(path[i].edgeType))
    && if dir.Outgoing? then path[i].src == (if i == 0 then v else path[i - 1].dst)
       else path[i].dst == (if i == 0 then v else path[i - 1].src)
  }

  /** A path, edge by edge: all of the named type if one is named; outgoing from `v` along
      sources and targets, incoming against them. */
  lemma PathIff(t: Tables, v: NodeId, path: seq<EdgeRow>, edgeType: Option<string>, dir: Direction)
    ensures IsPath(t, v, path, edgeType, dir) <==>
              forall i :: 0 <= i < |path| ==> Follows(t, v, path, i, edgeType, dir)
  {
    forall i | 0 <= i < |path|
      ensures Follows(t, v, path, i, edgeType, dir) <==> IsPathStep(t, v, path, i, edgeType, dir)
    {
    }
  }

  /** The row a path produces: the target is its last node, the edge alias its first edge. */
  ghost function RowOfPath(b: Binding, path: seq<EdgeRow>, step: PlanStep): Binding
    requires step.ExpandHop? && path != []
  {
    Extend(b, step.toAlias, Far(path[|path| - 1], step.direction), step.edgeAlias, path[0].id)
  }

  /** The literal writes the value stored under the outer alias. */
  ghost predicate OuterIs(t: Tables, b: Binding, outer: PropertyRef, literal: Literal) {
    if outer.alias in b.edges then
      exists e ::
        e in t.edges && e.id == b.edges[outer.alias] && IsWritten(e.properties, outer.property, literal)
    else
      && outer.alias in b.nodes
      && exists r ::
           r in t.nodes && r.id == b.nodes[outer.alias] && IsWritten(r.properties, outer.property, literal)
  }

  ghost predicate IsWritten(props: Properties, property: string, literal: Literal) {
    property in props && Writes(literal, props[property])
  }

  lemma LiteralOfRecord(props: Properties, property: string, literal: Literal)
    ensures LiteralOf(props, property) == Some(literal) <==> IsWritten(props, property, literal)
  {
    if property in props { LiteralOfValue(props[property], literal); }
  }

  ghost predicate Substituted(t: Tables, b: Binding, outers: seq<OuterCondition>, conditions: seq<PropertyFilter>) {
    && |conditions| == |outers|
    && forall i :: 0 <= i < |outers| ==>
         && conditions[i].property == outers[i].innerProperty
         && conditions[i].op == outers[i].op
         && OuterIs(t, b, outers[i].outer, conditions[i].value)
  }

  ghost predicate SomeEdgeSatisfies(
      t: Tables, parse: TsParser, step: AntiJoinStep, from: NodeId, to: NodeId, conditions: seq<PropertyFilter>)
  {
    exists e ::
      e in t.edges && e.src == from && e.dst == to && TypeMatches(e.edgeType, step.edgeType)
      && AllHold(parse, e.properties, conditions)
  }

  ghost predicate TargetPasses(t: Tables, parse: TsParser, v: NodeId, filters: seq<PropertyFilter>) {
    filters == [] || exists r :: r in t.nodes && r.id == v && AllHold(parse, r.properties, filters)
  }

  ghost predicate PathRow(t: Tables, parse: TsParser, step: PlanStep, b: Binding, path: seq<EdgeRow>, x: Binding)
    requires step.ExpandHop?
  {
    && step.fromAlias in b.nodes
    && path != [] && step.hops.min <= |path| <= step.hops.max
    && IsPath(t, b.nodes[step.fromAlias], path, step.edgeType, step.direction)
    && x == RowOfPath(b, path, step)
    && TargetPasses(t, parse, x.nodes[step.toAlias], step.filters)
  }

  ghost predicate NotExistsHolds(t: Tables, parse: TsParser, step: AntiJoinStep, x: Binding) {
    && step.fromAlias in x.nodes && step.toAlias in x.nodes
    && exists conditions ::
         && Substituted(t, x, step.outerConditions, conditions)
         && !SomeEdgeSatisfies(t, parse, step, x.nodes[step.fromAlias], x.nodes[step.toAlias], step.literalConditions + conditions)
  }

  ghost predicate StartRow(t: Tables, step: PlanStep, x: Binding) {
    match step
    case ResolveAll(alias, labelName) => exists r :: r in t.nodes && r.labelName == labelName && x == FromNode(alias, r.id)
    case ResolveStart(alias, labelName, property, key) =>
      exists r :: r in t.nodes && Carries(t.schema, r, labelName, property, key) && x == FromNode(alias, r.id)
    case _ => false
  }

  /** `x` is a row of the plan's answer. */
  ghost predicate InAnswer(t: Tables, parse: TsParser, steps: seq<PlanStep>, x: Binding) {
    if steps == [] then false
    else if |steps| == 1 then StartRow(t, steps[0], x)
    else
      var n := |steps| - 1;
      match steps[n]
      case ExpandHop(_, _, _, _, _, _, _, _) => exists b, path :: InAnswer(t, parse, steps[..n], b) && PathRow(t, parse, steps[n], b, path, x)
      case AntiJoin(a) => InAnswer(t, parse, steps[..n], x) && NotExistsHolds(t, parse, a, x)
      case _ => false
  }

  // ---------------------------------------------------------------- rounds are paths

  ghost function EndOf(v: NodeId, path: seq<EdgeRow>, dir: Direction): NodeId {
    if path == [] then v else Far(path[|path| - 1], dir)
  }

  /** A path every step of which a live partition can take. */
  ghost predicate IsWalk(w: World, v: NodeId, path: seq<EdgeRow>, step: PlanStep)
    requires step.ExpandHop?
  {
    path == [] ||
    var n := |path| - 1;
    IsWalk(w, v, path[..n], step) && CanCross(w, EndOf(v, path[..n], step.direction), path[n], step)
  }

  ghost predicate WalkRow(w: World, from: set<Binding>, step: PlanStep, b: Binding, path: seq<EdgeRow>, x: Binding)
    requires step.ExpandHop?
  {
    && b in from && step.fromAlias in b.nodes && path != []
    && IsWalk(w, b.nodes[step.fromAlias], path, step)
    && x == RowOfPath(b, path, step)
  }

  /** After round d the frontier holds exactly the rows of walks of length d. */
  lemma {:induction false} RoundsAreWalks(w: World, from: set<Binding>, step: PlanStep, d: nat, x: Binding)
    requires step.ExpandHop? && d > 0
    ensures x in Rounds(w, from, step, d) <==> exists b, path :: |path| == d && WalkRow(w, from, step, b, path, x)
  {
    if x in Rounds(w, from, step, d) {
      WalkOfRound(w, from, step, d, x);
    }
    if b, path :| |path| == d && WalkRow(w, from, step, b, path, x) {
      RoundOfWalk(w, from, step, b, path);
    }
  }

  lemma WalkSnoc(w: World, from: set<Binding>, step: PlanStep, b: Binding, path: seq<EdgeRow>, y: Binding, e: EdgeRow)
    requires step.ExpandHop? && WalkRow(w, from, step, b, path, y) && CanCross(w, y.nodes[step.toAlias], e, step)
    ensures WalkRow(w, from, step, b, path + [e], Extend(y, step.toAlias, Far(e, step.direction), None, e.id))
  {
    assert (path + [e])[..|path|] == path;
    assert (path + [e])[0] == path[0] && (path + [e])[|path|] == e;
  }

  lemma OneEdgeRow(w: World, from: set<Binding>, step: PlanStep, b: Binding, e: EdgeRow)
    requires step.ExpandHop? && b in from && step.fromAlias in b.nodes && CanCross(w, b.nodes[step.fromAlias], e, step)
    ensures WalkRow(w, from, step, b, [e], Extend(b, step.toAlias, Far(e, step.direction), step.edgeAlias, e.id))
  {
    assert [e][..0] == [];
    assert IsWalk(w, b.nodes[step.fromAlias], [], step);
  }

  ghost predicate HasWalk(w: World, from: set<Binding>, step: PlanStep, d: nat, x: Binding)
    requires step.ExpandHop?
  {
    exists b, path :: |path| == d && WalkRow(w, from, step, b, path, x)
  }

  lemma WalkOfFirst(w: World, from: set<Binding>, step: PlanStep, x: Binding)
    requires step.ExpandHop? && x in Hop(w, from, step.fromAlias, step, step.edgeAlias)
    ensures HasWalk(w, from, step, 1, x)
  {
    var b, e :| b in from && e in w.t.edges && step.fromAlias in b.nodes && CanCross(w, b.nodes[step.fromAlias], e, step)
                && x == Extend(b, step.toAlias, Far(e, step.direction), step.edgeAlias, e.id);
    OneEdgeRow(w, from, step, b, e);
    assert |[e]| == 1;
  }

  lemma WalkOfNext(w: World, from: set<Binding>, step: PlanStep, d: nat, y: Binding, e: EdgeRow)
    requires step.ExpandHop? && HasWalk(w, from, step, d, y) && step.toAlias in y.nodes
             && CanCross(w, y.nodes[step.toAlias], e, step)
    ensures HasWalk(w, from, step, d + 1, Extend(y, step.toAlias, Far(e, step.direction), None, e.id))
  {
    var b, path :| |path| == d && WalkRow(w, from, step, b, path, y);
    WalkSnoc(w, from, step, b, path, y, e);
    assert |path + [e]| == d + 1;
  }

  lemma LastHop(w: World, from: set<Binding>, step: PlanStep, d: nat, x: Binding) returns (y: Binding, e: EdgeRow)
    requires step.ExpandHop? && d > 1 && x in Rounds(w, from, step, d)
    ensures y in Rounds(w, from, step, d - 1) && e in w.t.edges
    ensures step.toAlias in y.nodes && CanCross(w, y.nodes[step.toAlias], e, step)
    ensures x == Extend(y, step.toAlias, Far(e, step.direction), None, e.id)
  {
    y, e :| y in Rounds(w, from, step, d - 1) && e in w.t.edges && step.toAlias in y.nodes
    && CanCross(w, y.nodes[step.toAlias], e, step)
            && x == Extend(y, step.toAlias, Far(e, step.direction), None, e.id);
  }

  lemma {:induction false} WalkOfRound(w: World, from: set<Binding>, step: PlanStep, d: nat, x: Binding)
    requires step.ExpandHop? && d > 0 && x in Rounds(w, from, step, d)
    ensures HasWalk(w, from, step, d, x)
  {
    if d == 1 {
      WalkOfFirst(w, from, step, x);
    } else {
      var y, e := LastHop(w, from, step, d, x);
      WalkOfRound(w, from, step, d - 1, y);
      WalkOfNext(w, from, step, d - 1, y, e);
    }
  }

  lemma {:induction false} RoundOfWalk(w: World, from: set<Binding>, step: PlanStep, b: Binding, path: seq<EdgeRow>)
    requires step.ExpandHop? && path != [] && WalkRow(w, from, step, b, path, RowOfPath(b, path, step))
    ensures RowOfPath(b, path, step) in Rounds(w, from, step, |path|)
  {
    var n := |path| - 1;
    if n == 0 {
      assert path[..0] == [];
    } else {
      RoundOfWalk(w, from, step, b, path[..n]);
      var y := RowOfPath(b, path[..n], step);
      assert RowOfPath(b, path, step) == Extend(y, step.toAlias, Far(path[n], step.direction), None, path[n].id);
    }
  }

  ghost predicate AcceptedAt(w: World, from: set<Binding>, step: PlanStep, k: nat, x: Binding)
    requires step.ExpandHop?
  {
    step.hops.min <= k && x in Rounds(w, from, step, k)
  }

  ghost predicate AcceptedUpTo(w: World, from: set<Binding>, step: PlanStep, d: nat, x: Binding)
    requires step.ExpandHop?
  {
    exists k :: 1 <= k <= d && AcceptedAt(w, from, step, k, x)
  }

  lemma OneMoreDepth(w: World, from: set<Binding>, step: PlanStep, d: nat, x: Binding)
    requires step.ExpandHop? && d > 0
    ensures AcceptedUpTo(w, from, step, d, x) <==>
              AcceptedUpTo(w, from, step, d - 1, x) || AcceptedAt(w, from, step, d, x)
  {
  }

  lemma AcceptedDepth(w: World, from: set<Binding>, step: PlanStep, d: nat, x: Binding)
    requires step.ExpandHop? && d > 0
    ensures x in Accepted(w, from, step, d) <==> x in Accepted(w, from, step, d - 1) || AcceptedAt(w, from, step, d, x)
  {
  }

  lemma {:induction false} AcceptedMembers(w: World, from: set<Binding>, step: PlanStep, d: nat, x: Binding)
    requires step.ExpandHop?
    ensures x in Accepted(w, from, step, d) <==> AcceptedUpTo(w, from, step, d, x)
  {
    if d > 0 {
      AcceptedMembers(w, from, step, d - 1, x);
      AcceptedDepth(w, from, step, d, x);
      OneMoreDepth(w, from, step, d, x);
    }
  }

  /** `accepted` is the union of walk endpoints for the lengths max(1, min) to max. */
  lemma AcceptedAreWalks(w: World, from: set<Binding>, step: PlanStep, x: Binding)
    requires step.ExpandHop?
    ensures x in Accepted(w, from, step, step.hops.max) <==>
              exists b, path :: step.hops.min <= |path| <= step.hops.max && WalkRow(w, from, step, b, path, x)
  {
    AcceptedMembers(w, from, step, step.hops.max, x);
    if x in Accepted(w, from, step, step.hops.max) {
      var k :| 1 <= k <= step.hops.max && AcceptedAt(w, from, step, k, x);
      RoundsAreWalks(w, from, step, k, x);
    }
    if b, path :| step.hops.min <= |path| <= step.hops.max && WalkRow(w, from, step, b, path, x) {
      RoundsAreWalks(w, from, step, |path|, x);
      assert AcceptedAt(w, from, step, |path|, x);
    }
  }

  // ---------------------------------------------------------------- a fully served cluster

  ghost predicate AllServed(w: World) {
    forall v :: Held(w, v)
  }

  lemma ServedNode(w: World, v: NodeId)
    requires AllServed(w)
    ensures Held(w, v) && Reachable(w, v) && Shown(w, v)
  {
    assert Held(w, v);
  }

  ghost predicate CleanTables(t: Tables) {
    UniqueIds(t) && EndpointsExist(t)
  }

  ghost predicate NotExistsOutgoing(steps: seq<PlanStep>) {
    forall i :: 0 <= i < |steps| && steps[i].AntiJoin? ==> steps[i].step.direction == Outgoing
  }

  lemma PathSnoc(t: Tables, v: NodeId, path: seq<EdgeRow>, edgeType: Option<string>, dir: Direction)
    requires path != []
    ensures var n := |path| - 1;
            IsPath(t, v, path, edgeType, dir) <==>
              && IsPath(t, v, path[..n], edgeType, dir)
              && path[n] in t.edges && TypeMatches(path[n].edgeType, edgeType)
                 && Near(path[n], dir) == EndOf(v, path[..n], dir)
  {
    var n := |path| - 1;
    forall i | 0 <= i < n
      ensures IsPathStep(t, v, path[..n], i, edgeType, dir) == IsPathStep(t, v, path, i, edgeType, dir)
    {
    }
    assert IsPathStep(t, v, path, n, edgeType, dir) <==>
      path[n] in t.edges && TypeMatches(path[n].edgeType, edgeType) && Near(path[n], dir) == EndOf(v, path[..n], dir);
  }

  lemma {:induction false} WalksArePaths(w: World, v: NodeId, path: seq<EdgeRow>, step: PlanStep)
    requires step.ExpandHop? && AllServed(w) && CleanTables(w.t)
    ensures IsWalk(w, v, path, step) <==> IsPath(w.t, v, path, step.edgeType, step.direction)
  {
    if path != [] {
      var n := |path| - 1;
      WalksArePaths(w, v, path[..n], step);
      PathSnoc(w.t, v, path, step.edgeType, step.direction);
    }
  }

  lemma NodePropsOf(w: World, v: NodeId)
    requires UniqueIds(w.t) && Held(w, v)
    ensures NodeProps(w, v).Some? <==> v in NodeIds(w.t)
    ensures forall r :: r in w.t.nodes && r.id == v ==> NodeProps(w, v) == Some(r.properties)
  {
    forall r | r in w.t.nodes && r.id == v ensures NodeProps(w, v) == Some(r.properties) {
      NodePropsUnique(w, r);
    }
  }

  lemma OuterIsLiteral(w: World, sc: Scope, b: Binding, outer: PropertyRef, literal: Literal)
    requires AllServed(w) && UniqueIds(w.t) && FitsScope(b, sc)
    ensures OuterLiteral(w, sc, b, outer) == Some(literal) <==> OuterIs(w.t, b, outer, literal)
  {
    if outer.alias in b.edges {
      forall e | e in w.t.edges && e.id == b.edges[outer.alias]
        ensures EdgeProps(w, e.id) == Some(e.properties)
        ensures LiteralOf(e.properties, outer.property) == Some(literal) <==>
                  IsWritten(e.properties, outer.property, literal)
      {
        ServedNode(w, e.src);
        EdgePropsUnique(w, e);
        LiteralOfRecord(e.properties, outer.property, literal);
      }
    } else if outer.alias in b.nodes {
      NodePropsOf(w, b.nodes[outer.alias]);
      forall r: NodeRow
        ensures LiteralOf(r.properties, outer.property) == Some(literal) <==>
                  IsWritten(r.properties, outer.property, literal)
      {
        LiteralOfRecord(r.properties, outer.property, literal);
      }
    }
  }

  lemma SubstitutedSnoc(t: Tables, b: Binding, outers: seq<OuterCondition>, conditions: seq<PropertyFilter>)
    requires |conditions| == |outers| > 0
    ensures var n := |outers| - 1;
            Substituted(t, b, outers, conditions) <==>
              && Substituted(t, b, outers[..n], conditions[..n])
              && conditions[n].property == outers[n].innerProperty && conditions[n].op == outers[n].op
              && OuterIs(t, b, outers[n].outer, conditions[n].value)
  {
    var n := |outers| - 1;
    assert forall i :: 0 <= i < n ==> outers[..n][i] == outers[i];
    assert forall i :: 0 <= i < n ==> conditions[..n][i] == conditions[i];
  }

  lemma SplitConditions(conditions: seq<PropertyFilter>, front: seq<PropertyFilter>, last: PropertyFilter)
    requires conditions != []
    ensures conditions == front + [last] <==>
              conditions[..|conditions| - 1] == front && conditions[|conditions| - 1] == last
  {
    FrontAndLast(conditions);
  }

  lemma {:induction false} ResolvedIsSubstituted(
      w: World, sc: Scope, b: Binding, outers: seq<OuterCondition>, conditions: seq<PropertyFilter>)
    requires AllServed(w) && UniqueIds(w.t) && FitsScope(b, sc)
    ensures Resolved(w, sc, b, outers) == Some(conditions) <==> Substituted(w.t, b, outers, conditions)
  {
    if outers != [] {
      var n := |outers| - 1;
      if |conditions| == |outers| {
        ResolvedIsSubstituted(w, sc, b, outers[..n], conditions[..n]);
        OuterIsLiteral(w, sc, b, outers[n].outer, conditions[n].value);
        SubstitutedSnoc(w.t, b, outers, conditions);
        ResolvedSnoc(w, sc, b, outers, conditions);
      } else {
        ResolvedLength(w, sc, b, outers);
      }
    }
  }

  lemma ResolvedSnoc(w: World, sc: Scope, b: Binding, outers: seq<OuterCondition>, conditions: seq<PropertyFilter>)
    requires |conditions| == |outers| > 0
    ensures var n := |outers| - 1;
            Resolved(w, sc, b, outers) == Some(conditions) <==>
              && Resolved(w, sc, b, outers[..n]) == Some(conditions[..n])
              && conditions[n].property == outers[n].innerProperty && conditions[n].op == outers[n].op
              && OuterLiteral(w, sc, b, outers[n].outer) == Some(conditions[n].value)
  {
    var n := |outers| - 1;
    var front, literal := Resolved(w, sc, b, outers[..n]), OuterLiteral(w, sc, b, outers[n].outer);
    if front.Some? && literal.Some? {
      SplitConditions(conditions, front.value, PropertyFilter(outers[n].innerProperty, outers[n].op, literal.value));
    }
  }

  lemma {:induction false} ResolvedLength(w: World, sc: Scope, b: Binding, outers: seq<OuterCondition>)
    ensures Resolved(w, sc, b, outers).Some? ==> |Resolved(w, sc, b, outers).value| == |outers|
  {
    if outers != [] { ResolvedLength(w, sc, b, outers[..|outers| - 1]); }
  }

  /** Distributed NOT EXISTS: a binding survives exactly when its outer values resolve
      and no edge of the global table satisfies the conditions with them substituted. */
  lemma SurvivalIsNotExists(w: World, sc: Scope, b: Binding, step: AntiJoinStep)
    requires AllServed(w) && CleanTables(w.t) && FitsScope(b, sc) && step.direction == Outgoing
    requires step.fromAlias in b.nodes && step.toAlias in b.nodes
    ensures Survives(w, sc, b, step) <==> NotExistsHolds(w.t, w.parse, step, b)
  {
    var from, to := b.nodes[step.fromAlias], b.nodes[step.toAlias];
    ServedNode(w, from);
    forall conditions
      ensures (exists e :: Refutes(w, from, to, e, step, conditions)) <==>
                SomeEdgeSatisfies(w.t, w.parse, step, from, to, conditions)
    {
      if SomeEdgeSatisfies(w.t, w.parse, step, from, to, conditions) {
        var e :| e in w.t.edges && e.src == from && e.dst == to && TypeMatches(e.edgeType, step.edgeType)
                 && AllHold(w.parse, e.properties, conditions);
        assert Refutes(w, from, to, e, step, conditions);
      }
    }
    if Survives(w, sc, b, step) {
      var conditions := Resolved(w, sc, b, step.outerConditions).value;
      ResolvedIsSubstituted(w, sc, b, step.outerConditions, conditions);
    }
    if NotExistsHolds(w.t, w.parse, step, b) {
      var conditions :|
        && Substituted(w.t, b, step.outerConditions, conditions)
        && !SomeEdgeSatisfies(w.t, w.parse, step, from, to, step.literalConditions + conditions);
      ResolvedIsSubstituted(w, sc, b, step.outerConditions, conditions);
    }
  }

  lemma StartIsGlobal(w: World, step: PlanStep, x: Binding)
    requires AllServed(w) && (step.ResolveStart? || step.ResolveAll?)
    ensures x in DenoteStart(w, step).value <==> StartRow(w.t, step, x)
  {
    forall v ensures Shown(w, v) { ServedNode(w, v); }
  }

  lemma FilterIsGlobal(w: World, from: set<Binding>, step: PlanStep, x: Binding)
    requires AllServed(w) && UniqueIds(w.t) && step.ExpandHop? && step.toAlias in x.nodes
    ensures x in Filtered(w, from, step.toAlias, step.filters) <==>
              x in from && TargetPasses(w.t, w.parse, x.nodes[step.toAlias], step.filters)
  {
    NodePropsOf(w, x.nodes[step.toAlias]);
  }

  lemma HopIsGlobal(w: World, from: set<Binding>, step: PlanStep, x: Binding)
    requires AllServed(w) && CleanTables(w.t) && step.ExpandHop?
    ensures x in Filtered(w, Accepted(w, from, step, step.hops.max), step.toAlias, step.filters) <==>
              exists b, path :: b in from && PathRow(w.t, w.parse, step, b, path, x)
  {
    AcceptedAreWalks(w, from, step, x);
    if x in Filtered(w, Accepted(w, from, step, step.hops.max), step.toAlias, step.filters) {
      var b, path :| step.hops.min <= |path| <= step.hops.max && WalkRow(w, from, step, b, path, x);
      WalksArePaths(w, b.nodes[step.fromAlias], path, step);
      FilterIsGlobal(w, Accepted(w, from, step, step.hops.max), step, x);
      assert PathRow(w.t, w.parse, step, b, path, x);
    }
    if b, path :| b in from && PathRow(w.t, w.parse, step, b, path, x) {
      WalksArePaths(w, b.nodes[step.fromAlias], path, step);
      assert WalkRow(w, from, step, b, path, x);
      FilterIsGlobal(w, Accepted(w, from, step, step.hops.max), step, x);
    }
  }

  /** With every partition served and clean tables, the plan's answer is the global one:
      the number of partitions and the hash function do not show. */
  lemma {:induction false} DistributedIsGlobal(w: World, steps: seq<PlanStep>, x: Binding)
    requires AllServed(w) && CleanTables(w.t) && NotExistsOutgoing(steps) && Denote(w, steps).Ok?
    ensures x in Denote(w, steps).value <==> InAnswer(w.t, w.parse, steps, x)
  {
    var n := |steps| - 1;
    if n == 0 {
      StartIsGlobal(w, steps[0], x);
    } else {
      var from := Denote(w, steps[..n]).value;
      forall y ensures y in from <==> InAnswer(w.t, w.parse, steps[..n], y) {
        DistributedIsGlobal(w, steps[..n], y);
      }
      match steps[n] {
        case ExpandHop(_, _, _, _, _, _, _, _) =>
          HopIsGlobal(w, from, steps[n], x);
        case AntiJoin(a) =>
          AntiJoinIsGlobal(w, steps[..n], a, x);
        case ResolveStart(_, _, _, _) =>
        case ResolveAll(_, _) =>
      }
    }
  }

  lemma AntiJoinIsGlobal(w: World, prefix: seq<PlanStep>, a: AntiJoinStep, x: Binding)
    requires AllServed(w) && CleanTables(w.t) && a.direction == Outgoing && Denote(w, prefix).Ok?
    requires DenoteAntiJoin(w, ScopeOf(prefix), Denote(w, prefix).value, a).Ok?
    ensures x in DenoteAntiJoin(w, ScopeOf(prefix), Denote(w, prefix).value, a).value <==>
              x in Denote(w, prefix).value && NotExistsHolds(w.t, w.parse, a, x)
  {
    var sc, from := ScopeOf(prefix), Denote(w, prefix).value;
    DenoteFitsScope(w, prefix);
    if x in from {
      if a.fromAlias in x.nodes && a.toAlias in x.nodes {
        SurvivalIsNotExists(w, sc, x, a);
      }
      if ConditionsFor(w, sc, x, a).None? && NotExistsHolds(w.t, w.parse, a, x) {
        assert false;
      }
      if ConditionsFor(w, sc, x, a).Some? {
        assert x in Resolvable(w, sc, from, a);
      }
    }
  }
}
