/** What a plan answers on tables spread over partitions of which some are live. */
module Denotation {
  import opened Basics
  import opened GraphModel
  import opened FilterEval
  import opened PropertyIndexes
  import opened Plan
  import opened Wire

  /** The tables, the hash that spreads them, and for each partition with a healthy replica
      the share that replica really holds. */
  datatype World = World(t: Tables, h: Hasher, route: map<PartitionId, PartitionId>, parse: TsParser)

  /** There is a replica to ask about the node. */
  ghost predicate Reachable(w: World, v: NodeId) {
    PartitionOf(w.h, v) in w.route
  }

  /** The replica asked about the node holds its share. */
  ghost predicate Held(w: World, v: NodeId) {
    Reachable(w, v) && w.route[PartitionOf(w.h, v)] == PartitionOf(w.h, v)
  }

  /** Some replica asked in a broadcast holds the node's share. */
  ghost predicate Shown(w: World, v: NodeId) {
    PartitionOf(w.h, v) in w.route.Values
  }

  // ---------------------------------------------------------------- start steps

  ghost function AllOfLabel(w: World, alias: string, labelName: string): set<Binding> {
    set r | r in w.t.nodes && r.labelName == labelName && Shown(w, r.id) :: FromNode(alias, r.id)
  }

  ghost function AllWithKey(
      w: World, alias: string, labelName: string, property: string, key: PropertyKey): set<Binding> {
    set r | r in w.t.nodes && Carries(w.t.schema, r, labelName, property, key) && Shown(w, r.id) ::
      FromNode(alias, r.id)
  }

  // ---------------------------------------------------------------- hops

  /** The edge shows in the adjacency of its near endpoint: a far endpoint that is
      missing from the tables hides it only if it hashes to the same partition. */
  ghost predicate Visible(w: World, e: EdgeRow, dir: Direction) {
    && Near(e, dir) in NodeIds(w.t)
    && (Far(e, dir) in NodeIds(w.t) || PartitionOf(w.h, Far(e, dir)) != PartitionOf(w.h, Near(e, dir)))
  }

  ghost predicate CanCross(w: World, v: NodeId, e: EdgeRow, step: PlanStep)
    requires step.ExpandHop?
  {
    && e in w.t.edges
    && Near(e, step.direction) == v
    && TypeMatches(e.edgeType, step.edgeType)
    && Visible(w, e, step.direction)
    && Held(w, v)
  }

  /** One network round: every binding steps over every edge at its cursor. */
  ghost function Hop(
      w: World, from: set<Binding>, cursor: string, step: PlanStep, edgeAlias: Option<string>): set<Binding>
    requires step.ExpandHop?
  {
    set b, e | b in from && e in w.t.edges && cursor in b.nodes && CanCross(w, b.nodes[cursor], e, step) ::
      Extend(b, step.toAlias, Far(e, step.direction), edgeAlias, e.id)
  }

  /** The frontier after `d` rounds: the first leaves `fromAlias` and names the edge,
      later ones go on from `toAlias`. */
  ghost function Rounds(w: World, from: set<Binding>, step: PlanStep, d: nat): set<Binding>
    requires step.ExpandHop?
  {
    if d == 0 then from
    else if d == 1 then Hop(w, from, step.fromAlias, step, step.edgeAlias)
    else Hop(w, Rounds(w, from, step, d - 1), step.toAlias, step, None)
  }

  ghost function Accepted(w: World, from: set<Binding>, step: PlanStep, d: nat): set<Binding>
    requires step.ExpandHop?
  {
    if d == 0 then {}
    else Accepted(w, from, step, d - 1) + (if d >= step.hops.min then Rounds(w, from, step, d) else {})
  }

  // ---------------------------------------------------------------- hydration

  /** The record a live partition returns for a node. */
  ghost function NodeProps(w: World, v: NodeId): Option<Properties> {
    if exists r :: r in w.t.nodes && r.id == v && Held(w, v)
    then var r :| r in w.t.nodes && r.id == v; Some(r.properties)
    else None
  }

  /** Edge records are held by the partition of the source. */
  ghost function EdgeProps(w: World, id: EdgeId): Option<Properties> {
    if exists e :: e in w.t.edges && e.id == id && Shown(w, e.src)
    then var e :| e in w.t.edges && e.id == id && Shown(w, e.src); Some(e.properties)
    else None
  }

  lemma NodePropsUnique(w: World, r: NodeRow)
    requires UniqueIds(w.t) && r in w.t.nodes && Held(w, r.id)
    ensures NodeProps(w, r.id) == Some(r.properties)
  {
    var q :| q in w.t.nodes && q.id == r.id && NodeProps(w, r.id) == Some(q.properties);
    var i :| 0 <= i < |w.t.nodes| && w.t.nodes[i] == r;
    var j :| 0 <= j < |w.t.nodes| && w.t.nodes[j] == q;
  }

  lemma EdgePropsUnique(w: World, e: EdgeRow)
    requires UniqueIds(w.t) && e in w.t.edges && Shown(w, e.src)
    ensures EdgeProps(w, e.id) == Some(e.properties)
  {
    var q :| q in w.t.edges && q.id == e.id && Shown(w, q.src) && EdgeProps(w, e.id) == Some(q.properties);
    var i :| 0 <= i < |w.t.edges| && w.t.edges[i] == e;
    var j :| 0 <= j < |w.t.edges| && w.t.edges[j] == q;
  }

  ghost predicate PassesFilters(w: World, b: Binding, alias: string, filters: seq<PropertyFilter>) {
    && alias in b.nodes
    && NodeProps(w, b.nodes[alias]).Some?
    && AllHold(w.parse, NodeProps(w, b.nodes[alias]).value, filters)
  }

  ghost function Filtered(w: World, from: set<Binding>, alias: string, filters: seq<PropertyFilter>): set<Binding> {
    if filters == [] then from else set b | b in from && PassesFilters(w, b, alias, filters)
  }

  // ---------------------------------------------------------------- NOT EXISTS

  /** The aliases every binding of a frontier has, fixed by the plan so far. */
  datatype Scope = Scope(nodes: set<string>, edges: set<string>)

  ghost predicate FitsScope(b: Binding, sc: Scope) {
    b.nodes.Keys == sc.nodes && b.edges.Keys == sc.edges
  }

  ghost predicate AllFit(from: set<Binding>, sc: Scope) {
    forall b :: b in from ==> FitsScope(b, sc)
  }

  /** An alias bound to an edge wins over a node of the same name. */
  ghost function OuterLiteral(w: World, sc: Scope, b: Binding, outer: PropertyRef): Option<Literal> {
    var props :=
      if outer.alias in sc.edges then (if outer.alias in b.edges then EdgeProps(w, b.edges[outer.alias]) else None)
      else if outer.alias in b.nodes then NodeProps(w, b.nodes[outer.alias])
      else None;
    if props.Some? then LiteralOf(props.value, outer.property) else None
  }

  /** The outer conditions with this binding's own values substituted. */
  ghost function Resolved(w: World, sc: Scope, b: Binding, outers: seq<OuterCondition>): Option<seq<PropertyFilter>> {
    if outers == [] then Some([])
    else
      var last := outers[|outers| - 1];
      var front := Resolved(w, sc, b, outers[..|outers| - 1]);
      var literal := OuterLiteral(w, sc, b, last.outer);
      if front.Some? && literal.Some? then Some(front.value + [PropertyFilter(last.innerProperty, last.op, literal.value)]) else None
  }

  ghost function ConditionsFor(w: World, sc: Scope, b: Binding, step: AntiJoinStep): Option<seq<PropertyFilter>> {
    var outer := Resolved(w, sc, b, step.outerConditions);
    if outer.Some? then Some(step.literalConditions + outer.value) else None
  }

  /** An edge of the global table that refutes NOT EXISTS for these two nodes. The
      partition asked is the one of `from`; it holds the record of the edges it owns. */
  ghost predicate Refutes(
      w: World, from: NodeId, to: NodeId, e: EdgeRow, step: AntiJoinStep, conditions: seq<PropertyFilter>)
  {
    && e in w.t.edges
    && Near(e, step.direction) == from
    && Far(e, step.direction) == to
    && TypeMatches(e.edgeType, step.edgeType)
    && Visible(w, e, step.direction)
    && Held(w, from) && PartitionOf(w.h, e.src) == PartitionOf(w.h, from)
    && AllHold(w.parse, e.properties, conditions)
  }

  ghost predicate Survives(w: World, sc: Scope, b: Binding, step: AntiJoinStep)
    requires step.fromAlias in b.nodes && step.toAlias in b.nodes
  {
    && ConditionsFor(w, sc, b, step).Some?
    && Reachable(w, b.nodes[step.fromAlias])
    && !exists e :: Refutes(w, b.nodes[step.fromAlias], b.nodes[step.toAlias], e, step, ConditionsFor(w, sc, b, step).value)
  }

  ghost function Surviving(w: World, sc: Scope, from: set<Binding>, step: AntiJoinStep): set<Binding> {
    set b | b in from && step.fromAlias in b.nodes && step.toAlias in b.nodes && Survives(w, sc, b, step)
  }

  ghost function Resolvable(w: World, sc: Scope, from: set<Binding>, step: AntiJoinStep): set<Binding> {
    set b | b in from && ConditionsFor(w, sc, b, step).Some?
  }

  ghost predicate InScope(alias: string, sc: Scope) {
    alias in sc.nodes || alias in sc.edges
  }

  /** The first outer alias the frontier does not bind. */
  ghost function UnboundOuter(sc: Scope, outers: seq<OuterCondition>): Option<string> {
    if outers == [] then None
    else if !InScope(outers[0].outer.alias, sc) then Some(outers[0].outer.alias)
    else UnboundOuter(sc, outers[1..])
  }

  // ---------------------------------------------------------------- whole plans

  ghost function DenoteStart(w: World, step: PlanStep): Result<set<Binding>, ExecutionError> {
    match step
    case ResolveAll(alias, labelName) => Ok(AllOfLabel(w, alias, labelName))
    case ResolveStart(alias, labelName, property, key) => Ok(AllWithKey(w, alias, labelName, property, key))
    case _ => Err(FirstStepNotResolve)
  }

  ghost function DenoteHop(
      w: World, sc: Scope, from: set<Binding>, step: PlanStep): Result<set<Binding>, ExecutionError>
    requires step.ExpandHop?
  {
    if from != {} && step.hops.max >= 1 && step.fromAlias !in sc.nodes then Err(UnknownAlias(step.fromAlias))
    else Ok(Filtered(w, Accepted(w, from, step, step.hops.max), step.toAlias, step.filters))
  }

  ghost predicate NeedsTarget(w: World, from: set<Binding>, step: AntiJoinStep) {
    exists b :: b in from && step.fromAlias in b.nodes && Reachable(w, b.nodes[step.fromAlias])
  }

  /** The checks dispatched for the bindings whose conditions resolve. */
  ghost function DenoteChecks(
      w: World, sc: Scope, resolvable: set<Binding>, step: AntiJoinStep): Result<set<Binding>, ExecutionError> {
    if resolvable == {} then Ok({})
    else if step.fromAlias !in sc.nodes then Err(UnknownAlias(step.fromAlias))
    else if step.toAlias !in sc.nodes && NeedsTarget(w, resolvable, step) then Err(Rpc(UnknownAlias(step.toAlias)))
    else Ok(Surviving(w, sc, resolvable, step))
  }

  ghost function DenoteAntiJoin(
      w: World, sc: Scope, from: set<Binding>, step: AntiJoinStep): Result<set<Binding>, ExecutionError> {
    if from == {} then Ok({})
    else if UnboundOuter(sc, step.outerConditions).Some? then Err(UnknownAlias(UnboundOuter(sc, step.outerConditions).value))
    else DenoteChecks(w, sc, Resolvable(w, sc, from, step), step)
  }

  function ScopeAfter(sc: Scope, step: PlanStep): Scope {
    match step
    case ResolveStart(alias, _, _, _) => Scope({alias}, {})
    case ResolveAll(alias, _) => Scope({alias}, {})
    case ExpandHop(_, to, _, _, _, _, _, ea) => Scope(sc.nodes + {to}, if ea.Some? then sc.edges + {ea.value} else sc.edges)
    case AntiJoin(_) => sc
  }

  function ScopeOf(steps: seq<PlanStep>): Scope {
    if steps == [] then Scope({}, {}) else ScopeAfter(ScopeOf(steps[..|steps| - 1]), steps[|steps| - 1])
  }

  ghost function DenoteStep(
      w: World, sc: Scope, from: set<Binding>, step: PlanStep): Result<set<Binding>, ExecutionError> {
    match step
    case ExpandHop(_, _, _, _, _, _, _, _) => DenoteHop(w, sc, from, step)
    case AntiJoin(a) => DenoteAntiJoin(w, sc, from, a)
    case _ => Err(ResolveNotFirst)
  }

  ghost function Denote(w: World, steps: seq<PlanStep>): Result<set<Binding>, ExecutionError> {
    if steps == [] then Err(EmptyPlan)
    else if |steps| == 1 then DenoteStart(w, steps[0])
    else
      var n := |steps| - 1;
      match Denote(w, steps[..n])
      case Err(e) => Err(e)
      case Ok(from) => DenoteStep(w, ScopeOf(steps[..n]), from, steps[n])
  }

  // ---------------------------------------------------------------- every row has the plan's aliases

  lemma {:induction false} RoundsFit(w: World, from: set<Binding>, sc: Scope, step: PlanStep, d: nat)
    requires step.ExpandHop? && AllFit(from, sc) && d > 0
    ensures AllFit(Rounds(w, from, step, d), ScopeAfter(sc, step))
  {
    var sc' := ScopeAfter(sc, step);
    if d == 1 {
      forall x | x in Rounds(w, from, step, 1) ensures FitsScope(x, sc') {
        var b, e :| b in from && e in w.t.edges
                    && x == Extend(b, step.toAlias, Far(e, step.direction), step.edgeAlias, e.id);
      }
    } else {
      RoundsFit(w, from, sc, step, d - 1);
      forall x | x in Rounds(w, from, step, d) ensures FitsScope(x, sc') {
        var b, e :| b in Rounds(w, from, step, d - 1) && e in w.t.edges
                    && x == Extend(b, step.toAlias, Far(e, step.direction), None, e.id);
      }
    }
  }

  lemma {:induction false} AcceptedFit(w: World, from: set<Binding>, sc: Scope, step: PlanStep, d: nat)
    requires step.ExpandHop? && AllFit(from, sc)
    ensures AllFit(Accepted(w, from, step, d), ScopeAfter(sc, step))
  {
    if d > 0 {
      AcceptedFit(w, from, sc, step, d - 1);
      RoundsFit(w, from, sc, step, d);
    }
  }

  /** Every row of every frontier binds exactly the aliases of the executed plan prefix. */
  lemma {:induction false} DenoteFitsScope(w: World, steps: seq<PlanStep>)
    requires Denote(w, steps).Ok?
    ensures AllFit(Denote(w, steps).value, ScopeOf(steps))
  {
    var n := |steps| - 1;
    if n == 0 {
      assert steps[..0] == [];
    } else {
      DenoteFitsScope(w, steps[..n]);
      var from := Denote(w, steps[..n]).value;
      if steps[n].ExpandHop? {
        AcceptedFit(w, from, ScopeOf(steps[..n]), steps[n], steps[n].hops.max);
      }
    }
  }

  lemma {:induction false} ErrorSticks(w: World, steps: seq<PlanStep>, i: nat)
    requires 0 < i <= |steps| && Denote(w, steps[..i]).Err?
    ensures Denote(w, steps) == Denote(w, steps[..i])
    decreases |steps|
  {
    if i == |steps| {
      assert steps[..i] == steps;
    } else {
      var n := |steps| - 1;
      assert steps[..n][..i] == steps[..i];
      ErrorSticks(w, steps[..n], i);
    }
  }
}
