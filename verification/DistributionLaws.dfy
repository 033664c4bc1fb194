/** Laws of the distributed answer: losing replicas, changing the partitioning, scope
    safety and row counts. */
module DistributionLaws {
  import opened Basics
  import opened GraphModel
  import opened FilterEval
  import opened Plan
  import opened Denotation
  import opened GlobalAnswer

  // ---------------------------------------------------------------- losing replicas

  /** Same tables and hash; every partition with an answer in `w1` has the same one in `w2`,
      right or wrong. */
  ghost predicate FewerLive(w1: World, w2: World) {
    w1.t == w2.t && w1.h == w2.h && w1.parse == w2.parse && SubRoute(w1.route, w2.route) && UniqueIds(w1.t)
  }

  ghost predicate SubRoute(a: map<PartitionId, PartitionId>, b: map<PartitionId, PartitionId>) {
    forall p :: p in a ==> p in b && b[p] == a[p]
  }

  lemma ShownGrows(w1: World, w2: World, v: NodeId)
    requires SubRoute(w1.route, w2.route) && w1.h == w2.h && Shown(w1, v)
    ensures Shown(w2, v)
  {
    var p :| p in w1.route && w1.route[p] == PartitionOf(w1.h, v);
    assert w2.route[p] in w2.route.Values;
  }

  lemma HopGrows(
      w1: World, w2: World, from1: set<Binding>, from2: set<Binding>, cursor: string, step: PlanStep,
      ea: Option<string>)
    requires FewerLive(w1, w2) && from1 <= from2 && step.ExpandHop?
    ensures Hop(w1, from1, cursor, step, ea) <= Hop(w2, from2, cursor, step, ea)
  {
    forall v, e | CanCross(w1, v, e, step) ensures CanCross(w2, v, e, step) {}
  }

  lemma {:induction false} RoundsGrow(
      w1: World, w2: World, from1: set<Binding>, from2: set<Binding>, step: PlanStep, d: nat)
    requires FewerLive(w1, w2) && from1 <= from2 && step.ExpandHop?
    ensures Rounds(w1, from1, step, d) <= Rounds(w2, from2, step, d)
  {
    if d == 1 {
      HopGrows(w1, w2, from1, from2, step.fromAlias, step, step.edgeAlias);
    } else if d > 1 {
      RoundsGrow(w1, w2, from1, from2, step, d - 1);
      HopGrows(w1, w2, Rounds(w1, from1, step, d - 1), Rounds(w2, from2, step, d - 1), step.toAlias, step, None);
    }
  }

  lemma {:induction false} AcceptedGrows(
      w1: World, w2: World, from1: set<Binding>, from2: set<Binding>, step: PlanStep, d: nat)
    requires FewerLive(w1, w2) && from1 <= from2 && step.ExpandHop?
    ensures Accepted(w1, from1, step, d) <= Accepted(w2, from2, step, d)
  {
    if d > 0 {
      AcceptedGrows(w1, w2, from1, from2, step, d - 1);
      RoundsGrow(w1, w2, from1, from2, step, d);
    }
  }

  lemma NodePropsGrow(w1: World, w2: World, v: NodeId)
    requires FewerLive(w1, w2) && NodeProps(w1, v).Some?
    ensures NodeProps(w2, v) == NodeProps(w1, v)
  {
    var r :| r in w1.t.nodes && r.id == v && Held(w1, v);
    NodePropsUnique(w1, r);
    NodePropsUnique(w2, r);
  }

  lemma EdgePropsGrow(w1: World, w2: World, id: EdgeId)
    requires FewerLive(w1, w2) && EdgeProps(w1, id).Some?
    ensures EdgeProps(w2, id) == EdgeProps(w1, id)
  {
    var e :| e in w1.t.edges && e.id == id && Shown(w1, e.src);
    ShownGrows(w1, w2, e.src);
    EdgePropsUnique(w1, e);
    EdgePropsUnique(w2, e);
  }

  lemma FilteredGrows(
      w1: World, w2: World, from1: set<Binding>, from2: set<Binding>, alias: string, filters: seq<PropertyFilter>)
    requires FewerLive(w1, w2) && from1 <= from2
    ensures Filtered(w1, from1, alias, filters) <= Filtered(w2, from2, alias, filters)
  {
    forall b | PassesFilters(w1, b, alias, filters) ensures PassesFilters(w2, b, alias, filters) {
      NodePropsGrow(w1, w2, b.nodes[alias]);
    }
  }

  lemma OuterLiteralGrows(w1: World, w2: World, sc: Scope, b: Binding, outer: PropertyRef)
    requires FewerLive(w1, w2) && OuterLiteral(w1, sc, b, outer).Some?
    ensures OuterLiteral(w2, sc, b, outer) == OuterLiteral(w1, sc, b, outer)
  {
    if outer.alias in sc.edges {
      EdgePropsGrow(w1, w2, b.edges[outer.alias]);
    } else {
      NodePropsGrow(w1, w2, b.nodes[outer.alias]);
    }
  }

  lemma {:induction false} ResolvedGrows(w1: World, w2: World, sc: Scope, b: Binding, outers: seq<OuterCondition>)
    requires FewerLive(w1, w2) && Resolved(w1, sc, b, outers).Some?
    ensures Resolved(w2, sc, b, outers) == Resolved(w1, sc, b, outers)
  {
    if outers != [] {
      var n := |outers| - 1;
      ResolvedGrows(w1, w2, sc, b, outers[..n]);
      OuterLiteralGrows(w1, w2, sc, b, outers[n].outer);
    }
  }

  lemma SurvivingGrows(w1: World, w2: World, sc: Scope, from1: set<Binding>, from2: set<Binding>, step: AntiJoinStep)
    requires FewerLive(w1, w2) && from1 <= from2
    ensures Resolvable(w1, sc, from1, step) <= Resolvable(w2, sc, from2, step)
    ensures Surviving(w1, sc, from1, step) <= Surviving(w2, sc, from2, step)
  {
    forall b | ConditionsFor(w1, sc, b, step).Some?
      ensures ConditionsFor(w2, sc, b, step) == ConditionsFor(w1, sc, b, step)
    {
      ResolvedGrows(w1, w2, sc, b, step.outerConditions);
    }
    forall from, to, e, conditions | Reachable(w1, from)
      ensures Refutes(w1, from, to, e, step, conditions) == Refutes(w2, from, to, e, step, conditions)
    {
    }
  }

  lemma AntiJoinGrows(w1: World, w2: World, sc: Scope, from1: set<Binding>, from2: set<Binding>, step: AntiJoinStep)
    requires FewerLive(w1, w2) && from1 <= from2 && DenoteAntiJoin(w2, sc, from2, step).Ok?
    ensures DenoteAntiJoin(w1, sc, from1, step).Ok?
    ensures DenoteAntiJoin(w1, sc, from1, step).value <= DenoteAntiJoin(w2, sc, from2, step).value
  {
    SurvivingGrows(w1, w2, sc, from1, from2, step);
    var r1, r2 := Resolvable(w1, sc, from1, step), Resolvable(w2, sc, from2, step);
    SurvivingGrows(w1, w2, sc, r1, r2, step);
    assert NeedsTarget(w1, r1, step) ==> NeedsTarget(w2, r2, step);
  }

  /** Losing replicas only loses rows, even through NOT EXISTS, and never turns a
      successful run into an error. */
  lemma {:induction false} LosingReplicasLosesRows(w1: World, w2: World, steps: seq<PlanStep>)
    requires FewerLive(w1, w2) && Denote(w2, steps).Ok?
    ensures Denote(w1, steps).Ok? && Denote(w1, steps).value <= Denote(w2, steps).value
  {
    var n := |steps| - 1;
    if n == 0 {
    } else {
      LosingReplicasLosesRows(w1, w2, steps[..n]);
      var sc, from1, from2 := ScopeOf(steps[..n]), Denote(w1, steps[..n]).value, Denote(w2, steps[..n]).value;
      match steps[n] {
        case ExpandHop(_, to, _, _, _, hops, filters, _) =>
          AcceptedGrows(w1, w2, from1, from2, steps[n], hops.max);
          FilteredGrows(
            w1, w2, Accepted(w1, from1, steps[n], hops.max), Accepted(w2, from2, steps[n], hops.max), to, filters);
        case AntiJoin(a) =>
          AntiJoinGrows(w1, w2, sc, from1, from2, a);
        case ResolveStart(_, _, _, _) =>
        case ResolveAll(_, _) =>
      }
    }
  }

  /** On clean tables a degraded cluster returns only rows of the full global answer. */
  lemma DegradedRowsAreAnswers(w: World, steps: seq<PlanStep>, x: Binding)
    requires CleanTables(w.t) && NotExistsOutgoing(steps)
    requires Denote(Served(w.t, w.h, w.parse), steps).Ok? && SubRoute(w.route, Served(w.t, w.h, w.parse).route)
    ensures Denote(w, steps).Ok?
    ensures x in Denote(w, steps).value ==> InAnswer(w.t, w.parse, steps, x)
  {
    var full := Served(w.t, w.h, w.parse);
    LosingReplicasLosesRows(w, full, steps);
    DistributedIsGlobal(full, steps, x);
  }

  // ---------------------------------------------------------------- the partitioning does not show

  ghost function Below(n: nat): (s: set<PartitionId>)
    ensures forall p :: p in s <==> 0 <= p < n
  {
    if n == 0 then {} else Below(n - 1) + {n - 1}
  }

  /** All partitions of the hash are live. */
  ghost function Served(t: Tables, h: Hasher, parse: TsParser): (w: World)
    ensures AllServed(w)
  {
    World(t, h, map p | p in Below(h.nPartitions) :: p, parse)
  }

  /** No edge has one endpoint in the tables and the other one missing. */
  ghost predicate NoHalfEdges(t: Tables) {
    forall e :: e in t.edges ==> (e.src in NodeIds(t) <==> e.dst in NodeIds(t))
  }

  ghost predicate SameData(w1: World, w2: World) {
    && w1.t == w2.t && w1.parse == w2.parse && AllServed(w1) && AllServed(w2)
    && UniqueIds(w1.t) && NoHalfEdges(w1.t)
  }

  lemma HopSame(w1: World, w2: World, from: set<Binding>, cursor: string, step: PlanStep, ea: Option<string>)
    requires SameData(w1, w2) && step.ExpandHop?
    ensures Hop(w1, from, cursor, step, ea) == Hop(w2, from, cursor, step, ea)
  {
    forall v, e ensures CanCross(w1, v, e, step) == CanCross(w2, v, e, step) {}
  }

  lemma {:induction false} RoundsSame(w1: World, w2: World, from: set<Binding>, step: PlanStep, d: nat)
    requires SameData(w1, w2) && step.ExpandHop?
    ensures Rounds(w1, from, step, d) == Rounds(w2, from, step, d)
  {
    if d == 1 {
      HopSame(w1, w2, from, step.fromAlias, step, step.edgeAlias);
    } else if d > 1 {
      RoundsSame(w1, w2, from, step, d - 1);
      HopSame(w1, w2, Rounds(w1, from, step, d - 1), step.toAlias, step, None);
    }
  }

  lemma {:induction false} AcceptedSame(w1: World, w2: World, from: set<Binding>, step: PlanStep, d: nat)
    requires SameData(w1, w2) && step.ExpandHop?
    ensures Accepted(w1, from, step, d) == Accepted(w2, from, step, d)
  {
    if d > 0 {
      AcceptedSame(w1, w2, from, step, d - 1);
      RoundsSame(w1, w2, from, step, d);
    }
  }

  lemma FilteredSame(w1: World, w2: World, from: set<Binding>, alias: string, filters: seq<PropertyFilter>)
    requires SameData(w1, w2)
    ensures Filtered(w1, from, alias, filters) == Filtered(w2, from, alias, filters)
  {
    forall v ensures NodeProps(w1, v) == NodeProps(w2, v) {
      NodePropsOf(w1, v);
      NodePropsOf(w2, v);
    }
  }

  lemma {:induction false} ConditionsSame(w1: World, w2: World, sc: Scope, b: Binding, step: AntiJoinStep)
    requires SameData(w1, w2) && FitsScope(b, sc)
    ensures ConditionsFor(w1, sc, b, step) == ConditionsFor(w2, sc, b, step)
  {
    var r1, r2 := Resolved(w1, sc, b, step.outerConditions), Resolved(w2, sc, b, step.outerConditions);
    if r1.Some? {
      ResolvedIsSubstituted(w1, sc, b, step.outerConditions, r1.value);
      ResolvedIsSubstituted(w2, sc, b, step.outerConditions, r1.value);
    } else if r2.Some? {
      ResolvedIsSubstituted(w1, sc, b, step.outerConditions, r2.value);
      ResolvedIsSubstituted(w2, sc, b, step.outerConditions, r2.value);
    }
  }

  lemma AntiJoinSame(w1: World, w2: World, sc: Scope, from: set<Binding>, step: AntiJoinStep)
    requires SameData(w1, w2) && AllFit(from, sc) && step.direction == Outgoing
    ensures DenoteAntiJoin(w1, sc, from, step) == DenoteAntiJoin(w2, sc, from, step)
  {
    forall b | b in from ensures ConditionsFor(w1, sc, b, step) == ConditionsFor(w2, sc, b, step) {
      ConditionsSame(w1, w2, sc, b, step);
    }
    forall v, to, e, conditions
      ensures Refutes(w1, v, to, e, step, conditions) == Refutes(w2, v, to, e, step, conditions)
    {
    }
    var r1, r2 := Resolvable(w1, sc, from, step), Resolvable(w2, sc, from, step);
    forall v ensures Reachable(w1, v) && Reachable(w2, v) { ServedNode(w1, v); ServedNode(w2, v); }
    assert r1 == r2;
    assert Surviving(w1, sc, r1, step) == Surviving(w2, sc, r2, step);
    assert NeedsTarget(w1, r1, step) == NeedsTarget(w2, r2, step);
  }

  /** Rows and errors alike do not depend on how many partitions there are or on the hash. */
  lemma {:induction false} PartitioningInvisible(w1: World, w2: World, steps: seq<PlanStep>)
    requires SameData(w1, w2) && NotExistsOutgoing(steps)
    ensures Denote(w1, steps) == Denote(w2, steps)
  {
    var n := |steps| - 1;
    if n == 0 {
      if steps[0].ResolveAll? || steps[0].ResolveStart? {
        forall v ensures Shown(w1, v) && Shown(w2, v) { ServedNode(w1, v); ServedNode(w2, v); }
        assert DenoteStart(w1, steps[0]).value == DenoteStart(w2, steps[0]).value;
      }
    } else if n > 0 {
      PartitioningInvisible(w1, w2, steps[..n]);
      if Denote(w1, steps[..n]).Ok? {
        var from := Denote(w1, steps[..n]).value;
        DenoteFitsScope(w1, steps[..n]);
        match steps[n] {
          case ExpandHop(_, to, _, _, _, hops, filters, _) =>
            AcceptedSame(w1, w2, from, steps[n], hops.max);
            FilteredSame(w1, w2, Accepted(w1, from, steps[n], hops.max), to, filters);
          case AntiJoin(a) =>
            AntiJoinSame(w1, w2, ScopeOf(steps[..n]), from, a);
          case ResolveStart(_, _, _, _) =>
          case ResolveAll(_, _) =>
        }
      }
    }
  }

  /** A probe that tells two partitionings apart on a table with a half edge. */
  ghost function ProbePlan(labelName: string, dir: Direction): seq<PlanStep> {
    [ResolveAll("a", labelName), ExpandHop("a", "b", None, None, dir, HopRange(1, 1), [], Some("e"))]
  }

  ghost function ProbeRow(e: EdgeRow, dir: Direction): Binding {
    Extend(FromNode("a", Near(e, dir)), "b", Far(e, dir), Some("e"), e.id)
  }

  lemma ProbeAnswer(w: World, r: NodeRow, e: EdgeRow, dir: Direction)
    requires AllServed(w) && UniqueIds(w.t) && r in w.t.nodes && e in w.t.edges && Near(e, dir) == r.id
    ensures Denote(w, ProbePlan(r.labelName, dir)).Ok?
    ensures ProbeRow(e, dir) in Denote(w, ProbePlan(r.labelName, dir)).value <==> Visible(w, e, dir)
  {
    var steps := ProbePlan(r.labelName, dir);
    var from := AllOfLabel(w, "a", r.labelName);
    assert steps[..1] == [steps[0]] && steps[..1][..0] == [];
    assert Denote(w, steps[..1]) == Ok(from);
    assert ScopeOf(steps[..1]) == Scope({"a"}, {});
    var hop := Hop(w, from, "a", steps[1], Some("e"));
    assert Accepted(w, from, steps[1], 0) == {};
    assert Accepted(w, from, steps[1], 1) == Rounds(w, from, steps[1], 1) == hop;
    ServedNode(w, r.id);
    assert FromNode("a", r.id) in from;
    if ProbeRow(e, dir) in hop {
      var b, q :| b in from && q in w.t.edges && CanCross(w, b.nodes["a"], q, steps[1])
                  && ProbeRow(e, dir) == Extend(b, "b", Far(q, dir), Some("e"), q.id);
      assert q.id == ProbeRow(e, dir).edges["e"] == e.id;
      var i :| 0 <= i < |w.t.edges| && w.t.edges[i] == e;
      var j :| 0 <= j < |w.t.edges| && w.t.edges[j] == q;
    }
    if Visible(w, e, dir) {
      assert CanCross(w, r.id, e, steps[1]);
    }
  }

  /** A half edge is seen from its existing endpoint when the missing one hashes
      elsewhere, and not when everything hashes to one partition. */
  lemma HalfEdgeShows(t: Tables, parse: TsParser, e: EdgeRow, dir: Direction)
    returns (steps: seq<PlanStep>, one: Hasher, two: Hasher)
    requires UniqueIds(t) && e in t.edges && Near(e, dir) in NodeIds(t) && Far(e, dir) !in NodeIds(t)
    ensures NotExistsOutgoing(steps)
    ensures Denote(Served(t, one, parse), steps) != Denote(Served(t, two, parse), steps)
  {
    var r :| r in t.nodes && r.id == Near(e, dir);
    var missing := Far(e, dir);
    one := RawHasher((v: NodeId) => 0, 1);
    two := RawHasher((v: NodeId) => if v == missing then 1 else 0, 2);
    steps := ProbePlan(r.labelName, dir);
    HalfVisible(Served(t, one, parse), e, dir);
    HalfVisible(Served(t, two, parse), e, dir);
    ProbeTells(Served(t, one, parse), Served(t, two, parse), r, e, dir);
  }

  lemma ProbeTells(w1: World, w2: World, r: NodeRow, e: EdgeRow, dir: Direction)
    requires AllServed(w1) && AllServed(w2) && w1.t == w2.t && UniqueIds(w1.t)
    requires r in w1.t.nodes && e in w1.t.edges && Near(e, dir) == r.id && Visible(w1, e, dir) != Visible(w2, e, dir)
    ensures Denote(w1, ProbePlan(r.labelName, dir)) != Denote(w2, ProbePlan(r.labelName, dir))
  {
    ProbeAnswer(w1, r, e, dir);
    ProbeAnswer(w2, r, e, dir);
  }

  lemma HalfVisible(w: World, e: EdgeRow, dir: Direction)
    requires Near(e, dir) in NodeIds(w.t) && Far(e, dir) !in NodeIds(w.t)
    ensures Visible(w, e, dir) <==> PartitionOf(w.h, Far(e, dir)) != PartitionOf(w.h, Near(e, dir))
  {
  }

  /** The exact condition: the partitioning is invisible to every plan if and only if the
      tables hold no edge with just one endpoint. */
  lemma PartitioningInvisibleIff(t: Tables, parse: TsParser)
    requires UniqueIds(t)
    ensures NoHalfEdges(t) <==>
              forall steps, h1: Hasher, h2: Hasher :: NotExistsOutgoing(steps) ==> Denote(Served(t, h1, parse), steps) == Denote(Served(t, h2, parse), steps)
  {
    if NoHalfEdges(t) {
      forall steps, h1: Hasher, h2: Hasher | NotExistsOutgoing(steps)
        ensures Denote(Served(t, h1, parse), steps) == Denote(Served(t, h2, parse), steps)
      {
        PartitioningInvisible(Served(t, h1, parse), Served(t, h2, parse), steps);
      }
    } else {
      var e :| e in t.edges && !(e.src in NodeIds(t) <==> e.dst in NodeIds(t));
      var steps, h1, h2 := HalfEdgeShows(t, parse, e, if e.src in NodeIds(t) then Outgoing else Incoming);
    }
  }

  // ---------------------------------------------------------------- replicas that hold another share

  /** A replica listed under a partition whose share it does not hold hides every edge of
      the partition's nodes, and lets every row from there pass NOT EXISTS unchecked. */
  lemma MisroutedNode(w: World, sc: Scope, b: Binding, step: PlanStep, e: EdgeRow, check: AntiJoinStep)
    requires step.ExpandHop? && check.fromAlias in b.nodes && check.toAlias in b.nodes
    requires Reachable(w, b.nodes[check.fromAlias]) && !Held(w, b.nodes[check.fromAlias])
    ensures NodeProps(w, b.nodes[check.fromAlias]).None? && !CanCross(w, b.nodes[check.fromAlias], e, step)
    ensures Survives(w, sc, b, check) <==> ConditionsFor(w, sc, b, check).Some?
  {
  }

  ghost function OneNode(v: NodeId): Tables {
    Tables(Schema("v1", map[], map[]), [NodeRow("A", v, map[])], [EdgeRow("T", EdgeId(0), v, v, map[])])
  }

  /** The node and its loop are invisible when another share answers for its partition. */
  lemma LoopIsHidden(h: Hasher, route: map<PartitionId, PartitionId>, parse: TsParser, v: NodeId)
    requires !Held(World(OneNode(v), h, route, parse), v)
    ensures CleanTables(OneNode(v))
    ensures Denote(World(OneNode(v), h, route, parse), ProbePlan("A", Outgoing)) != Denote(Served(OneNode(v), h, parse), ProbePlan("A", Outgoing))
  {
    var t := OneNode(v);
    var w, full := World(t, h, route, parse), Served(t, h, parse);
    assert t.nodes[0] in t.nodes && t.edges[0] in t.edges;
    ProbeAnswer(full, t.nodes[0], t.edges[0], Outgoing);
    assert Visible(full, t.edges[0], Outgoing);
    ProbeIsEmpty(w, v);
  }

  lemma ProbeIsEmpty(w: World, v: NodeId)
    requires w.t == OneNode(v) && !Held(w, v)
    ensures Denote(w, ProbePlan("A", Outgoing)) == Ok({})
  {
    var steps := ProbePlan("A", Outgoing);
    var from := AllOfLabel(w, "a", "A");
    assert steps[..1] == [steps[0]] && steps[..1][..0] == [];
    assert Denote(w, steps[..1]) == Ok(from);
    assert ScopeOf(steps[..1]) == Scope({"a"}, {});
    assert Accepted(w, from, steps[1], 0) == {};
    assert Rounds(w, from, steps[1], 1) == Hop(w, from, "a", steps[1], Some("e"));
    assert Accepted(w, from, steps[1], 1) == {};
  }

  /** The exact condition on the membership: every plan answers on all clean tables as a
      fully served cluster does, if and only if the replica asked about each node holds
      that node's share. */
  lemma RoutingExactIff(h: Hasher, route: map<PartitionId, PartitionId>, parse: TsParser)
    ensures (forall v :: Held(World(OneNode(v), h, route, parse), v)) <==>
              forall t, steps :: CleanTables(t) && NotExistsOutgoing(steps) ==>
                Denote(World(t, h, route, parse), steps) == Denote(Served(t, h, parse), steps)
  {
    if forall v :: Held(World(OneNode(v), h, route, parse), v) {
      forall t, steps | CleanTables(t) && NotExistsOutgoing(steps)
        ensures Denote(World(t, h, route, parse), steps) == Denote(Served(t, h, parse), steps)
      {
        forall v ensures Held(World(t, h, route, parse), v) { assert Held(World(OneNode(v), h, route, parse), v); }
        PartitioningInvisible(World(t, h, route, parse), Served(t, h, parse), steps);
      }
    } else {
      var v :| !Held(World(OneNode(v), h, route, parse), v);
      LoopIsHidden(h, route, parse, v);
      assert NotExistsOutgoing(ProbePlan("A", Outgoing));
    }
  }

  /** An edge that satisfies an incoming check, between two nodes of one partition. */
  ghost predicate BlocksIncoming(
      w: World, e: EdgeRow, step: AntiJoinStep, from: NodeId, to: NodeId, conditions: seq<PropertyFilter>)
  {
    && e in w.t.edges && e.dst == from && e.src == to
    && TypeMatches(e.edgeType, step.edgeType) && AllHold(w.parse, e.properties, conditions)
    && e.src in NodeIds(w.t) && e.dst in NodeIds(w.t)
    && PartitionOf(w.h, e.src) == PartitionOf(w.h, e.dst)
  }

  /** Why NOT EXISTS must be outgoing: an incoming check asks the partition of the target,
      which holds the record of a satisfying edge only if both endpoints live there. */
  lemma IncomingNotExistsLeaks(w: World, sc: Scope, b: Binding, step: AntiJoinStep)
    requires AllServed(w) && step.direction == Incoming
    requires step.fromAlias in b.nodes && step.toAlias in b.nodes
    ensures Survives(w, sc, b, step) <==>
              && ConditionsFor(w, sc, b, step).Some?
              && !exists e :: BlocksIncoming(w, e, step, b.nodes[step.fromAlias], b.nodes[step.toAlias], ConditionsFor(w, sc, b, step).value)
  {
    var from, to := b.nodes[step.fromAlias], b.nodes[step.toAlias];
    ServedNode(w, from);
    forall e, conditions
      ensures Refutes(w, from, to, e, step, conditions) <==> BlocksIncoming(w, e, step, from, to, conditions)
    {
    }
  }

  // ---------------------------------------------------------------- scope safety

  /** Every alias a step reads is bound by the steps before it. */
  ghost predicate StepInScope(step: PlanStep, sc: Scope) {
    match step
    case ExpandHop(from, _, _, _, _, _, _, _) => from in sc.nodes
    case AntiJoin(a) =>
      && a.fromAlias in sc.nodes && a.toAlias in sc.nodes
      && forall i :: 0 <= i < |a.outerConditions| ==> InScope(a.outerConditions[i].outer.alias, sc)
    case _ => false
  }

  ghost predicate WellScoped(steps: seq<PlanStep>) {
    && steps != [] && (steps[0].ResolveStart? || steps[0].ResolveAll?)
    && forall i :: 1 <= i < |steps| ==> StepInScope(steps[i], ScopeOf(steps[..i]))
  }

  lemma {:induction false} AllOuterBound(sc: Scope, outers: seq<OuterCondition>)
    requires forall i :: 0 <= i < |outers| ==> InScope(outers[i].outer.alias, sc)
    ensures UnboundOuter(sc, outers).None?
  {
    if outers != [] { AllOuterBound(sc, outers[1..]); }
  }

  /** A well-scoped plan never fails, whatever the tables, hash and replicas. */
  lemma {:induction false} WellScopedNeverFails(w: World, steps: seq<PlanStep>)
    requires WellScoped(steps)
    ensures Denote(w, steps).Ok?
  {
    var n := |steps| - 1;
    if n > 0 {
      forall i | 1 <= i < n ensures StepInScope(steps[..n][i], ScopeOf(steps[..n][..i])) {
        assert steps[..n][..i] == steps[..i];
      }
      WellScopedNeverFails(w, steps[..n]);
      assert StepInScope(steps[n], ScopeOf(steps[..n]));
      if steps[n].AntiJoin? {
        AllOuterBound(ScopeOf(steps[..n]), steps[n].step.outerConditions);
      }
    }
  }

  // ---------------------------------------------------------------- the multigraph

  ghost function MatchingEdges(w: World, v: NodeId, step: PlanStep): set<EdgeRow>
    requires step.ExpandHop?
  {
    set e | e in w.t.edges && CanCross(w, v, e, step)
  }

  ghost function RowsOver(b: Binding, edges: set<EdgeRow>, step: PlanStep): set<Binding>
    requires step.ExpandHop?
  {
    set e | e in edges :: Extend(b, step.toAlias, Far(e, step.direction), step.edgeAlias, e.id)
  }

  lemma {:induction false} OneRowPerEdge(b: Binding, edges: set<EdgeRow>, step: PlanStep)
    requires step.ExpandHop? && step.edgeAlias.Some?
    requires forall e, f :: e in edges && f in edges && e.id == f.id ==> e == f
    ensures |RowsOver(b, edges, step)| == |edges|
  {
    if edges != {} {
      var e :| e in edges;
      var rest := edges - {e};
      OneRowPerEdge(b, rest, step);
      var row := Extend(b, step.toAlias, Far(e, step.direction), step.edgeAlias, e.id);
      assert RowsOver(b, edges, step) == RowsOver(b, rest, step) + {row};
      forall f | f in rest ensures Extend(b, step.toAlias, Far(f, step.direction), step.edgeAlias, f.id) != row {
        assert row.edges[step.edgeAlias.value] == e.id;
        assert Extend(b, step.toAlias, Far(f, step.direction), step.edgeAlias, f.id).edges[step.edgeAlias.value] == f.id;
      }
      assert row !in RowsOver(b, rest, step);
    }
  }

  ghost function TotalDegree(w: World, frontier: seq<Binding>, step: PlanStep): nat
    requires step.ExpandHop? && forall b :: b in frontier ==> step.fromAlias in b.nodes
  {
    if frontier == [] then 0
    else
      var n := |frontier| - 1;
      TotalDegree(w, frontier[..n], step) + |MatchingEdges(w, frontier[n].nodes[step.fromAlias], step)|
  }

  lemma RowRemembersBinding(b: Binding, c: Binding, step: PlanStep, u: NodeId, v: NodeId, e: EdgeId, f: EdgeId)
    requires step.ExpandHop? && step.edgeAlias.Some?
    requires step.toAlias !in b.nodes && step.edgeAlias.value !in b.edges && b.nodes.Keys == c.nodes.Keys
             && b.edges.Keys == c.edges.Keys
    requires Extend(b, step.toAlias, u, step.edgeAlias, e) == Extend(c, step.toAlias, v, step.edgeAlias, f)
    ensures b == c
  {
    var x := Extend(b, step.toAlias, u, step.edgeAlias, e);
    forall a | a in b.nodes
      ensures b.nodes[a] == c.nodes[a]
    {
      assert x.nodes[a] == b.nodes[a] && x.nodes[a] == c.nodes[a];
    }
    forall a | a in b.edges
      ensures b.edges[a] == c.edges[a]
    {
      assert x.edges[a] == b.edges[a] && x.edges[a] == c.edges[a];
    }
    assert b.nodes == c.nodes && b.edges == c.edges;
  }

  ghost predicate FreshAliasedHop(sc: Scope, step: PlanStep) {
    && step.ExpandHop? && step.hops == HopRange(1, 1) && step.edgeAlias.Some?
    && step.fromAlias in sc.nodes && step.toAlias !in sc.nodes && step.edgeAlias.value !in sc.edges
  }

  /** Rows of different bindings are different. */
  lemma RowsApart(w: World, from: set<Binding>, b: Binding, sc: Scope, step: PlanStep)
    requires FreshAliasedHop(sc, step) && AllFit(from + {b}, sc) && b !in from
    ensures Hop(w, from, step.fromAlias, step, step.edgeAlias) !! RowsOver(b, MatchingEdges(w, b.nodes[step.fromAlias], step), step)
  {
    assert FitsScope(b, sc);
    forall x | x in Hop(w, from, step.fromAlias, step, step.edgeAlias)
      ensures x !in RowsOver(b, MatchingEdges(w, b.nodes[step.fromAlias], step), step)
    {
      var c, e :| c in from && e in w.t.edges
                  && x == Extend(c, step.toAlias, Far(e, step.direction), step.edgeAlias, e.id);
      assert FitsScope(c, sc);
      if f :| f in MatchingEdges(w, b.nodes[step.fromAlias], step) && x == Extend(b, step.toAlias, Far(f, step.direction), step.edgeAlias, f.id) {
        RowRemembersBinding(c, b, step, Far(e, step.direction), Far(f, step.direction), e.id, f.id);
      }
    }
  }

  lemma RowsOfOne(w: World, b: Binding, v: NodeId, step: PlanStep)
    requires UniqueIds(w.t) && step.ExpandHop? && step.edgeAlias.Some?
    ensures |RowsOver(b, MatchingEdges(w, v, step), step)| == |MatchingEdges(w, v, step)|
  {
    forall e, f | e in MatchingEdges(w, v, step) && f in MatchingEdges(w, v, step) && e.id == f.id
      ensures e == f
    {
      SameEdge(w.t, e, f);
    }
    OneRowPerEdge(b, MatchingEdges(w, v, step), step);
  }

  lemma {:induction false} HopCountsEdges(w: World, frontier: seq<Binding>, sc: Scope, step: PlanStep)
    requires UniqueIds(w.t) && NoDup(frontier) && AllFit(ToSet(frontier), sc) && FreshAliasedHop(sc, step)
    ensures forall b :: b in frontier ==> step.fromAlias in b.nodes
    ensures |Hop(w, ToSet(frontier), step.fromAlias, step, step.edgeAlias)| == TotalDegree(w, frontier, step)
  {
    assert forall b :: b in frontier ==> b in ToSet(frontier);
    if frontier == [] {
      assert Hop(w, ToSet(frontier), step.fromAlias, step, step.edgeAlias) == {};
    } else {
      var n := |frontier| - 1;
      var front, last := frontier[..n], frontier[n];
      FrontAndLast(frontier);
      ToSetSnoc(front, last);
      NoDupParts(front, [last]);
      assert last in ToSet([last]);
      HopCountsEdges(w, front, sc, step);
      HopSplit(w, ToSet(front), last, step);
      RowsApart(w, ToSet(front), last, sc, step);
      RowsOfOne(w, last, last.nodes[step.fromAlias], step);
    }
  }

  /** An aliased single hop with fresh aliases yields one row per binding and matching
      edge, parallel edges and edges to other partitions included. */
  lemma AliasedHopCountsEdges(w: World, frontier: seq<Binding>, sc: Scope, step: PlanStep)
    requires UniqueIds(w.t) && NoDup(frontier) && AllFit(ToSet(frontier), sc) && FreshAliasedHop(sc, step)
    ensures forall b :: b in frontier ==> step.fromAlias in b.nodes
    ensures |Accepted(w, ToSet(frontier), step, step.hops.max)| == TotalDegree(w, frontier, step)
  {
    HopCountsEdges(w, frontier, sc, step);
    OneHopAccepts(w, ToSet(frontier), step);
  }

  lemma OneHopAccepts(w: World, from: set<Binding>, step: PlanStep)
    requires step.ExpandHop? && step.hops == HopRange(1, 1)
    ensures Accepted(w, from, step, step.hops.max) == Hop(w, from, step.fromAlias, step, step.edgeAlias)
  {
    assert Accepted(w, from, step, 0) == {};
  }

  lemma HopSplit(w: World, from: set<Binding>, b: Binding, step: PlanStep)
    requires step.ExpandHop? && step.fromAlias in b.nodes
    ensures Hop(w, from + {b}, step.fromAlias, step, step.edgeAlias) ==
            Hop(w, from, step.fromAlias, step, step.edgeAlias) + RowsOver(b, MatchingEdges(w, b.nodes[step.fromAlias], step), step)
  {
  }
}
