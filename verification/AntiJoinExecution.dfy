/** The correlated NOT EXISTS over the cluster, and the plan driver
    (distributed_executor.rs). */
module AntiJoinExecution {
  import opened Basics
  import opened Sorting
  import opened GraphModel
  import opened FilterEval
  import opened Plan
  import opened Dedup
  import opened IndexBuilder
  import opened LocalExecutor
  import opened Wire
  import opened Denotation
  import opened ClusterAccess
  import opened ScatterGather

  // ---------------------------------------------------------------- one partition's verdict

  /** The replica asked for `from` sees exactly the edges of the global table that refute. */
  lemma CandidateIsRefutation(
      g: IndexGeneration, w: World, p: PartitionId, step: AntiJoinStep, conditions: seq<PropertyFilter>, from: NodeId,
      to: NodeId)
    requires UniqueIds(w.t) && p in w.route && Represents(g, w.t, w.h, w.route[p]) && ValidTopology(g.topology)
    requires PartitionOf(w.h, from) == p
    ensures CandidateExists(g, w.parse, step, conditions, from, to) <==>
              exists e :: Refutes(w, from, to, e, step, conditions)
  {
    TopologyRow(g.topology, w.t, w.h, w.route[p], from, step.direction);
    forall e | e in w.t.edges ensures RecordsOwn(g, w, w.route[p], e) { RecordIsOwn(g, w, w.route[p], e); }
    RowBlocks(g, w, p, step, conditions, from, to);
  }

  ghost predicate RecordsOwn(g: IndexGeneration, w: World, p: PartitionId, e: EdgeRow) {
    && (e.id in g.edgeRecords <==> PartitionOf(w.h, e.src) == p)
    && (e.id in g.edgeRecords ==> g.edgeRecords[e.id].properties == e.properties)
  }

  lemma RowBlocks(
      g: IndexGeneration, w: World, p: PartitionId, step: AntiJoinStep, conditions: seq<PropertyFilter>, from: NodeId,
      to: NodeId)
    requires p in w.route && ServesRow(g.topology, w.t, w.h, w.route[p], from, step.direction)
             && PartitionOf(w.h, from) == p
    requires forall e :: e in w.t.edges ==> RecordsOwn(g, w, w.route[p], e)
    ensures CandidateExists(g, w.parse, step, conditions, from, to) <==>
              exists e :: Refutes(w, from, to, e, step, conditions)
  {
    var entries := Neighbors(g.topology, from, step.direction);
    if CandidateExists(g, w.parse, step, conditions, from, to) {
      var i :| 0 <= i < |entries| && EntryBlocks(g, w.parse, step, conditions, to, entries[i]);
      assert entries[i] in entries;
      var e :| EntryOf(w.t, w.h, w.route[p], from, step.direction, e, entries[i]);
      EntryLeads(w.t, w.h, w.route[p], from, step.direction, e, entries[i]);
      assert RecordsOwn(g, w, w.route[p], e);
      assert Refutes(w, from, to, e, step, conditions);
    }
    if e :| Refutes(w, from, to, e, step, conditions) {
      var a := MakeEntry(e, OwnedIds(w.t, w.h, w.route[p]), w.route[p], w.h, step.direction);
      assert EntryOf(w.t, w.h, w.route[p], from, step.direction, e, a);
      EntryLeads(w.t, w.h, w.route[p], from, step.direction, e, a);
      assert RecordsOwn(g, w, w.route[p], e);
      assert from in OwnedIds(w.t, w.h, w.route[p]) && a in entries;
      var i :| 0 <= i < |entries| && entries[i] == a;
      assert EntryBlocks(g, w.parse, step, conditions, to, entries[i]);
    }
  }

  lemma RecordIsOwn(g: IndexGeneration, w: World, p: PartitionId, e: EdgeRow)
    requires UniqueIds(w.t) && Represents(g, w.t, w.h, p) && e in w.t.edges
    ensures RecordsOwn(g, w, p, e)
  {
    if e.id in g.edgeRecords {
      var q :| q in w.t.edges && q.id == e.id && PartitionOf(w.h, q.src) == p;
      var i :| 0 <= i < |w.t.edges| && w.t.edges[i] == e;
      var j :| 0 <= j < |w.t.edges| && w.t.edges[j] == q;
    }
  }

  /** Survival under an explicit condition list. */
  ghost predicate Unrefuted(w: World, b: Binding, step: AntiJoinStep, conditions: seq<PropertyFilter>)
    requires step.fromAlias in b.nodes && step.toAlias in b.nodes
  {
    && Reachable(w, b.nodes[step.fromAlias])
    && !exists e :: Refutes(w, b.nodes[step.fromAlias], b.nodes[step.toAlias], e, step, conditions)
  }

  ghost function UnrefutedOf(
      w: World, from: set<Binding>, step: AntiJoinStep, conditions: seq<PropertyFilter>): set<Binding> {
    set b | b in from && step.fromAlias in b.nodes && step.toAlias in b.nodes && Unrefuted(w, b, step, conditions)
  }

  method CheckOnPartition(
      c: Cluster, step: AntiJoinStep, conditions: seq<PropertyFilter>, p: PartitionId, group: seq<Binding>,
      ghost t: Tables, ghost sc: Scope)
    returns (r: Result<seq<Binding>, ExecutionError>)
    requires Serves(c, t)
    requires group != [] && AllFit(ToSet(group), sc) && AllBound(group, step.fromAlias)
    requires forall b :: b in group ==> PartitionOf(c.hasher, b.nodes[step.fromAlias]) == p
    ensures r.Err? <==> p in RouteOf(c) && step.toAlias !in sc.nodes
    ensures r.Err? ==> r.error == Rpc(UnknownAlias(step.toAlias))
    ensures r.Ok? ==>
      && ToSet(r.value) == UnrefutedOf(WorldOf(c, t), ToSet(group), DeliveredCheck(step), conditions)
      && (NoDup(group) ==> NoDup(r.value))
  {
    ghost var w, sent := WorldOf(c, t), DeliveredCheck(step);
    var g := Generation(c, p, t);
    if g.None? { return Ok([]); }
    assert forall b :: b in group ==> b in ToSet(group);
    assert group[0] in group;
    r := RpcCheckAntiJoin(g.value, c.parse, step, conditions, group);
    if r.Err? {
      OnlyTargetUnbound(step, group, r.error.cause);
    } else {
      SurvivorsMembers(g.value, c.parse, sent, conditions, group);
      forall b | b in group
        ensures CandidateExists(g.value, c.parse, sent, conditions, b.nodes[step.fromAlias], b.nodes[step.toAlias])
                <==> exists e :: Refutes(w, b.nodes[step.fromAlias], b.nodes[step.toAlias], e, sent, conditions)
      {
        CandidateIsRefutation(g.value, w, p, sent, conditions, b.nodes[step.fromAlias], b.nodes[step.toAlias]);
      }
    }
  }

  lemma UnrefutedUnion(w: World, a: set<Binding>, b: set<Binding>, step: AntiJoinStep, conditions: seq<PropertyFilter>)
    ensures UnrefutedOf(w, a + b, step, conditions) == UnrefutedOf(w, a, step, conditions) + UnrefutedOf(w, b, step, conditions)
  {
  }

  /** The bindings of `done` have been checked and `survivors` is what is left of them. */
  ghost predicate Checked(
      w: World, sc: Scope, step: AntiJoinStep, conditions: seq<PropertyFilter>, done: set<Binding>,
      survivors: seq<Binding>)
  {
    && ToSet(survivors) == UnrefutedOf(w, done, step, conditions)
    && (step.toAlias !in sc.nodes ==> !NeedsTarget(w, done, step))
  }

  lemma CheckedMore(
      w: World, sc: Scope, step: AntiJoinStep, conditions: seq<PropertyFilter>, done: set<Binding>,
      survivors: seq<Binding>, mine: set<Binding>, more: seq<Binding>)
    requires Checked(w, sc, step, conditions, done, survivors) && Checked(w, sc, step, conditions, mine, more)
    ensures Checked(w, sc, step, conditions, done + mine, survivors + more)
    ensures NoDup(survivors) && NoDup(more) && done !! mine ==> NoDup(survivors + more)
  {
    ToSetConcat(survivors, more);
    UnrefutedUnion(w, done, mine, step, conditions);
    if NoDup(survivors) && NoDup(more) && done !! mine {
      NoDupConcat(survivors, more);
    }
  }

  method CheckOwned(
      c: Cluster, step: AntiJoinStep, conditions: seq<PropertyFilter>, p: PartitionId, group: seq<Binding>,
      ghost bindings: seq<Binding>, ghost t: Tables, ghost sc: Scope)
    returns (r: Result<seq<Binding>, ExecutionError>)
    requires Serves(c, t) && AllFit(ToSet(bindings), sc) && AllBound(bindings, step.fromAlias)
    requires group == OwnedBy(c.hasher, bindings, step.fromAlias, p)
    requires exists b :: b in bindings && PartitionOf(c.hasher, b.nodes[step.fromAlias]) == p
    ensures ToSet(group) == set b | b in bindings && PartitionOf(c.hasher, b.nodes[step.fromAlias]) == p
    ensures r.Err? ==>
      r.error == Rpc(UnknownAlias(step.toAlias)) && step.toAlias !in sc.nodes
      && NeedsTarget(WorldOf(c, t), ToSet(bindings), step)
    ensures r.Ok? ==> Checked(WorldOf(c, t), sc, DeliveredCheck(step), conditions, ToSet(group), r.value)
    ensures r.Ok? && NoDup(bindings) ==> NoDup(r.value)
  {
    OwnedByLaws(c.hasher, bindings, step.fromAlias, p);
    GroupNotEmpty(c.hasher, bindings, step.fromAlias, p);
    assert group[0] in group && group[0] in ToSet(bindings);
    assert forall b :: b in ToSet(group) ==> b in ToSet(bindings);
    r := CheckOnPartition(c, step, conditions, p, group, t, sc);
  }

  /** One condition group: routed by the owner of `fromAlias`, one check per partition. */
  method CheckGroup(
      c: Cluster, step: AntiJoinStep, conditions: seq<PropertyFilter>, bindings: seq<Binding>, ghost t: Tables,
      ghost sc: Scope)
    returns (r: Result<seq<Binding>, ExecutionError>)
    requires Serves(c, t) && bindings != [] && AllFit(ToSet(bindings), sc)
    ensures step.fromAlias !in sc.nodes ==> r == Err(UnknownAlias(step.fromAlias))
    ensures step.fromAlias in sc.nodes && r.Err? ==>
      r.error == Rpc(UnknownAlias(step.toAlias)) && step.toAlias !in sc.nodes
      && NeedsTarget(WorldOf(c, t), ToSet(bindings), step)
    ensures r.Ok? ==> Checked(WorldOf(c, t), sc, DeliveredCheck(step), conditions, ToSet(bindings), r.value)
    ensures r.Ok? && NoDup(bindings) ==> NoDup(r.value)
  {
    ghost var w, sent := WorldOf(c, t), DeliveredCheck(step);
    assert bindings[0] in ToSet(bindings);
    var grouped := GroupByOwningNodePartition(c.hasher, bindings, step.fromAlias);
    if grouped.Err? {
      assert step.fromAlias !in sc.nodes by { assert forall b :: b in bindings ==> b in ToSet(bindings); }
      return Err(grouped.error);
    }
    var groups := grouped.value;
    var survivors: seq<Binding> := [];
    var todo := groups.Keys;
    SettledBounds(c.hasher, bindings, step.fromAlias, groups);
    while todo != {}
      invariant todo <= groups.Keys
      invariant Checked(w, sc, sent, conditions, Settled(c.hasher, bindings, step.fromAlias, todo), survivors)
      invariant NoDup(bindings) ==> NoDup(survivors)
      decreases todo
    {
      var p :| p in todo;
      SettledMore(c.hasher, bindings, step.fromAlias, todo, p);
      var result := CheckOwned(c, step, conditions, p, groups[p], bindings, t, sc);
      if result.Err? { return result; }
      CheckedMore(
        w, sc, sent, conditions, Settled(c.hasher, bindings, step.fromAlias, todo), survivors, ToSet(groups[p]),
        result.value);
      survivors := survivors + result.value;
      todo := todo - {p};
    }
    r := Ok(survivors);
  }

  lemma GroupNotEmpty(h: Hasher, bindings: seq<Binding>, alias: string, p: PartitionId)
    requires AllBound(bindings, alias)
    requires exists b :: b in bindings && PartitionOf(h, b.nodes[alias]) == p
    ensures OwnedBy(h, bindings, alias, p) != []
  {
    OwnedByLaws(h, bindings, alias, p);
  }

  // ---------------------------------------------------------------- per-binding conditions

  /** Which outer aliases are edges, read off the first binding. */
  method ClassifyOuter(outers: seq<OuterCondition>, sample: Binding, ghost sc: Scope)
    returns (r: Result<map<string, bool>, ExecutionError>)
    requires FitsScope(sample, sc)
    ensures UnboundOuter(sc, outers).Some? ==> r == Err(UnknownAlias(UnboundOuter(sc, outers).value))
    ensures UnboundOuter(sc, outers).None? ==>
      && r.Ok?
      && forall i ::
           0 <= i < |outers| ==>
             outers[i].outer.alias in r.value && r.value[outers[i].outer.alias] == (outers[i].outer.alias in sc.edges)
  {
    var isEdge: map<string, bool> := map[];
    assert outers[0..] == outers;
    for i := 0 to |outers|
      invariant UnboundOuter(sc, outers) == UnboundOuter(sc, outers[i..])
      invariant forall j :: 0 <= j < i ==> outers[j].outer.alias in isEdge
      invariant forall a :: a in isEdge ==> isEdge[a] == (a in sc.edges)
    {
      var alias := outers[i].outer.alias;
      assert outers[i..][1..] == outers[i + 1..];
      if alias in sample.edges {
        isEdge := isEdge[alias := true];
      } else if alias in sample.nodes {
        isEdge := isEdge[alias := false];
      } else {
        return Err(UnknownAlias(alias));
      }
    }
    r := Ok(isEdge);
  }

  /** Everything the resolution of one frontier has hydrated. */
  datatype Hydrated = Hydrated(isEdge: map<string, bool>, nodes: map<NodeId, NodeRecord>, edges: map<EdgeId, EdgeRecord>)

  ghost predicate Covers(w: World, sc: Scope, outers: seq<OuterCondition>, frontier: seq<Binding>, hy: Hydrated) {
    && (forall i :: 0 <= i < |outers| ==> outers[i].outer.alias in hy.isEdge && hy.isEdge[outers[i].outer.alias] == (outers[i].outer.alias in sc.edges))
    && (forall i, b :: 0 <= i < |outers| && b in frontier && outers[i].outer.alias in sc.edges && outers[i].outer.alias in b.edges ==>
          EdgeKnown(w, hy, b.edges[outers[i].outer.alias]))
    && (forall i, b :: 0 <= i < |outers| && b in frontier && outers[i].outer.alias !in sc.edges && outers[i].outer.alias in b.nodes ==>
          NodeKnown(w, hy, b.nodes[outers[i].outer.alias]))
  }

  ghost predicate EdgeKnown(w: World, hy: Hydrated, id: EdgeId) {
    && (id in hy.edges <==> EdgeProps(w, id).Some?)
    && (id in hy.edges ==> hy.edges[id].properties == Transported(EdgeProps(w, id).value))
  }

  ghost predicate NodeKnown(w: World, hy: Hydrated, v: NodeId) {
    && (v in hy.nodes <==> NodeProps(w, v).Some?)
    && (v in hy.nodes ==> hy.nodes[v].properties == Transported(NodeProps(w, v).value))
  }

  function LiteralFor(hy: Hydrated, b: Binding, outer: PropertyRef): Option<Literal>
    requires outer.alias in hy.isEdge
  {
    if hy.isEdge[outer.alias] then
      if outer.alias in b.edges && b.edges[outer.alias] in hy.edges
      then LiteralOf(hy.edges[b.edges[outer.alias]].properties, outer.property) else None
    else
      if outer.alias in b.nodes && b.nodes[outer.alias] in hy.nodes
      then LiteralOf(hy.nodes[b.nodes[outer.alias]].properties, outer.property) else None
  }

  lemma LiteralForIsOuter(
      w: World, sc: Scope, outers: seq<OuterCondition>, frontier: seq<Binding>, hy: Hydrated, b: Binding, i: nat)
    requires Covers(w, sc, outers, frontier, hy) && b in frontier && i < |outers|
    ensures LiteralFor(hy, b, outers[i].outer) == OuterLiteral(w, sc, b, outers[i].outer)
  {
    var outer := outers[i].outer;
    if outer.alias in sc.edges {
      if outer.alias in b.edges && EdgeProps(w, b.edges[outer.alias]).Some? {
        TransportKeepsLiterals(EdgeProps(w, b.edges[outer.alias]).value, outer.property);
      }
    } else if outer.alias in b.nodes && NodeProps(w, b.nodes[outer.alias]).Some? {
      TransportKeepsLiterals(NodeProps(w, b.nodes[outer.alias]).value, outer.property);
    }
  }

  /** The binding's own condition list, or none if an outer value does not resolve. */
  method ResolveBinding(
      step: AntiJoinStep, b: Binding, hy: Hydrated, ghost w: World, ghost sc: Scope, ghost frontier: seq<Binding>)
    returns (r: Option<seq<PropertyFilter>>)
    requires Covers(w, sc, step.outerConditions, frontier, hy) && b in frontier
    ensures r == ConditionsFor(w, sc, b, step)
  {
    var outers := step.outerConditions;
    var resolved := step.literalConditions;
    for i := 0 to |outers|
      invariant Resolved(w, sc, b, outers[..i]).Some?
      invariant resolved == step.literalConditions + Resolved(w, sc, b, outers[..i]).value
    {
      LiteralForIsOuter(w, sc, outers, frontier, hy, b, i);
      TakeNext(outers, i);
      var literal := LiteralFor(hy, b, outers[i].outer);
      if literal.None? {
        UnresolvedPrefix(w, sc, b, outers, i + 1);
        return None;
      }
      resolved := resolved + [PropertyFilter(outers[i].innerProperty, outers[i].op, literal.value)];
    }
    assert outers[..|outers|] == outers;
    r := Some(resolved);
  }

  lemma {:induction false} UnresolvedPrefix(w: World, sc: Scope, b: Binding, outers: seq<OuterCondition>, i: nat)
    requires i <= |outers| && Resolved(w, sc, b, outers[..i]).None?
    ensures Resolved(w, sc, b, outers).None?
  {
    if i == |outers| {
      assert outers[..i] == outers;
    } else {
      var n := |outers| - 1;
      assert outers[..n][..i] == outers[..i];
      UnresolvedPrefix(w, sc, b, outers[..n], i);
    }
  }

  predicate Classified(outers: seq<OuterCondition>, isEdge: map<string, bool>) {
    forall i :: 0 <= i < |outers| ==> outers[i].outer.alias in isEdge
  }

  function WantedNodes(outers: seq<OuterCondition>, frontier: seq<Binding>, isEdge: map<string, bool>): set<NodeId>
    requires Classified(outers, isEdge)
  {
    set b, o | b in frontier && o in outers && !isEdge[o.outer.alias] && o.outer.alias in b.nodes ::
      b.nodes[o.outer.alias]
  }

  function WantedEdges(outers: seq<OuterCondition>, frontier: seq<Binding>, isEdge: map<string, bool>): set<EdgeId>
    requires Classified(outers, isEdge)
  {
    set b, o | b in frontier && o in outers && isEdge[o.outer.alias] && o.outer.alias in b.edges ::
      b.edges[o.outer.alias]
  }

  lemma CoversWanted(w: World, sc: Scope, outers: seq<OuterCondition>, frontier: seq<Binding>, hy: Hydrated)
    requires forall i ::
               0 <= i < |outers| ==>
                 outers[i].outer.alias in hy.isEdge
                 && hy.isEdge[outers[i].outer.alias] == (outers[i].outer.alias in sc.edges)
    requires HydratesNodes(w, WantedNodes(outers, frontier, hy.isEdge), hy.nodes)
    requires HydratesEdges(w, WantedEdges(outers, frontier, hy.isEdge), hy.edges)
    ensures Covers(w, sc, outers, frontier, hy)
  {
    forall i, b | 0 <= i < |outers| && b in frontier && outers[i].outer.alias in sc.edges && outers[i].outer.alias in b.edges
      ensures EdgeKnown(w, hy, b.edges[outers[i].outer.alias])
    {
      assert outers[i] in outers;
      assert b.edges[outers[i].outer.alias] in WantedEdges(outers, frontier, hy.isEdge);
    }
    forall i, b | 0 <= i < |outers| && b in frontier && outers[i].outer.alias !in sc.edges && outers[i].outer.alias in b.nodes
      ensures NodeKnown(w, hy, b.nodes[outers[i].outer.alias])
    {
      assert outers[i] in outers;
      assert b.nodes[outers[i].outer.alias] in WantedNodes(outers, frontier, hy.isEdge);
    }
  }

  /** Hydrates what the outer conditions refer to, once for the whole frontier. */
  method HydrateOuter(
      c: Cluster, outers: seq<OuterCondition>, frontier: seq<Binding>, isEdge: map<string, bool>, ghost t: Tables,
      ghost sc: Scope)
    returns (hy: Hydrated)
    requires Serves(c, t)
    requires forall i ::
               0 <= i < |outers| ==>
                 outers[i].outer.alias in isEdge && isEdge[outers[i].outer.alias] == (outers[i].outer.alias in sc.edges)
    ensures Covers(WorldOf(c, t), sc, outers, frontier, hy)
  {
    var nodeIds, edgeIds := WantedNodes(outers, frontier, isEdge), WantedEdges(outers, frontier, isEdge);
    var nodes: map<NodeId, NodeRecord> := map[];
    if nodeIds != {} {
      var ids := Drain(nodeIds);
      nodes := GetNodeProperties(c, ids, t);
    }
    var edges: map<EdgeId, EdgeRecord> := map[];
    if edgeIds != {} {
      var ids := Drain(edgeIds);
      edges := GetEdgeProperties(c, ids, t);
    }
    hy := Hydrated(isEdge, nodes, edges);
    CoversWanted(WorldOf(c, t), sc, outers, frontier, hy);
  }

  // ---------------------------------------------------------------- grouping by condition

  type ConditionGroup = (seq<PropertyFilter>, seq<Binding>)

  /** The bindings of the frontier whose outer values resolve, in order. */
  ghost function ResolvableSeq(w: World, sc: Scope, step: AntiJoinStep, frontier: seq<Binding>): seq<Binding> {
    if frontier == [] then []
    else
      var last := frontier[|frontier| - 1];
      ResolvableSeq(w, sc, step, frontier[..|frontier| - 1]) + (if ConditionsFor(w, sc, last, step).Some? then [last] else [])
  }

  /** All buckets end to end. */
  ghost function Pooled(groups: seq<ConditionGroup>): seq<Binding> {
    if groups == [] then [] else Pooled(groups[..|groups| - 1]) + groups[|groups| - 1].1
  }

  ghost predicate BelongsUnder(w: World, sc: Scope, step: AntiJoinStep, shared: seq<PropertyFilter>, b: Binding) {
    var own := ConditionsFor(w, sc, b, step);
    own.Some? && (shared == own.value || ConditionsEq(shared, own.value))
  }

  ghost predicate GroupFits(w: World, sc: Scope, step: AntiJoinStep, group: ConditionGroup) {
    group.1 != [] && forall b :: b in group.1 ==> BelongsUnder(w, sc, step, group.0, b)
  }

  ghost predicate ListsApart(groups: seq<ConditionGroup>) {
    forall i, j :: 0 <= i < j < |groups| ==> !ConditionsEq(groups[i].0, groups[j].0)
  }

  /** The groups split the resolvable frontier: nothing lost, nothing repeated, each
      binding under a list equal to its own, no list shared by two groups. */
  ghost predicate IsConditionGrouping(
      w: World, sc: Scope, step: AntiJoinStep, frontier: seq<Binding>, groups: seq<ConditionGroup>)
  {
    && multiset(Pooled(groups)) == multiset(ResolvableSeq(w, sc, step, frontier))
    && (forall i :: 0 <= i < |groups| ==> GroupFits(w, sc, step, groups[i]))
    && ListsApart(groups)
  }

  /** Index of the first group with that list, or the number of groups. */
  method FindGroup(groups: seq<ConditionGroup>, conditions: seq<PropertyFilter>) returns (i: nat)
    ensures i <= |groups|
    ensures i < |groups| ==> ConditionsEq(groups[i].0, conditions)
    ensures forall j :: 0 <= j < i ==> !ConditionsEq(groups[j].0, conditions)
  {
    i := 0;
    while i < |groups| && !ConditionsEq(groups[i].0, conditions)
      invariant i <= |groups|
      invariant forall j :: 0 <= j < i ==> !ConditionsEq(groups[j].0, conditions)
    {
      i := i + 1;
    }
  }

  function WithMember(group: ConditionGroup, b: Binding): ConditionGroup {
    (group.0, group.1 + [b])
  }

  lemma {:induction false} PooledUpdate(groups: seq<ConditionGroup>, i: nat, b: Binding)
    requires i < |groups|
    ensures multiset(Pooled(groups[i := WithMember(groups[i], b)])) == multiset(Pooled(groups)) + multiset{b}
  {
    var n := |groups| - 1;
    var groups' := groups[i := WithMember(groups[i], b)];
    if i == n {
      assert groups'[..n] == groups[..n];
    } else {
      PooledUpdate(groups[..n], i, b);
      assert groups'[..n] == groups[..n][i := WithMember(groups[i], b)];
    }
  }

  /** `groups'` is `groups` with one more binding, under its own condition list. */
  ghost predicate GroupedMore(
      w: World, sc: Scope, step: AntiJoinStep, b: Binding, groups: seq<ConditionGroup>, groups': seq<ConditionGroup>)
  {
    && multiset(Pooled(groups')) == multiset(Pooled(groups)) + multiset{b}
    && (forall i :: 0 <= i < |groups'| ==> GroupFits(w, sc, step, groups'[i]))
    && ListsApart(groups')
  }

  lemma NewGroup(
      w: World, sc: Scope, step: AntiJoinStep, b: Binding, groups: seq<ConditionGroup>, conditions: seq<PropertyFilter>)
    requires ConditionsFor(w, sc, b, step) == Some(conditions)
    requires ListsApart(groups) && forall i :: 0 <= i < |groups| ==> GroupFits(w, sc, step, groups[i])
    requires forall j :: 0 <= j < |groups| ==> !ConditionsEq(groups[j].0, conditions)
    ensures GroupedMore(w, sc, step, b, groups, groups + [(conditions, [b])])
  {
    var groups' := groups + [(conditions, [b])];
    assert groups'[..|groups|] == groups;
    assert BelongsUnder(w, sc, step, conditions, b);
    assert GroupFits(w, sc, step, groups'[|groups|]);
  }

  lemma LargerGroup(
      w: World, sc: Scope, step: AntiJoinStep, b: Binding, groups: seq<ConditionGroup>, conditions: seq<PropertyFilter>,
      i: nat)
    requires ConditionsFor(w, sc, b, step) == Some(conditions)
    requires ListsApart(groups) && forall i :: 0 <= i < |groups| ==> GroupFits(w, sc, step, groups[i])
    requires i < |groups| && ConditionsEq(groups[i].0, conditions)
    ensures GroupedMore(w, sc, step, b, groups, groups[i := WithMember(groups[i], b)])
  {
    PooledUpdate(groups, i, b);
    var groups' := groups[i := WithMember(groups[i], b)];
    LargerGroupFits(w, sc, step, b, groups[i]);
    SameListsApart(groups, groups');
  }

  lemma SameListsApart(groups: seq<ConditionGroup>, groups': seq<ConditionGroup>)
    requires ListsApart(groups) && |groups'| == |groups|
             && forall j :: 0 <= j < |groups| ==> groups'[j].0 == groups[j].0
    ensures ListsApart(groups')
  {
  }

  lemma LargerGroupFits(w: World, sc: Scope, step: AntiJoinStep, b: Binding, group: ConditionGroup)
    requires GroupFits(w, sc, step, group)
    requires ConditionsFor(w, sc, b, step).Some? && ConditionsEq(group.0, ConditionsFor(w, sc, b, step).value)
    ensures GroupFits(w, sc, step, WithMember(group, b))
  {
    assert BelongsUnder(w, sc, step, group.0, b);
  }

  /** Pushes into the first group with an equal list, or opens a new one. */
  method AddToGroups(
      groups: seq<ConditionGroup>, conditions: seq<PropertyFilter>, b: Binding, ghost w: World, ghost sc: Scope,
      ghost step: AntiJoinStep)
    returns (groups': seq<ConditionGroup>)
    requires ConditionsFor(w, sc, b, step) == Some(conditions)
    requires ListsApart(groups) && forall i :: 0 <= i < |groups| ==> GroupFits(w, sc, step, groups[i])
    ensures GroupedMore(w, sc, step, b, groups, groups')
  {
    var i := FindGroup(groups, conditions);
    if i < |groups| {
      LargerGroup(w, sc, step, b, groups, conditions, i);
      groups' := groups[i := WithMember(groups[i], b)];
    } else {
      NewGroup(w, sc, step, b, groups, conditions);
      groups' := groups + [(conditions, [b])];
    }
  }

  lemma GroupingNext(
      w: World, sc: Scope, step: AntiJoinStep, frontier: seq<Binding>, i: nat, groups: seq<ConditionGroup>,
      groups': seq<ConditionGroup>)
    requires i < |frontier| && IsConditionGrouping(w, sc, step, frontier[..i], groups)
    requires if ConditionsFor(w, sc, frontier[i], step).Some? then GroupedMore(w, sc, step, frontier[i], groups, groups') else groups' == groups
    ensures IsConditionGrouping(w, sc, step, frontier[..i + 1], groups')
  {
    TakeNext(frontier, i);
  }

  method ResolveAndGroupByCondition(
      c: Cluster, step: AntiJoinStep, frontier: seq<Binding>, ghost t: Tables, ghost sc: Scope)
    returns (r: Result<seq<ConditionGroup>, ExecutionError>)
    requires Serves(c, t) && frontier != [] && AllFit(ToSet(frontier), sc)
    ensures UnboundOuter(sc, step.outerConditions).Some? ==>
      r == Err(UnknownAlias(UnboundOuter(sc, step.outerConditions).value))
    ensures UnboundOuter(sc, step.outerConditions).None? ==>
      r.Ok? && IsConditionGrouping(WorldOf(c, t), sc, step, frontier, r.value)
  {
    ghost var w := WorldOf(c, t);
    assert frontier[0] in ToSet(frontier);
    var classified := ClassifyOuter(step.outerConditions, frontier[0], sc);
    if classified.Err? { return Err(classified.error); }
    var hy := HydrateOuter(c, step.outerConditions, frontier, classified.value, t, sc);
    var groups: seq<ConditionGroup> := [];
    for i := 0 to |frontier|
      invariant IsConditionGrouping(w, sc, step, frontier[..i], groups)
    {
      assert frontier[i] in frontier;
      var own := ResolveBinding(step, frontier[i], hy, w, sc, frontier);
      ghost var before := groups;
      if own.Some? {
        groups := AddToGroups(groups, own.value, frontier[i], w, sc, step);
      }
      GroupingNext(w, sc, step, frontier, i, before, groups);
    }
    assert frontier[..|frontier|] == frontier;
    r := Ok(groups);
  }

  // ---------------------------------------------------------------- execute_anti_join

  lemma ResolvableSplit(w: World, sc: Scope, step: AntiJoinStep, from: set<Binding>, b: Binding)
    ensures Resolvable(w, sc, from + {b}, step) == Resolvable(w, sc, from, step) + (if ConditionsFor(w, sc, b, step).Some? then {b} else {})
  {
  }

  lemma {:induction false} ResolvableSeqMembers(w: World, sc: Scope, step: AntiJoinStep, frontier: seq<Binding>)
    ensures ToSet(ResolvableSeq(w, sc, step, frontier)) == Resolvable(w, sc, ToSet(frontier), step)
  {
    if frontier != [] {
      var front, last := frontier[..|frontier| - 1], frontier[|frontier| - 1];
      ResolvableSeqMembers(w, sc, step, front);
      FrontAndLast(frontier);
      ToSetSnoc(front, last);
      ToSetSnoc(ResolvableSeq(w, sc, step, front), last);
      ResolvableSplit(w, sc, step, ToSet(front), last);
    }
  }

  lemma {:induction false} ResolvableSeqNoDup(w: World, sc: Scope, step: AntiJoinStep, frontier: seq<Binding>)
    requires NoDup(frontier)
    ensures NoDup(ResolvableSeq(w, sc, step, frontier))
  {
    if frontier != [] {
      var front, last := frontier[..|frontier| - 1], frontier[|frontier| - 1];
      FrontAndLast(frontier);
      NoDupParts(front, [last]);
      ResolvableSeqNoDup(w, sc, step, front);
      ResolvableSeqMembers(w, sc, step, front);
      NotResolvable(w, sc, step, front, last);
      NoDupConcat(ResolvableSeq(w, sc, step, front), [last]);
    }
  }

  lemma NotResolvable(w: World, sc: Scope, step: AntiJoinStep, frontier: seq<Binding>, b: Binding)
    requires b !in frontier
    ensures b !in Resolvable(w, sc, ToSet(frontier), step)
  {
  }

  /** Under an equal condition list a binding meets the same verdict. */
  lemma SameVerdict(w: World, sc: Scope, b: Binding, step: AntiJoinStep, shared: seq<PropertyFilter>)
    requires step.fromAlias in b.nodes && step.toAlias in b.nodes && BelongsUnder(w, sc, step, shared, b)
    ensures Unrefuted(w, b, step, shared) == Survives(w, sc, b, step)
  {
    var own := ConditionsFor(w, sc, b, step).value;
    forall e
      ensures Refutes(w, b.nodes[step.fromAlias], b.nodes[step.toAlias], e, step, shared)
              == Refutes(w, b.nodes[step.fromAlias], b.nodes[step.toAlias], e, step, own)
    {
      if ConditionsEq(shared, own) { EqualConditionsAgree(w.parse, e.properties, shared, own); }
    }
  }

  lemma GroupVerdict(w: World, sc: Scope, step: AntiJoinStep, group: ConditionGroup)
    requires GroupFits(w, sc, step, group)
    ensures UnrefutedOf(w, ToSet(group.1), step, group.0) == Surviving(w, sc, ToSet(group.1), step)
  {
    forall b | b in group.1 && step.fromAlias in b.nodes && step.toAlias in b.nodes
      ensures Unrefuted(w, b, step, group.0) == Survives(w, sc, b, step)
    {
      SameVerdict(w, sc, b, step, group.0);
    }
  }

  lemma PooledSnoc(groups: seq<ConditionGroup>, i: nat)
    requires i < |groups|
    ensures Pooled(groups[..i + 1]) == Pooled(groups[..i]) + groups[i].1
  {
    TakeNext(groups, i);
  }

  lemma {:induction false} PooledPrefix(groups: seq<ConditionGroup>, i: nat)
    requires i <= |groups|
    ensures Pooled(groups[..i]) <= Pooled(groups)
    decreases |groups| - i
  {
    if i == |groups| {
      assert groups[..i] == groups;
    } else {
      PooledSnoc(groups, i);
      PooledPrefix(groups, i + 1);
    }
  }

  /** The bindings of `done` are judged, each by its own conditions. */
  ghost predicate Judged(w: World, sc: Scope, step: AntiJoinStep, done: seq<Binding>, survivors: seq<Binding>) {
    && ToSet(survivors) == Surviving(w, sc, ToSet(done), step)
    && (step.toAlias !in sc.nodes ==> !NeedsTarget(w, ToSet(done), step))
    && (NoDup(done) ==> NoDup(survivors))
  }

  lemma JudgedMore(
      w: World, sc: Scope, step: AntiJoinStep, done: seq<Binding>, survivors: seq<Binding>, mine: seq<Binding>,
      more: seq<Binding>)
    requires Judged(w, sc, step, done, survivors) && Judged(w, sc, step, mine, more)
    ensures Judged(w, sc, step, done + mine, survivors + more)
  {
    ToSetConcat(survivors, more);
    ToSetConcat(done, mine);
    assert Surviving(w, sc, ToSet(done) + ToSet(mine), step) == Surviving(w, sc, ToSet(done), step) + Surviving(w, sc, ToSet(mine), step);
    if NoDup(done + mine) {
      NoDupParts(done, mine);
      NoDupConcat(survivors, more);
    }
  }

  method CheckGroups(c: Cluster, step: AntiJoinStep, groups: seq<ConditionGroup>, ghost t: Tables, ghost sc: Scope)
    returns (r: Result<seq<Binding>, ExecutionError>)
    requires Serves(c, t) && AllFit(ToSet(Pooled(groups)), sc)
    requires forall i :: 0 <= i < |groups| ==> GroupFits(WorldOf(c, t), sc, DeliveredCheck(step), groups[i])
    ensures groups != [] && step.fromAlias !in sc.nodes ==> r == Err(UnknownAlias(step.fromAlias))
    ensures r.Err? && step.fromAlias in sc.nodes ==>
      r.error == Rpc(UnknownAlias(step.toAlias)) && step.toAlias !in sc.nodes
      && NeedsTarget(WorldOf(c, t), ToSet(Pooled(groups)), step)
    ensures r.Err? ==> groups != []
    ensures r.Ok? ==> Judged(WorldOf(c, t), sc, DeliveredCheck(step), Pooled(groups), r.value)
  {
    ghost var w, sent := WorldOf(c, t), DeliveredCheck(step);
    var survivors: seq<Binding> := [];
    for i := 0 to |groups|
      invariant i > 0 ==> step.fromAlias in sc.nodes
      invariant Judged(w, sc, sent, Pooled(groups[..i]), survivors)
    {
      PooledSnoc(groups, i);
      GroupIsPooled(groups, i);
      var result := CheckGroup(c, step, groups[i].0, groups[i].1, t, sc);
      if result.Err? { return result; }
      GroupVerdict(w, sc, sent, groups[i]);
      JudgedMore(w, sc, sent, Pooled(groups[..i]), survivors, groups[i].1, result.value);
      survivors := survivors + result.value;
    }
    assert groups[..|groups|] == groups;
    r := Ok(survivors);
  }

  lemma GroupIsPooled(groups: seq<ConditionGroup>, i: nat)
    requires i < |groups|
    ensures ToSet(groups[i].1) <= ToSet(Pooled(groups))
  {
    PooledSnoc(groups, i);
    PooledPrefix(groups, i + 1);
    forall b | b in groups[i].1 ensures b in Pooled(groups) { assert b in Pooled(groups[..i + 1]); }
  }

  lemma PooledIsResolvable(w: World, sc: Scope, step: AntiJoinStep, frontier: seq<Binding>, groups: seq<ConditionGroup>)
    requires IsConditionGrouping(w, sc, step, frontier, groups) && NoDup(frontier)
    ensures NoDup(Pooled(groups)) && ToSet(Pooled(groups)) == Resolvable(w, sc, ToSet(frontier), step)
    ensures groups == [] <==> Pooled(groups) == []
  {
    ResolvableSeqMembers(w, sc, step, frontier);
    ResolvableSeqNoDup(w, sc, step, frontier);
    var kept := ResolvableSeq(w, sc, step, frontier);
    PermutationFacts(Pooled(groups), kept);
    NoDupMultiset(kept);
    NoDupMultiset(Pooled(groups));
    if groups != [] {
      assert GroupFits(w, sc, step, groups[|groups| - 1]);
    }
  }

  method GroupFrontier(c: Cluster, step: AntiJoinStep, frontier: seq<Binding>, ghost t: Tables, ghost sc: Scope)
    returns (r: Result<seq<ConditionGroup>, ExecutionError>)
    requires Serves(c, t) && frontier != [] && AllFit(ToSet(frontier), sc)
    ensures UnboundOuter(sc, step.outerConditions).Some? ==>
      r == Err(UnknownAlias(UnboundOuter(sc, step.outerConditions).value))
    ensures UnboundOuter(sc, step.outerConditions).None? ==>
      r.Ok? && IsConditionGrouping(WorldOf(c, t), sc, step, frontier, r.value)
  {
    if step.outerConditions == [] {
      r := Ok([(step.literalConditions, frontier)]);
      UngroupedIsGrouping(WorldOf(c, t), sc, step, frontier);
    } else {
      r := ResolveAndGroupByCondition(c, step, frontier, t, sc);
    }
  }

  /** Resolve, group, check every (partition, condition) pair, collect survivors. */
  method ExecuteAntiJoin(c: Cluster, step: AntiJoinStep, frontier: seq<Binding>, ghost t: Tables, ghost sc: Scope)
    returns (r: Result<seq<Binding>, ExecutionError>)
    requires Serves(c, t) && NoDup(frontier) && AllFit(ToSet(frontier), sc)
    ensures r.Ok? ==>
      NoDup(r.value) && DenoteAntiJoin(WorldOf(c, t), sc, ToSet(frontier), DeliveredCheck(step)) == Ok(ToSet(r.value))
    ensures r.Err? ==> DenoteAntiJoin(WorldOf(c, t), sc, ToSet(frontier), DeliveredCheck(step)) == Err(r.error)
  {
    ghost var w, sent := WorldOf(c, t), DeliveredCheck(step);
    if frontier == [] { return Ok(frontier); }
    assert frontier[0] in ToSet(frontier);
    var grouped := GroupFrontier(c, step, frontier, t, sc);
    if grouped.Err? { return Err(grouped.error); }
    GroupingDelivered(w, sc, step, frontier, grouped.value);
    PooledIsResolvable(w, sc, sent, frontier, grouped.value);
    r := CheckGroups(c, step, grouped.value, t, sc);
    if r.Ok? { JudgedIsDenoted(w, sc, sent, frontier, Pooled(grouped.value), r.value); }
    else { assert Pooled(grouped.value)[0] in ToSet(Pooled(grouped.value)); }
  }

  /** Grouping reads the conditions of the step, which arrive as they are. */
  lemma GroupingDelivered(w: World, sc: Scope, step: AntiJoinStep, frontier: seq<Binding>, groups: seq<ConditionGroup>)
    requires IsConditionGrouping(w, sc, step, frontier, groups)
    ensures IsConditionGrouping(w, sc, DeliveredCheck(step), frontier, groups)
  {
    ResolvableDelivered(w, sc, step, frontier);
    forall i | 0 <= i < |groups| ensures GroupFits(w, sc, DeliveredCheck(step), groups[i]) {
      assert GroupFits(w, sc, step, groups[i]);
    }
  }

  lemma {:induction false} ResolvableDelivered(w: World, sc: Scope, step: AntiJoinStep, frontier: seq<Binding>)
    ensures ResolvableSeq(w, sc, DeliveredCheck(step), frontier) == ResolvableSeq(w, sc, step, frontier)
  {
    if frontier != [] { ResolvableDelivered(w, sc, step, frontier[..|frontier| - 1]); }
  }

  lemma JudgedIsDenoted(
      w: World, sc: Scope, step: AntiJoinStep, frontier: seq<Binding>, pooled: seq<Binding>, survivors: seq<Binding>)
    requires frontier != [] && UnboundOuter(sc, step.outerConditions).None?
    requires ToSet(pooled) == Resolvable(w, sc, ToSet(frontier), step) && NoDup(pooled)
             && Judged(w, sc, step, pooled, survivors)
    requires pooled != [] ==> step.fromAlias in sc.nodes
    ensures NoDup(survivors) && DenoteAntiJoin(w, sc, ToSet(frontier), step) == Ok(ToSet(survivors))
  {
    assert frontier[0] in ToSet(frontier);
    if pooled == [] {
      assert ToSet(pooled) == {};
      assert Surviving(w, sc, {}, step) == {};
    } else {
      assert pooled[0] in ToSet(pooled);
    }
  }

  lemma UngroupedIsGrouping(w: World, sc: Scope, step: AntiJoinStep, frontier: seq<Binding>)
    requires step.outerConditions == [] && frontier != []
    ensures IsConditionGrouping(w, sc, step, frontier, [(step.literalConditions, frontier)])
  {
    var group: ConditionGroup := (step.literalConditions, frontier);
    PooledSnoc([group], 0);
    assert [group][..1] == [group] && [group][..0] == [];
    EveryBindingResolves(w, sc, step, frontier);
    forall b | b in frontier ensures BelongsUnder(w, sc, step, step.literalConditions, b) {
      assert step.literalConditions + [] == step.literalConditions;
    }
    assert GroupFits(w, sc, step, group);
  }

  lemma {:induction false} EveryBindingResolves(w: World, sc: Scope, step: AntiJoinStep, frontier: seq<Binding>)
    requires step.outerConditions == []
    ensures ResolvableSeq(w, sc, step, frontier) == frontier
  {
    if frontier != [] { EveryBindingResolves(w, sc, step, frontier[..|frontier| - 1]); }
  }

  // ---------------------------------------------------------------- execute

  /** The plan the partitions carry out: empty optional names count as none. */
  ghost function DeliveredPlan(steps: seq<PlanStep>): seq<PlanStep> {
    seq(|steps|, i requires 0 <= i < |steps| => Delivered(steps[i]))
  }

  ghost predicate AllWireSafe(steps: seq<PlanStep>) {
    forall i :: 0 <= i < |steps| ==> WireSafe(steps[i])
  }

  lemma WireSafeArrives(steps: seq<PlanStep>)
    requires AllWireSafe(steps)
    ensures DeliveredPlan(steps) == steps
  {
    forall i | 0 <= i < |steps| ensures Delivered(steps[i]) == steps[i] { assert WireSafe(steps[i]); }
  }

  /** One plan step after the first. */
  method RunStep(c: Cluster, step: PlanStep, frontier: seq<Binding>, ghost t: Tables, ghost sc: Scope)
    returns (r: Result<seq<Binding>, ExecutionError>)
    requires Serves(c, t) && NoDup(frontier) && AllFit(ToSet(frontier), sc)
    ensures r.Ok? ==>
      NoDup(r.value) && DenoteStep(WorldOf(c, t), sc, ToSet(frontier), Delivered(step)) == Ok(ToSet(r.value))
    ensures r.Err? ==> DenoteStep(WorldOf(c, t), sc, ToSet(frontier), Delivered(step)) == Err(r.error)
  {
    match step
    case ExpandHop(_, _, _, _, _, _, _, _) =>
      assert frontier != [] ==> frontier[0] in ToSet(frontier);
      var expanded := ScatterGatherHop(c, step, frontier, t, sc);
      if expanded.Err? { return expanded; }
      var kept := FilterFrontier(c, step, expanded.value, t);
      r := Ok(kept);
    case AntiJoin(antiJoin) =>
      r := ExecuteAntiJoin(c, antiJoin, frontier, t, sc);
    case ResolveStart(_, _, _, _) =>
      r := Err(ResolveNotFirst);
    case ResolveAll(_, _) =>
      r := Err(ResolveNotFirst);
  }

  /** Runs a plan to completion against one membership snapshot: the answer is the
      plan's denotation on the scanned tables, each row once. */
  method Execute(c: Cluster, plan: QueryPlan, ghost t: Tables) returns (r: Result<seq<Binding>, ExecutionError>)
    requires Serves(c, t)
    ensures r.Ok? ==> NoDup(r.value) && Denote(WorldOf(c, t), DeliveredPlan(plan.steps)) == Ok(ToSet(r.value))
    ensures r.Err? ==> Denote(WorldOf(c, t), DeliveredPlan(plan.steps)) == Err(r.error)
  {
    ghost var w, sent := WorldOf(c, t), DeliveredPlan(plan.steps);
    var steps := plan.steps;
    if steps == [] { return Err(EmptyPlan); }
    if !steps[0].ResolveStart? && !steps[0].ResolveAll? {
      ErrorSticks(w, sent, 1);
      return Err(FirstStepNotResolve);
    }
    var frontier := BroadcastResolve(c, steps[0], t);
    for i := 1 to |steps|
      invariant NoDup(frontier)
      invariant Denote(w, sent[..i]) == Ok(ToSet(frontier))
    {
      DenoteFitsScope(w, sent[..i]);
      TakeNext(sent, i);
      var result := RunStep(c, steps[i], frontier, t, ScopeOf(sent[..i]));
      if result.Err? {
        ErrorSticks(w, sent, i + 1);
        return result;
      }
      frontier := result.value;
    }
    assert sent[..|steps|] == sent;
    var rows := DedupBindings(frontier);
    r := Ok(rows);
  }
}
