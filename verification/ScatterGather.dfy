/** The coordinator's scatter-gather loop (distributed_executor.rs). */
module ScatterGather {
  import opened Basics
  import opened GraphModel
  import opened FilterEval
  import opened PropertyIndexes
  import opened Plan
  import opened Dedup
  import opened IndexBuilder
  import opened LocalExecutor
  import opened Wire
  import opened Denotation
  import opened ClusterAccess

  // ---------------------------------------------------------------- start broadcast

  /** The same world with only these partitions asked. */
  ghost function Asking(w: World, asked: set<PartitionId>): World {
    w.(route := map p | p in w.route && p in asked :: w.route[p])
  }

  lemma StartSplit(w: World, a: set<PartitionId>, b: set<PartitionId>, step: PlanStep)
    requires step.ResolveStart? || step.ResolveAll?
    ensures DenoteStart(Asking(w, a + b), step).value == DenoteStart(Asking(w, a), step).value + DenoteStart(Asking(w, b), step).value
  {
    ShownSplit(w, a, b);
  }

  lemma ShownSplit(w: World, a: set<PartitionId>, b: set<PartitionId>)
    ensures Asking(w, a + b).route.Values == Asking(w, a).route.Values + Asking(w, b).route.Values
  {
    var all := Asking(w, a + b).route;
    forall q | q in all.Values ensures q in Asking(w, a).route.Values + Asking(w, b).route.Values {
      var p :| p in all && all[p] == q;
      assert p in Asking(w, a).route || p in Asking(w, b).route;
    }
    forall q | q in Asking(w, a).route.Values + Asking(w, b).route.Values ensures q in all.Values {
      if q in Asking(w, a).route.Values {
        var p :| p in Asking(w, a).route && Asking(w, a).route[p] == q;
        assert p in all;
      } else {
        var p :| p in Asking(w, b).route && Asking(w, b).route[p] == q;
        assert p in all;
      }
    }
  }

  lemma ShownByOne(w: World, p: PartitionId, v: NodeId)
    requires p in w.route
    ensures Shown(Asking(w, {p}), v) <==> PartitionOf(w.h, v) == w.route[p]
  {
    assert p in Asking(w, {p}).route;
  }

  /** A replica answers with the start rows of its share. */
  ghost predicate IsHit(w: World, q: PartitionId, step: PlanStep, r: NodeRow)
    requires step.ResolveStart?
  {
    && r in w.t.nodes && PartitionOf(w.h, r.id) == q
    && Carries(w.t.schema, r, step.labelOrType, step.property, step.key)
  }

  lemma IndexHits(index: PropertyIndex, w: World, q: PartitionId, step: PlanStep, x: NodeId)
    requires step.ResolveStart? && IndexIsScan(index, w.t.schema, OwnedRows(w.t.nodes, w.h, q))
    ensures x in LookupEq(index, step.labelOrType, step.property, step.key) <==>
              exists r :: IsHit(w, q, step, r) && r.id == x
  {
    var rows := OwnedRows(w.t.nodes, w.h, q);
    OwnedRowsLaws(w.t.nodes, w.h, q);
    ScanEqMembers(w.t.schema, rows, step.labelOrType, step.property, step.key, x);
    if r :| IsHit(w, q, step, r) && r.id == x { assert r in rows; }
    if r :| r in rows && r.id == x && Carries(w.t.schema, r, step.labelOrType, step.property, step.key) {
      assert IsHit(w, q, step, r);
    }
  }

  lemma FromHits(ids: seq<NodeId>, w: World, p: PartitionId, step: PlanStep, answer: seq<Binding>)
    requires step.ResolveStart? && p in w.route
    requires |answer| == |ids| && forall i :: 0 <= i < |ids| ==> answer[i] == FromNode(step.alias, ids[i])
    requires forall x :: x in ids <==> exists r :: IsHit(w, w.route[p], step, r) && r.id == x
    ensures ToSet(answer) == DenoteStart(Asking(w, {p}), step).value
  {
    forall b | b in answer ensures b in DenoteStart(Asking(w, {p}), step).value {
      var i :| 0 <= i < |answer| && answer[i] == b;
      assert ids[i] in ids;
      var r :| IsHit(w, w.route[p], step, r) && r.id == ids[i];
      ShownByOne(w, p, r.id);
    }
    forall b | b in DenoteStart(Asking(w, {p}), step).value ensures b in answer {
      var r :| r in w.t.nodes && Carries(w.t.schema, r, step.labelOrType, step.property, step.key)
               && Shown(Asking(w, {p}), r.id) && b == FromNode(step.alias, r.id);
      ShownByOne(w, p, r.id);
      assert IsHit(w, w.route[p], step, r);
      assert r.id in ids;
      var i :| 0 <= i < |ids| && ids[i] == r.id;
      assert answer[i] == b;
    }
  }

  lemma StartIndexAnswer(g: IndexGeneration, w: World, p: PartitionId, step: PlanStep)
    requires p in w.route && Represents(g, w.t, w.h, w.route[p]) && step.ResolveStart?
    ensures ToSet(ResolveStartLocal(g, step).value) == DenoteStart(Asking(w, {p}), step).value
  {
    var ids := LookupEq(g.properties, step.labelOrType, step.property, step.key);
    forall x ensures x in ids <==> exists r :: IsHit(w, w.route[p], step, r) && r.id == x {
      IndexHits(g.properties, w, w.route[p], step, x);
    }
    FromHits(ids, w, p, step, ResolveStartLocal(g, step).value);
  }

  lemma RecordsAnswer(records: map<NodeId, NodeRecord>, w: World, p: PartitionId, step: PlanStep)
    requires p in w.route && NodeRecordsAreTable(records, w.t, w.h, w.route[p]) && step.ResolveAll?
    ensures (set v | v in records && records[v].labelName == step.labelName :: FromNode(step.alias, v))
            == DenoteStart(Asking(w, {p}), step).value
  {
    forall v ensures Shown(Asking(w, {p}), v) <==> PartitionOf(w.h, v) == w.route[p] { ShownByOne(w, p, v); }
    forall v | v in records
      ensures exists r ::
                r in w.t.nodes && r.id == v && PartitionOf(w.h, v) == w.route[p] && records[v].labelName == r.labelName
    {
      assert v in OwnedIds(w.t, w.h, w.route[p]);
    }
  }

  method ResolveOn(g: IndexGeneration, step: PlanStep, p: PartitionId, ghost w: World) returns (bindings: seq<Binding>)
    requires p in w.route && Represents(g, w.t, w.h, w.route[p]) && (step.ResolveStart? || step.ResolveAll?)
    ensures ToSet(bindings) == DenoteStart(Asking(w, {p}), step).value
  {
    if step.ResolveStart? {
      var answer := RpcResolveStart(g, step);
      StartIndexAnswer(g, w, p, step);
      bindings := answer.value;
    } else {
      var answer := RpcResolveAll(g, step);
      RecordsAnswer(g.nodeRecords, w, p, step);
      bindings := answer.value;
    }
  }

  /** Every partition is asked, and what each finds is united. */
  method BroadcastResolve(c: Cluster, step: PlanStep, ghost t: Tables) returns (merged: seq<Binding>)
    requires Serves(c, t) && (step.ResolveStart? || step.ResolveAll?)
    ensures NoDup(merged)
    ensures Ok(ToSet(merged)) == DenoteStart(WorldOf(c, t), step)
  {
    ghost var w := WorldOf(c, t);
    merged := [];
    var seen: set<BindingKey> := {};
    var todo := c.replicasByPartition.Keys;
    ghost var asked: set<PartitionId> := {};
    while todo != {}
      invariant todo <= c.replicasByPartition.Keys
      invariant asked == w.route.Keys - todo
      invariant NoDup(merged) && seen == KeysOf(ToSet(merged))
      invariant ToSet(merged) == DenoteStart(Asking(w, asked), step).value
      decreases todo
    {
      var p :| p in todo;
      TurnTaken(w.route.Keys, todo, p);
      todo := todo - {p};
      var g := Generation(c, p, t);
      if g.Some? {
        var bindings := ResolveOn(g.value, step, p, w);
        StartSplit(w, asked, {p}, step);
        merged, seen := MergeNew(merged, seen, bindings);
        asked := asked + {p};
      }
    }
    assert Asking(w, asked).route == w.route;
  }

  // ---------------------------------------------------------------- one network round

  /** The rows the edge table gives one binding standing at `v`. */
  ghost function EdgeRows(w: World, b: Binding, v: NodeId, step: PlanStep): set<Binding>
    requires step.ExpandHop?
  {
    set e | e in w.t.edges && CanCross(w, v, e, step) ::
      Extend(b, step.toAlias, Far(e, step.direction), step.edgeAlias, e.id)
  }

  lemma EntryHasEdge(
      topology: TopologicalIndex, w: World, p: PartitionId, b: Binding, v: NodeId, step: PlanStep, a: AdjacencyEntry)
    requires step.ExpandHop? && p in w.route && ServesRow(topology, w.t, w.h, w.route[p], v, step.direction)
             && PartitionOf(w.h, v) == p
    requires a in Neighbors(topology, v, step.direction) && Usable(a, step)
    ensures a.dstLocal.Some? ==>
      Extend(b, step.toAlias, a.dstLocal.value, step.edgeAlias, a.edgeId) in EdgeRows(w, b, v, step)
    ensures a.dstLocal.None? && a.dstRemote.Some? ==>
              Extend(b, step.toAlias, a.dstRemote.value.node, step.edgeAlias, a.edgeId) in EdgeRows(w, b, v, step)
  {
    var e :| EntryOf(w.t, w.h, w.route[p], v, step.direction, e, a);
    EntryLeads(w.t, w.h, w.route[p], v, step.direction, e, a);
    if a.dstLocal.Some? || a.dstRemote.Some? {
      assert CanCross(w, v, e, step);
    }
  }

  lemma EdgeHasEntry(
      topology: TopologicalIndex, w: World, p: PartitionId, b: Binding, v: NodeId, step: PlanStep, e: EdgeRow)
    requires step.ExpandHop? && p in w.route && ServesRow(topology, w.t, w.h, w.route[p], v, step.direction)
             && PartitionOf(w.h, v) == p
    requires CanCross(w, v, e, step)
    ensures var entries, x := Neighbors(topology, v, step.direction), Extend(b, step.toAlias, Far(e, step.direction), step.edgeAlias, e.id);
            x in LocalRows(entries, b, step) || x in RemoteRows(entries, b, step)
  {
    var a := MakeEntry(e, OwnedIds(w.t, w.h, w.route[p]), w.route[p], w.h, step.direction);
    assert EntryOf(w.t, w.h, w.route[p], v, step.direction, e, a);
    EntryLeads(w.t, w.h, w.route[p], v, step.direction, e, a);
  }

  /** What one binding's single local hop yields, local and remote rows together, is
      what the edge table says about its node. */
  lemma EdgeRowsOfBinding(g: IndexGeneration, w: World, p: PartitionId, b: Binding, v: NodeId, step: PlanStep)
    requires p in w.route && Represents(g, w.t, w.h, w.route[p]) && ValidTopology(g.topology) && step.ExpandHop?
             && PartitionOf(w.h, v) == p
    ensures LocalRows(Neighbors(g.topology, v, step.direction), b, step) + RemoteRows(Neighbors(g.topology, v, step.direction), b, step)
            == EdgeRows(w, b, v, step)
  {
    TopologyRow(g.topology, w.t, w.h, w.route[p], v, step.direction);
    var entries := Neighbors(g.topology, v, step.direction);
    forall a | a in entries && Usable(a, step)
      ensures a.dstLocal.Some? ==>
        Extend(b, step.toAlias, a.dstLocal.value, step.edgeAlias, a.edgeId) in EdgeRows(w, b, v, step)
      ensures a.dstLocal.None? && a.dstRemote.Some? ==>
                Extend(b, step.toAlias, a.dstRemote.value.node, step.edgeAlias, a.edgeId) in EdgeRows(w, b, v, step)
    {
      EntryHasEdge(g.topology, w, p, b, v, step, a);
    }
    forall x | x in EdgeRows(w, b, v, step)
      ensures x in LocalRows(entries, b, step) || x in RemoteRows(entries, b, step)
    {
      var e :| e in w.t.edges && CanCross(w, v, e, step)
               && x == Extend(b, step.toAlias, Far(e, step.direction), step.edgeAlias, e.id);
      EdgeHasEntry(g.topology, w, p, b, v, step, e);
    }
  }

  lemma SingleHopOfBinding(g: IndexGeneration, b: Binding, v: NodeId, step: PlanStep)
    requires ValidTopology(g.topology) && step.ExpandHop? && step.hops == HopRange(1, 1)
    ensures RowsUpTo(g, b, v, step, 1) == LocalRows(Neighbors(g.topology, v, step.direction), b, step)
    ensures RemoteUpTo(g, b, v, step, 1) == RemoteRows(Neighbors(g.topology, v, step.direction), b, step)
  {
    var entries := Neighbors(g.topology, v, step.direction);
    assert Level(g, v, step, 0) == {v};
    assert RowsUpTo(g, b, v, step, 0) == {} && RemoteUpTo(g, b, v, step, 0) == {};
    assert RemoteUpTo(g, b, v, step, 1) == AllRemoteRows(g, {v}, b, step);
    assert RowsUpTo(g, b, v, step, 1) == RowsAt(g, b, v, step, 1);
    if step.edgeAlias.None? {
      assert Level(g, v, step, 1) == LocalEnds(entries, step);
      UnaliasedRows(entries, b, step);
    }
  }

  lemma UnaliasedRows(entries: seq<AdjacencyEntry>, b: Binding, step: PlanStep)
    requires step.ExpandHop? && step.edgeAlias.None?
    ensures (set u | u in LocalEnds(entries, step) :: MoveTo(b, step.toAlias, u)) == LocalRows(entries, b, step)
  {
    forall x | x in LocalRows(entries, b, step)
      ensures exists u :: u in LocalEnds(entries, step) && x == MoveTo(b, step.toAlias, u)
    {
      var a :| a in entries && Usable(a, step) && a.dstLocal.Some?
               && x == Extend(b, step.toAlias, a.dstLocal.value, step.edgeAlias, a.edgeId);
      assert a.dstLocal.value in LocalEnds(entries, step);
    }
  }

  lemma RowsOfBinding(g: IndexGeneration, w: World, p: PartitionId, b: Binding, v: NodeId, step: PlanStep)
    requires p in w.route && Represents(g, w.t, w.h, w.route[p]) && ValidTopology(g.topology)
             && PartitionOf(w.h, v) == p
    requires step.ExpandHop? && step.hops == HopRange(1, 1)
    ensures RowsUpTo(g, b, v, step, 1) + RemoteUpTo(g, b, v, step, 1) == EdgeRows(w, b, v, step)
  {
    SingleHopOfBinding(g, b, v, step);
    EdgeRowsOfBinding(g, w, p, b, v, step);
  }

  lemma HopMember(w: World, from: set<Binding>, cursor: string, step: PlanStep, x: Binding)
    requires step.ExpandHop?
    ensures x in Hop(w, from, cursor, step, step.edgeAlias) <==>
              exists b :: b in from && cursor in b.nodes && x in EdgeRows(w, b, b.nodes[cursor], step)
  {
  }

  lemma HopOnPartition(g: IndexGeneration, w: World, p: PartitionId, step: PlanStep, group: seq<Binding>)
    requires p in w.route && Represents(g, w.t, w.h, w.route[p]) && ValidTopology(g.topology)
    requires step.ExpandHop? && step.hops == HopRange(1, 1) && AllBound(group, step.fromAlias)
    requires forall b :: b in group ==> PartitionOf(w.h, b.nodes[step.fromAlias]) == p
    ensures FrontierRows(g, group, step) + FrontierRemote(g, group, step) == Hop(w, ToSet(group), step.fromAlias, step, step.edgeAlias)
  {
    var rows := FrontierRows(g, group, step) + FrontierRemote(g, group, step);
    forall x ensures x in rows <==> x in Hop(w, ToSet(group), step.fromAlias, step, step.edgeAlias) {
      HopMember(w, ToSet(group), step.fromAlias, step, x);
      forall b | b in group
        ensures x in RowsUpTo(g, b, b.nodes[step.fromAlias], step, 1) + RemoteUpTo(g, b, b.nodes[step.fromAlias], step, 1)
                <==> x in EdgeRows(w, b, b.nodes[step.fromAlias], step)
      {
        RowsOfBinding(g, w, p, b, b.nodes[step.fromAlias], step);
      }
    }
  }

  lemma HopUnion(w: World, a: set<Binding>, b: set<Binding>, cursor: string, step: PlanStep, ea: Option<string>)
    requires step.ExpandHop?
    ensures Hop(w, a + b, cursor, step, ea) == Hop(w, a, cursor, step, ea) + Hop(w, b, cursor, step, ea)
  {
  }

  lemma HopUnreachable(w: World, from: set<Binding>, cursor: string, step: PlanStep, ea: Option<string>)
    requires step.ExpandHop?
    requires forall b :: b in from && cursor in b.nodes ==> !Reachable(w, b.nodes[cursor])
    ensures Hop(w, from, cursor, step, ea) == {}
  {
  }

  method RoundOnPartition(c: Cluster, step: PlanStep, p: PartitionId, group: seq<Binding>, ghost t: Tables)
    returns (rows: seq<Binding>)
    requires Serves(c, t)
    requires step.ExpandHop? && step.hops == HopRange(1, 1) && step.filters == [] && AllBound(group, step.fromAlias)
    requires forall b :: b in group ==> PartitionOf(c.hasher, b.nodes[step.fromAlias]) == p
    ensures ToSet(rows) == Hop(WorldOf(c, t), ToSet(group), step.fromAlias, Delivered(step), Delivered(step).edgeAlias)
  {
    var g := Generation(c, p, t);
    if g.None? {
      HopUnreachable(WorldOf(c, t), ToSet(group), step.fromAlias, Delivered(step), Delivered(step).edgeAlias);
      return [];
    }
    var result, answer := RpcExpandHop(g.value, step, group);
    FlattenFrontierSet(answer.value);
    HopOnPartition(g.value, WorldOf(c, t), p, Delivered(step), group);
    rows := FlattenFrontier(result.value);
    FlattenFrontierSet(result.value);
  }

  /** Groups the frontier by owner, asks each owner once, folds all answers together. */
  method OneRound(c: Cluster, step: PlanStep, frontier: seq<Binding>, ghost t: Tables)
    returns (r: Result<seq<Binding>, ExecutionError>)
    requires Serves(c, t)
    requires step.ExpandHop? && step.hops == HopRange(1, 1) && step.filters == []
    ensures r.Ok? <==> AllBound(frontier, step.fromAlias)
    ensures r.Err? ==> r.error == UnknownAlias(step.fromAlias)
    ensures r.Ok? ==>
      ToSet(r.value) == Hop(WorldOf(c, t), ToSet(frontier), step.fromAlias, Delivered(step), Delivered(step).edgeAlias)
  {
    ghost var w, sent := WorldOf(c, t), Delivered(step);
    var grouped := GroupByOwningNodePartition(c.hasher, frontier, step.fromAlias);
    if grouped.Err? { return Err(grouped.error); }
    var groups := grouped.value;
    var next: seq<Binding> := [];
    var todo := groups.Keys;
    SettledBounds(c.hasher, frontier, step.fromAlias, groups);
    while todo != {}
      invariant todo <= groups.Keys
      invariant ToSet(next) == Hop(w, Settled(c.hasher, frontier, step.fromAlias, todo), step.fromAlias, sent, sent.edgeAlias)
      decreases todo
    {
      var p :| p in todo;
      SettledMore(c.hasher, frontier, step.fromAlias, todo, p);
      var rows := RoundOnPartition(c, step, p, groups[p], t);
      HopUnion(
        w, Settled(c.hasher, frontier, step.fromAlias, todo), ToSet(groups[p]), step.fromAlias, sent, sent.edgeAlias);
      ToSetConcat(next, rows);
      next := next + rows;
      todo := todo - {p};
    }
    r := Ok(next);
  }

  // ---------------------------------------------------------------- variable-length hop

  lemma HopSameFields(w: World, from: set<Binding>, cursor: string, a: PlanStep, b: PlanStep, ea: Option<string>)
    requires a.ExpandHop? && b.ExpandHop?
    requires a.toAlias == b.toAlias && a.edgeType == b.edgeType && a.direction == b.direction
    ensures Hop(w, from, cursor, a, ea) == Hop(w, from, cursor, b, ea)
  {
    forall v, e ensures CanCross(w, v, e, a) == CanCross(w, v, e, b) {}
  }

  lemma {:induction false} NothingAfterEmpty(w: World, from: set<Binding>, step: PlanStep, d: nat, max: nat)
    requires step.ExpandHop? && d <= max && Rounds(w, from, step, d) == {}
    ensures Accepted(w, from, step, max) == Accepted(w, from, step, d)
    decreases max - d
  {
    if d < max {
      assert Rounds(w, from, step, d + 1) == {};
      assert Accepted(w, from, step, d + 1) == Accepted(w, from, step, d);
      NothingAfterEmpty(w, from, step, d + 1, max);
    }
  }

  /** The cursor of the next round is bound in every row of the frontier, or in none. */
  lemma CursorInAll(w: World, from: set<Binding>, sc: Scope, step: PlanStep, current: seq<Binding>, d: nat)
    requires step.ExpandHop? && AllFit(from, sc) && current != [] && ToSet(current) == Rounds(w, from, step, d)
    ensures d == 0 ==> (AllBound(current, step.fromAlias) <==> step.fromAlias in sc.nodes)
    ensures d > 0 ==> AllBound(current, step.toAlias)
  {
    assert forall b :: b in current <==> b in ToSet(current);
    assert current[0] in current;
    if d > 0 { RoundsFit(w, from, sc, step, d); }
  }

  /** One more round of a variable-length hop. */
  method NextRound(
      c: Cluster, step: PlanStep, current: seq<Binding>, cursor: string, isFirst: bool, ghost d: nat, ghost t: Tables,
      ghost from: set<Binding>, ghost sc: Scope)
    returns (r: Result<seq<Binding>, ExecutionError>)
    requires Serves(c, t) && step.ExpandHop? && AllFit(from, sc)
    requires current != [] && ToSet(current) == Rounds(WorldOf(c, t), from, Delivered(step), d) && (isFirst <==> d == 0)
    requires cursor == if isFirst then step.fromAlias else step.toAlias
    ensures r.Err? <==> isFirst && step.fromAlias !in sc.nodes
    ensures r.Err? ==> r.error == UnknownAlias(step.fromAlias)
    ensures r.Ok? ==> ToSet(r.value) == Rounds(WorldOf(c, t), from, Delivered(step), d + 1)
  {
    var roundStep := ExpandHop(cursor, step.toAlias, None, step.edgeType, step.direction, HopRange(1, 1), [],
                               if isFirst then step.edgeAlias else None);
    ghost var sent := Delivered(roundStep);
    CursorInAll(WorldOf(c, t), from, sc, Delivered(step), current, d);
    HopSameFields(WorldOf(c, t), ToSet(current), cursor, sent, Delivered(step), sent.edgeAlias);
    r := OneRound(c, roundStep, current, t);
  }

  lemma AcceptedMore(
      w: World, from: set<Binding>, step: PlanStep, d: nat, before: set<Binding>, round: set<Binding>,
      after: set<Binding>)
    requires step.ExpandHop? && before == Accepted(w, from, step, d) && round == Rounds(w, from, step, d + 1)
    requires after == if d + 1 >= step.hops.min then before + round else before
    ensures after == Accepted(w, from, step, d + 1)
  {
  }

  /** A round from `min` on contributes the rows not met before. */
  method AcceptRound(
      step: PlanStep, depth: nat, accepted: seq<Binding>, seen: set<BindingKey>, current: seq<Binding>, ghost w: World,
      ghost from: set<Binding>)
    returns (accepted': seq<Binding>, seen': set<BindingKey>)
    requires step.ExpandHop? && depth > 0 && NoDup(accepted) && seen == KeysOf(ToSet(accepted))
    requires ToSet(accepted) == Accepted(w, from, Delivered(step), depth - 1)
             && ToSet(current) == Rounds(w, from, Delivered(step), depth)
    ensures NoDup(accepted') && seen' == KeysOf(ToSet(accepted'))
    ensures ToSet(accepted') == Accepted(w, from, Delivered(step), depth)
  {
    accepted', seen' := accepted, seen;
    if depth >= step.hops.min {
      accepted', seen' := MergeNew(accepted, seen, current);
    }
    AcceptedMore(w, from, Delivered(step), depth - 1, ToSet(accepted), ToSet(current), ToSet(accepted'));
  }

  /** Up to `max` rounds; every depth from `min` on contributes its new rows. */
  method ScatterGatherHop(c: Cluster, step: PlanStep, frontier: seq<Binding>, ghost t: Tables, ghost sc: Scope)
    returns (r: Result<seq<Binding>, ExecutionError>)
    requires Serves(c, t) && step.ExpandHop? && AllFit(ToSet(frontier), sc)
    ensures r.Err? <==> frontier != [] && step.hops.max >= 1 && step.fromAlias !in sc.nodes
    ensures r.Err? ==> r.error == UnknownAlias(step.fromAlias)
    ensures r.Ok? ==>
      NoDup(r.value) && ToSet(r.value) == Accepted(WorldOf(c, t), ToSet(frontier), Delivered(step), step.hops.max)
  {
    ghost var w, from := WorldOf(c, t), ToSet(frontier);
    var current := frontier;
    var accepted: seq<Binding> := [];
    var seen: set<BindingKey> := {};
    var cursor := step.fromAlias;
    var depth := 1;
    ghost var d: nat := 0;
    while depth <= step.hops.max
      invariant depth == d + 1 && d <= step.hops.max
      invariant cursor == if d == 0 then step.fromAlias else step.toAlias
      invariant d == 0 ==> current == frontier
      invariant d > 0 ==> frontier == [] || step.fromAlias in sc.nodes
      invariant ToSet(current) == Rounds(w, from, Delivered(step), d)
      invariant NoDup(accepted) && seen == KeysOf(ToSet(accepted))
      invariant ToSet(accepted) == Accepted(w, from, Delivered(step), d)
    {
      if current == [] {
        NothingAfterEmpty(w, from, Delivered(step), d, step.hops.max);
        return Ok(accepted);
      }
      var round := NextRound(c, step, current, cursor, depth == 1, d, t, from, sc);
      if round.Err? { return Err(round.error); }
      current := round.value;
      accepted, seen := AcceptRound(step, depth, accepted, seen, current, w, from);
      cursor := step.toAlias;
      depth := depth + 1;
      d := d + 1;
    }
    r := Ok(accepted);
  }

  // ---------------------------------------------------------------- WHERE

  lemma KeepByRecord(
      w: World, found: map<NodeId, NodeRecord>, ids: set<NodeId>, b: Binding, alias: string,
      filters: seq<PropertyFilter>)
    requires HydratesNodes(w, ids, found) && alias in b.nodes && b.nodes[alias] in ids
    ensures PassesFilters(w, b, alias, filters) <==>
              b.nodes[alias] in found && AllHold(w.parse, found[b.nodes[alias]].properties, filters)
  {
    if b.nodes[alias] in found {
      TransportKeepsAll(w.parse, NodeProps(w, b.nodes[alias]).value, filters);
    }
  }

  lemma FilteredSnoc(w: World, from: set<Binding>, b: Binding, alias: string, filters: seq<PropertyFilter>)
    requires filters != []
    ensures Filtered(w, from + {b}, alias, filters) ==
            Filtered(w, from, alias, filters) + (if PassesFilters(w, b, alias, filters) then {b} else {})
  {
  }

  method RecordPasses(
      parse: TsParser, found: map<NodeId, NodeRecord>, b: Binding, alias: string, filters: seq<PropertyFilter>,
      ghost w: World, ghost ids: set<NodeId>)
    returns (passes: bool)
    requires HydratesNodes(w, ids, found) && w.parse == parse
    requires alias in b.nodes ==> b.nodes[alias] in ids
    ensures passes == PassesFilters(w, b, alias, filters)
  {
    if alias !in b.nodes { return false; }
    KeepByRecord(w, found, ids, b, alias, filters);
    passes := b.nodes[alias] in found && AllHold(parse, found[b.nodes[alias]].properties, filters);
  }

  /** Keeps the bindings whose hydrated target passes every filter, in order. */
  method FilterFrontier(c: Cluster, step: PlanStep, frontier: seq<Binding>, ghost t: Tables)
    returns (kept: seq<Binding>)
    requires Serves(c, t) && step.ExpandHop?
    ensures ToSet(kept) == Filtered(WorldOf(c, t), ToSet(frontier), step.toAlias, step.filters)
    ensures NoDup(frontier) ==> NoDup(kept)
  {
    if step.filters == [] || frontier == [] { return frontier; }
    var wanted := set b | b in frontier && step.toAlias in b.nodes :: b.nodes[step.toAlias];
    var ids := Drain(wanted);
    var properties := GetNodeProperties(c, ids, t);
    kept := KeepPassing(c.parse, properties, frontier, step.toAlias, step.filters, WorldOf(c, t), wanted);
  }

  lemma KeptMore(
      w: World, seen: seq<Binding>, kept: seq<Binding>, b: Binding, alias: string, filters: seq<PropertyFilter>)
    requires filters != [] && ToSet(kept) == Filtered(w, ToSet(seen), alias, filters)
    ensures PassesFilters(w, b, alias, filters) ==> ToSet(kept + [b]) == Filtered(w, ToSet(seen + [b]), alias, filters)
    ensures !PassesFilters(w, b, alias, filters) ==> ToSet(kept) == Filtered(w, ToSet(seen + [b]), alias, filters)
    ensures NoDup(seen + [b]) && NoDup(kept) ==> NoDup(kept + [b])
  {
    ToSetSnoc(seen, b);
    ToSetSnoc(kept, b);
    FilteredSnoc(w, ToSet(seen), b, alias, filters);
    if NoDup(seen + [b]) && NoDup(kept) {
      NoDupParts(seen, [b]);
      assert b in ToSet([b]);
      NoDupConcat(kept, [b]);
    }
  }

  lemma NoDupPrefix(s: seq<Binding>, i: nat)
    requires NoDup(s) && i <= |s|
    ensures NoDup(s[..i])
  {
  }

  method KeepPassing(
      parse: TsParser, found: map<NodeId, NodeRecord>, frontier: seq<Binding>, alias: string,
      filters: seq<PropertyFilter>, ghost w: World, ghost ids: set<NodeId>)
    returns (kept: seq<Binding>)
    requires HydratesNodes(w, ids, found) && w.parse == parse && filters != []
    requires forall b :: b in frontier && alias in b.nodes ==> b.nodes[alias] in ids
    ensures ToSet(kept) == Filtered(w, ToSet(frontier), alias, filters)
    ensures NoDup(frontier) ==> NoDup(kept)
  {
    kept := [];
    for i := 0 to |frontier|
      invariant ToSet(kept) == Filtered(w, ToSet(frontier[..i]), alias, filters)
      invariant NoDup(frontier) ==> NoDup(kept)
    {
      TakeNext(frontier, i);
      if NoDup(frontier) { NoDupPrefix(frontier, i + 1); }
      KeptMore(w, frontier[..i], kept, frontier[i], alias, filters);
      var passes := RecordPasses(parse, found, frontier[i], alias, filters, w, ids);
      if passes { kept := kept + [frontier[i]]; }
    }
    assert frontier[..|frontier|] == frontier;
  }
}
