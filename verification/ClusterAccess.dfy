/** Routing and hydration: the parts of the coordinator that read one partition at a time
    (graph-cluster and distributed_executor.rs), over any replica that serves it and in any
    partition order. */
module ClusterAccess {
  import opened Basics
  import opened GraphModel
  import opened Membership
  import opened Plan
  import opened IndexBuilder
  import opened LocalExecutor
  import opened Wire
  import opened Denotation

  /** What runs behind a replica name: one generation, the share of one partition. A call
      names no partition, so this share answers whichever partition it is asked for. */
  datatype PartitionNode = PartitionNode(partition: PartitionId, generation: IndexGeneration)

  /** A membership snapshot and the node behind each replica name. */
  datatype Cluster = Cluster(
    hasher: Hasher, replicasByPartition: PartitionMap, serving: map<string, PartitionNode>, parse: TsParser)

  /** Every listed replica holds the share of its own partition of `t`, under whichever
      partitions it is listed. */
  ghost predicate Serves(c: Cluster, t: Tables) {
    UniqueIds(t) && forall p, r :: ReplicaServes(c, t, p, r)
  }

  ghost predicate ReplicaServes(c: Cluster, t: Tables, p: PartitionId, r: ReplicaEndpoint) {
    p in c.replicasByPartition && r in c.replicasByPartition[p] ==>
      && r.replica in c.serving
      && Represents(c.serving[r.replica].generation, t, c.hasher, c.serving[r.replica].partition)
  }

  /** The partition whose share answers for `p`: that of the first healthy replica. */
  ghost function RouteOf(c: Cluster): map<PartitionId, PartitionId> {
    map p | p in c.replicasByPartition && PickReplica(c.replicasByPartition, p).Some?
            && PickReplica(c.replicasByPartition, p).value.replica in c.serving ::
      c.serving[PickReplica(c.replicasByPartition, p).value.replica].partition
  }

  ghost function WorldOf(c: Cluster, t: Tables): World {
    World(t, c.hasher, RouteOf(c), c.parse)
  }

  /** Each replica is listed only where its share is. */
  ghost predicate ListedWhereHeld(c: Cluster) {
    forall p, r :: p in c.replicasByPartition && r in c.replicasByPartition[p] && r.replica in c.serving ==>
      c.serving[r.replica].partition == p
  }

  /** Where every replica is listed only where its share is, the membership answers for
      exactly the partitions that have a healthy replica, and each with its own share. */
  lemma ListedWhereHeldIsRight(c: Cluster, t: Tables)
    requires Serves(c, t) && ListedWhereHeld(c)
    ensures RouteOf(c).Keys == Live(c.replicasByPartition)
    ensures forall p :: p in RouteOf(c) ==> RouteOf(c)[p] == p
  {
    forall p | p in c.replicasByPartition
      ensures p in RouteOf(c) <==> p in Live(c.replicasByPartition)
      ensures p in RouteOf(c) ==> RouteOf(c)[p] == p
    {
      ListedReplica(c, t, p);
    }
  }

  lemma ListedReplica(c: Cluster, t: Tables, p: PartitionId)
    requires p in c.replicasByPartition && ListedWhereHeld(c)
    requires forall r :: ReplicaServes(c, t, p, r)
    ensures p in RouteOf(c) <==> p in Live(c.replicasByPartition)
    ensures p in RouteOf(c) ==> RouteOf(c)[p] == p
  {
    FirstHealthyLaws(c.replicasByPartition[p]);
    var replica := PickReplica(c.replicasByPartition, p);
    if replica.Some? { assert ReplicaServes(c, t, p, replica.value); }
  }

  lemma {:induction false} AdjacencyMembers(
      edges: seq<EdgeRow>, owned: set<NodeId>, p: PartitionId, h: Hasher, v: NodeId, dir: Direction, a: AdjacencyEntry)
    ensures a in AdjacencyOf(edges, owned, p, h, v, dir) <==>
              exists e :: e in edges && Near(e, dir) == v && a == MakeEntry(e, owned, p, h, dir)
  {
    if edges != [] {
      var front, last := edges[..|edges| - 1], edges[|edges| - 1];
      AdjacencyMembers(front, owned, p, h, v, dir, a);
      FrontAndLast(edges);
    }
  }

  /** The entries at `v` are exactly the edges of the table at `v`, if `v` lives here. */
  lemma NeighborMembers(
      topology: TopologicalIndex, t: Tables, h: Hasher, p: PartitionId, v: NodeId, dir: Direction, a: AdjacencyEntry)
    requires TopologyIsScan(topology, t, h, p)
    ensures ValidTopology(topology)
    ensures a in Neighbors(topology, v, dir) <==>
              v in OwnedIds(t, h, p)
              && exists e :: e in t.edges && Near(e, dir) == v && a == MakeEntry(e, OwnedIds(t, h, p), p, h, dir)
  {
    AdjacencyMembers(t.edges, OwnedIds(t, h, p), p, h, v, dir, a);
  }

  ghost predicate EntryOf(
      t: Tables, h: Hasher, p: PartitionId, v: NodeId, dir: Direction, e: EdgeRow, a: AdjacencyEntry)
  {
    e in t.edges && Near(e, dir) == v && a == MakeEntry(e, OwnedIds(t, h, p), p, h, dir)
  }

  /** The entries at `v` are the edges at `v`, if `v` lives here. */
  ghost predicate ServesRow(
      topology: TopologicalIndex, t: Tables, h: Hasher, p: PartitionId, v: NodeId, dir: Direction)
  {
    && ValidTopology(topology)
    && forall a ::
         a in Neighbors(topology, v, dir) <==> v in OwnedIds(t, h, p) && exists e :: EntryOf(t, h, p, v, dir, e, a)
  }

  lemma TopologyRow(topology: TopologicalIndex, t: Tables, h: Hasher, p: PartitionId, v: NodeId, dir: Direction)
    requires TopologyIsScan(topology, t, h, p)
    ensures ServesRow(topology, t, h, p, v, dir)
  {
    forall a
      ensures ValidTopology(topology)
      ensures a in Neighbors(topology, v, dir) <==> v in OwnedIds(t, h, p) && exists e :: EntryOf(t, h, p, v, dir, e, a)
    {
      NeighborMembers(topology, t, h, p, v, dir, a);
      if e :| e in t.edges && Near(e, dir) == v && a == MakeEntry(e, OwnedIds(t, h, p), p, h, dir) {
        assert EntryOf(t, h, p, v, dir, e, a);
      }
    }
  }

  /** Where the entry of an edge leads. */
  lemma EntryLeads(t: Tables, h: Hasher, p: PartitionId, v: NodeId, dir: Direction, e: EdgeRow, a: AdjacencyEntry)
    requires EntryOf(t, h, p, v, dir, e, a)
    ensures a.edgeId == e.id && a.edgeType == e.edgeType
    ensures a.dstLocal == if Far(e, dir) in OwnedIds(t, h, p) then Some(Far(e, dir)) else None
    ensures a.dstRemote.Some? <==> PartitionOf(h, Far(e, dir)) != p
    ensures a.dstRemote.Some? ==> a.dstRemote.value.node == Far(e, dir)
  {
  }

  lemma RepresentsCoherent(g: IndexGeneration, t: Tables, h: Hasher, p: PartitionId)
    requires Represents(g, t, h, p)
    ensures Coherent(g)
  {
    forall v, dir, a | a in Neighbors(g.topology, v, dir)
      ensures a.dstLocal.Some? ==> a.dstLocal.value in g.topology.idToLocal
      ensures a.dstLocal.None? && a.dstRemote.Some? ==> a.dstRemote.value.node !in g.topology.idToLocal
    {
      TopologyRow(g.topology, t, h, p, v, dir);
      RowCoherent(g.topology, t, h, p, v, dir, a);
    }
  }

  lemma RowCoherent(
      topology: TopologicalIndex, t: Tables, h: Hasher, p: PartitionId, v: NodeId, dir: Direction, a: AdjacencyEntry)
    requires ServesRow(topology, t, h, p, v, dir) && a in Neighbors(topology, v, dir)
    ensures a.dstLocal.Some? ==> a.dstLocal.value in OwnedIds(t, h, p)
    ensures a.dstLocal.None? && a.dstRemote.Some? ==> a.dstRemote.value.node !in OwnedIds(t, h, p)
  {
    var e :| EntryOf(t, h, p, v, dir, e, a);
    EntryLeads(t, h, p, v, dir, e, a);
  }

  /** The generation behind the first healthy replica, if there is one. */
  method Generation(c: Cluster, p: PartitionId, ghost t: Tables) returns (g: Option<IndexGeneration>)
    requires Serves(c, t)
    ensures g.Some? <==> p in RouteOf(c)
    ensures g.Some? ==> Represents(g.value, t, c.hasher, RouteOf(c)[p]) && Coherent(g.value)
  {
    if p in c.replicasByPartition {
      FirstHealthyLaws(c.replicasByPartition[p]);
    }
    var replica := PickReplica(c.replicasByPartition, p);
    if replica.None? { return None; }
    assert ReplicaServes(c, t, p, replica.value);
    g := Some(c.serving[replica.value.replica].generation);
    RepresentsCoherent(g.value, t, c.hasher, RouteOf(c)[p]);
  }

  /** A hash set drained in whatever order it yields. */
  method Drain<T(==)>(s: set<T>) returns (out: seq<T>)
    ensures ToSet(out) == s
  {
    out := [];
    var todo := s;
    while todo != {}
      invariant todo <= s && ToSet(out) == s - todo
      decreases todo
    {
      var x :| x in todo;
      ToSetSnoc(out, x);
      out := out + [x];
      todo := todo - {x};
    }
  }

  // ---------------------------------------------------------------- routing

  /** The bindings whose `alias` node lives on `p`, in frontier order. */
  ghost function OwnedBy(h: Hasher, frontier: seq<Binding>, alias: string, p: PartitionId): seq<Binding>
    requires AllBound(frontier, alias)
  {
    if frontier == [] then []
    else
      var last := frontier[|frontier| - 1];
      OwnedBy(h, frontier[..|frontier| - 1], alias, p) + (if PartitionOf(h, last.nodes[alias]) == p then [last] else [])
  }

  lemma {:induction false} OwnedByLaws(h: Hasher, frontier: seq<Binding>, alias: string, p: PartitionId)
    requires AllBound(frontier, alias)
    ensures forall b :: b in OwnedBy(h, frontier, alias, p) <==> b in frontier && PartitionOf(h, b.nodes[alias]) == p
    ensures NoDup(frontier) ==> NoDup(OwnedBy(h, frontier, alias, p))
  {
    if frontier != [] {
      var front, last := frontier[..|frontier| - 1], frontier[|frontier| - 1];
      OwnedByLaws(h, front, alias, p);
      FrontAndLast(frontier);
      if NoDup(frontier) { assert last !in front; }
    }
  }

  /** One group for each partition that owns a cursor node; each group is the matching
      subsequence of the frontier, so nothing is lost, repeated or reordered. */
  ghost predicate IsGrouping(h: Hasher, frontier: seq<Binding>, alias: string, groups: map<PartitionId, seq<Binding>>)
    requires AllBound(frontier, alias)
  {
    && groups.Keys == (set b | b in frontier :: PartitionOf(h, b.nodes[alias]))
    && forall p :: p in groups ==> groups[p] == OwnedBy(h, frontier, alias, p)
  }

  /** The bindings of partitions that have had their turn. */
  ghost function Settled(h: Hasher, frontier: seq<Binding>, alias: string, todo: set<PartitionId>): set<Binding>
    requires AllBound(frontier, alias)
  {
    set b | b in frontier && PartitionOf(h, b.nodes[alias]) !in todo
  }

  lemma SettledBounds(h: Hasher, frontier: seq<Binding>, alias: string, groups: map<PartitionId, seq<Binding>>)
    requires AllBound(frontier, alias) && IsGrouping(h, frontier, alias, groups)
    ensures Settled(h, frontier, alias, groups.Keys) == {} && Settled(h, frontier, alias, {}) == ToSet(frontier)
  {
  }

  lemma SettledMore(h: Hasher, frontier: seq<Binding>, alias: string, todo: set<PartitionId>, p: PartitionId)
    requires AllBound(frontier, alias) && p in todo
    ensures Settled(h, frontier, alias, todo - {p}) == Settled(h, frontier, alias, todo) + ToSet(OwnedBy(h, frontier, alias, p))
    ensures Settled(h, frontier, alias, todo) !! ToSet(OwnedBy(h, frontier, alias, p))
    ensures AllBound(OwnedBy(h, frontier, alias, p), alias)
    ensures forall b :: b in OwnedBy(h, frontier, alias, p) ==> PartitionOf(h, b.nodes[alias]) == p
  {
    OwnedByLaws(h, frontier, alias, p);
  }

  method GroupByOwningNodePartition(h: Hasher, frontier: seq<Binding>, alias: string)
    returns (r: Result<map<PartitionId, seq<Binding>>, ExecutionError>)
    ensures r.Ok? <==> AllBound(frontier, alias)
    ensures r.Err? ==> r.error == UnknownAlias(alias)
    ensures r.Ok? ==> IsGrouping(h, frontier, alias, r.value)
  {
    var groups: map<PartitionId, seq<Binding>> := map[];
    for i := 0 to |frontier|
      invariant AllBound(frontier[..i], alias)
      invariant IsGrouping(h, frontier[..i], alias, groups)
    {
      assert frontier[i] in frontier;
      if alias !in frontier[i].nodes { return Err(UnknownAlias(alias)); }
      var p := PartitionOf(h, frontier[i].nodes[alias]);
      TakeNext(frontier, i);
      GroupingStep(h, frontier[..i], frontier[i], alias, groups);
      groups := groups[p := (if p in groups then groups[p] else []) + [frontier[i]]];
    }
    assert frontier[..|frontier|] == frontier;
    r := Ok(groups);
  }

  lemma OwnedBySnoc(h: Hasher, frontier: seq<Binding>, b: Binding, alias: string, p: PartitionId)
    requires AllBound(frontier, alias) && alias in b.nodes
    ensures OwnedBy(h, frontier + [b], alias, p) ==
            OwnedBy(h, frontier, alias, p) + (if PartitionOf(h, b.nodes[alias]) == p then [b] else [])
  {
    assert (frontier + [b])[..|frontier|] == frontier;
  }

  lemma {:induction false} OwnedByNobody(h: Hasher, frontier: seq<Binding>, alias: string, p: PartitionId)
    requires AllBound(frontier, alias)
    requires forall b :: b in frontier ==> PartitionOf(h, b.nodes[alias]) != p
    ensures OwnedBy(h, frontier, alias, p) == []
  {
    if frontier != [] {
      OwnedByNobody(h, frontier[..|frontier| - 1], alias, p);
    }
  }

  lemma GroupingStep(
      h: Hasher, frontier: seq<Binding>, b: Binding, alias: string, groups: map<PartitionId, seq<Binding>>)
    requires AllBound(frontier, alias) && alias in b.nodes
    requires IsGrouping(h, frontier, alias, groups)
    ensures AllBound(frontier + [b], alias)
    ensures var p := PartitionOf(h, b.nodes[alias]);
            IsGrouping(h, frontier + [b], alias, groups[p := (if p in groups then groups[p] else []) + [b]])
  {
    var p := PartitionOf(h, b.nodes[alias]);
    var groups' := groups[p := (if p in groups then groups[p] else []) + [b]];
    forall q | q in groups' ensures groups'[q] == OwnedBy(h, frontier + [b], alias, q) {
      OwnedBySnoc(h, frontier, b, alias, q);
      if q !in groups { OwnedByNobody(h, frontier, alias, q); }
    }
    assert forall x :: x in frontier + [b] <==> x in frontier || x == b;
  }

  ghost function IdsOn(h: Hasher, ids: seq<NodeId>, p: PartitionId): set<NodeId> {
    set v | v in ids && PartitionOf(h, v) == p
  }

  lemma IdsOnNext(h: Hasher, ids: seq<NodeId>, v: NodeId, p: PartitionId)
    ensures IdsOn(h, ids + [v], p) == IdsOn(h, ids, p) + (if p == PartitionOf(h, v) then {v} else {})
  {
  }

  method GroupIdsByPartition(h: Hasher, ids: seq<NodeId>) returns (groups: map<PartitionId, seq<NodeId>>)
    ensures groups.Keys == set v | v in ids :: PartitionOf(h, v)
    ensures forall p :: p in groups ==> ToSet(groups[p]) == IdsOn(h, ids, p)
  {
    groups := map[];
    for i := 0 to |ids|
      invariant groups.Keys == set v | v in ids[..i] :: PartitionOf(h, v)
      invariant forall p :: p in groups ==> ToSet(groups[p]) == IdsOn(h, ids[..i], p)
    {
      var p := PartitionOf(h, ids[i]);
      TakeNext(ids, i);
      var old' := if p in groups then groups[p] else [];
      ToSetSnoc(old', ids[i]);
      assert p !in groups ==> IdsOn(h, ids[..i], p) == {};
      forall q ensures IdsOn(h, ids[..i + 1], q) == IdsOn(h, ids[..i], q) + (if q == p then {ids[i]} else {}) {
        IdsOnNext(h, ids[..i], ids[i], q);
      }
      groups := groups[p := old' + [ids[i]]];
    }
    assert ids[..|ids|] == ids;
  }

  // ---------------------------------------------------------------- hydration

  ghost predicate InTableOf(t: Tables, v: NodeId, labelName: string) {
    exists r :: r in t.nodes && r.id == v && r.labelName == labelName
  }

  ghost predicate InEdgeTableOf(t: Tables, id: EdgeId, edgeType: string) {
    exists e :: e in t.edges && e.id == id && e.edgeType == edgeType
  }

  /** The node's record as it arrives: its label, and its properties less lists and nulls. */
  ghost predicate ArrivedNode(w: World, v: NodeId, record: NodeRecord) {
    NodeProps(w, v).Some? && record.properties == Transported(NodeProps(w, v).value)
    && InTableOf(w.t, v, record.labelName)
  }

  /** The lookup holds the transported record of every listed node a live partition has. */
  ghost predicate HydratesNodes(w: World, ids: set<NodeId>, found: map<NodeId, NodeRecord>) {
    && (forall v :: v in found <==> v in ids && NodeProps(w, v).Some?)
    && (forall v :: v in found ==> ArrivedNode(w, v, found[v]))
  }

  ghost predicate IsNodeRecord(w: World, v: NodeId, record: NodeRecord) {
    NodeProps(w, v).Some? && record.properties == NodeProps(w, v).value && InTableOf(w.t, v, record.labelName)
  }

  lemma NodeRecordOf(records: map<NodeId, NodeRecord>, w: World, p: PartitionId, v: NodeId)
    requires UniqueIds(w.t) && p in w.route && NodeRecordsAreTable(records, w.t, w.h, w.route[p])
             && PartitionOf(w.h, v) == p
    ensures v in records <==> NodeProps(w, v).Some?
    ensures v in records ==> IsNodeRecord(w, v, records[v])
  {
    if v in OwnedIds(w.t, w.h, w.route[p]) {
      var r :| r in w.t.nodes && r.id == v;
      NodePropsUnique(w, r);
    }
  }

  lemma RecordsOf(records: map<NodeId, NodeRecord>, w: World, p: PartitionId, ids: seq<NodeId>)
    requires UniqueIds(w.t) && p in w.route && NodeRecordsAreTable(records, w.t, w.h, w.route[p])
    requires forall v :: v in ids ==> PartitionOf(w.h, v) == p
    ensures forall v :: v in ids ==> (v in records <==> NodeProps(w, v).Some?)
    ensures forall v :: v in ids && v in records ==> IsNodeRecord(w, v, records[v])
  {
    forall v | v in ids
      ensures v in records <==> NodeProps(w, v).Some?
      ensures v in records ==> IsNodeRecord(w, v, records[v])
    {
      NodeRecordOf(records, w, p, v);
    }
  }

  lemma NodeAnswer(g: IndexGeneration, w: World, p: PartitionId, ids: seq<NodeId>)
    requires UniqueIds(w.t) && p in w.route && Represents(g, w.t, w.h, w.route[p])
    requires forall v :: v in ids ==> PartitionOf(w.h, v) == p
    ensures HydratesNodes(w, ToSet(ids), RpcGetNodeProperties(g, ids))
  {
    RecordsOf(g.nodeRecords, w, p, ids);
    AnswerOfRecords(g, w, ids);
  }

  lemma AnswerOfRecords(g: IndexGeneration, w: World, ids: seq<NodeId>)
    requires forall v :: v in ids ==> (v in g.nodeRecords <==> NodeProps(w, v).Some?)
    requires forall v :: v in ids && v in g.nodeRecords ==> IsNodeRecord(w, v, g.nodeRecords[v])
    ensures HydratesNodes(w, ToSet(ids), RpcGetNodeProperties(g, ids))
  {
  }

  lemma HydrateMore(w: World, a: set<NodeId>, b: set<NodeId>, f: map<NodeId, NodeRecord>, g: map<NodeId, NodeRecord>)
    requires HydratesNodes(w, a, f) && HydratesNodes(w, b, g)
    ensures HydratesNodes(w, a + b, f + g)
  {
  }

  lemma NothingWithoutReplica(w: World, ids: seq<NodeId>, p: PartitionId)
    requires p !in w.route
    ensures HydratesNodes(w, IdsOn(w.h, ids, p), map[])
  {
  }

  /** The ids of partitions that have had their turn. */
  ghost function SettledIds(h: Hasher, ids: seq<NodeId>, todo: set<PartitionId>): set<NodeId> {
    set v | v in ids && PartitionOf(h, v) !in todo
  }

  lemma SettledIdsMore(h: Hasher, ids: seq<NodeId>, todo: set<PartitionId>, p: PartitionId)
    requires p in todo
    ensures SettledIds(h, ids, todo - {p}) == SettledIds(h, ids, todo) + IdsOn(h, ids, p)
  {
  }

  lemma SettledIdsBounds(h: Hasher, ids: seq<NodeId>, todo: set<PartitionId>)
    requires todo == set v | v in ids :: PartitionOf(h, v)
    ensures SettledIds(h, ids, todo) == {} && SettledIds(h, ids, {}) == ToSet(ids)
  {
  }

  /** Ids grouped and routed by owning partition; groups without a replica are skipped. */
  method GetNodeProperties(c: Cluster, ids: seq<NodeId>, ghost t: Tables) returns (properties: map<NodeId, NodeRecord>)
    requires Serves(c, t)
    ensures HydratesNodes(WorldOf(c, t), ToSet(ids), properties)
  {
    ghost var w := WorldOf(c, t);
    var groups := GroupIdsByPartition(c.hasher, ids);
    properties := map[];
    var todo := groups.Keys;
    SettledIdsBounds(c.hasher, ids, todo);
    while todo != {}
      invariant todo <= groups.Keys
      invariant HydratesNodes(w, SettledIds(c.hasher, ids, todo), properties)
      decreases todo
    {
      var p :| p in todo;
      SettledIdsMore(c.hasher, ids, todo, p);
      properties := AskForNodes(c, p, groups[p], properties, t, ids, SettledIds(c.hasher, ids, todo));
      todo := todo - {p};
    }
  }

  method AskForNodes(
      c: Cluster, p: PartitionId, group: seq<NodeId>, properties: map<NodeId, NodeRecord>, ghost t: Tables,
      ghost ids: seq<NodeId>, ghost settled: set<NodeId>)
    returns (r: map<NodeId, NodeRecord>)
    requires Serves(c, t) && ToSet(group) == IdsOn(c.hasher, ids, p)
    requires HydratesNodes(WorldOf(c, t), settled, properties)
    ensures HydratesNodes(WorldOf(c, t), settled + IdsOn(c.hasher, ids, p), r)
  {
    ghost var w := WorldOf(c, t);
    var g := Generation(c, p, t);
    if g.Some? {
      assert forall v :: v in group ==> v in ToSet(group);
      NodeAnswer(g.value, w, p, group);
      var found := RpcGetNodeProperties(g.value, group);
      HydrateMore(w, settled, ToSet(group), properties, found);
      r := properties + found;
    } else {
      NothingWithoutReplica(w, ids, p);
      HydrateMore(w, settled, ToSet(group), properties, map[]);
      assert properties + map[] == properties;
      r := properties;
    }
  }

  ghost predicate HydratesEdges(w: World, ids: set<EdgeId>, found: map<EdgeId, EdgeRecord>) {
    && (forall id :: id in found <==> id in ids && EdgeProps(w, id).Some?)
    && (forall id :: id in found ==> ArrivedEdge(w, id, found[id]))
  }

  ghost predicate ArrivedEdge(w: World, id: EdgeId, record: EdgeRecord) {
    EdgeProps(w, id).Some? && record.properties == Transported(EdgeProps(w, id).value)
    && InEdgeTableOf(w.t, id, record.edgeType)
  }

  /** The replica asked for `p` holds the record of the edge. */
  ghost predicate HoldsEdge(w: World, p: PartitionId, id: EdgeId)
    requires p in w.route
  {
    exists e :: e in w.t.edges && e.id == id && PartitionOf(w.h, e.src) == w.route[p]
  }

  lemma EdgeAnswer(g: IndexGeneration, w: World, p: PartitionId, ids: seq<EdgeId>)
    requires UniqueIds(w.t) && p in w.route && Represents(g, w.t, w.h, w.route[p])
    ensures forall id :: id in RpcGetEdgeProperties(g, ids) <==> id in ids && HoldsEdge(w, p, id)
    ensures forall id :: id in RpcGetEdgeProperties(g, ids) ==> ArrivedEdge(w, id, RpcGetEdgeProperties(g, ids)[id])
  {
    forall id | id in RpcGetEdgeProperties(g, ids) ensures ArrivedEdge(w, id, RpcGetEdgeProperties(g, ids)[id]) {
      var e :| e in w.t.edges && e.id == id && PartitionOf(w.h, e.src) == w.route[p];
      EdgePropsUnique(w, e);
    }
  }

  /** Everything found so far is right, and what is still missing can only be found at a
      partition that has not been asked. */
  ghost predicate Sought(
      w: World, ids: set<EdgeId>, found: map<EdgeId, EdgeRecord>, remaining: set<EdgeId>, todo: set<PartitionId>)
  {
    && found.Keys !! remaining && found.Keys + remaining == ids
    && (forall id :: id in found ==> ArrivedEdge(w, id, found[id]))
    && (forall id, p :: id in remaining && p in w.route && HoldsEdge(w, p, id) ==> p in todo)
  }

  lemma SoughtAt(
      w: World, ids: set<EdgeId>, found: map<EdgeId, EdgeRecord>, remaining: set<EdgeId>, todo: set<PartitionId>,
      p: PartitionId, more: map<EdgeId, EdgeRecord>)
    requires Sought(w, ids, found, remaining, todo) && p in w.route
    requires forall id :: id in more <==> id in remaining && HoldsEdge(w, p, id)
    requires forall id :: id in more ==> ArrivedEdge(w, id, more[id])
    ensures Sought(w, ids, found + more, remaining - more.Keys, todo - {p})
  {
    assert (found + more).Keys == found.Keys + more.Keys;
    assert more.Keys <= remaining;
  }

  lemma SoughtNowhere(
      w: World, ids: set<EdgeId>, found: map<EdgeId, EdgeRecord>, remaining: set<EdgeId>, todo: set<PartitionId>)
    requires Sought(w, ids, found, remaining, todo) && todo !! w.route.Keys
    ensures HydratesEdges(w, ids, found)
  {
    forall id | id in remaining ensures EdgeProps(w, id).None? {
      if e :| e in w.t.edges && e.id == id && Shown(w, e.src) {
        var p :| p in w.route && w.route[p] == PartitionOf(w.h, e.src);
        assert HoldsEdge(w, p, id);
      }
    }
  }

  /** Asks every partition in turn for what is still missing and stops early; the answer
      is the same in any partition order. */
  method GetEdgeProperties(c: Cluster, ids: seq<EdgeId>, ghost t: Tables) returns (properties: map<EdgeId, EdgeRecord>)
    requires Serves(c, t)
    ensures HydratesEdges(WorldOf(c, t), ToSet(ids), properties)
  {
    ghost var w := WorldOf(c, t);
    properties := map[];
    var remaining := set id | id in ids;
    var todo := c.replicasByPartition.Keys;
    while todo != {} && remaining != {}
      invariant todo <= c.replicasByPartition.Keys
      invariant Sought(w, ToSet(ids), properties, remaining, todo)
      decreases todo
    {
      var p :| p in todo;
      var g := Generation(c, p, t);
      if g.Some? {
        var batch := Drain(remaining);
        var found := RpcGetEdgeProperties(g.value, batch);
        EdgeAnswer(g.value, w, p, batch);
        assert forall id :: id in batch <==> id in ToSet(batch);
        SoughtAt(w, ToSet(ids), properties, remaining, todo, p, found);
        properties := properties + found;
        remaining := remaining - found.Keys;
      }
      todo := todo - {p};
    }
    if todo == {} { SoughtNowhere(w, ToSet(ids), properties, remaining, todo); }
  }
}
