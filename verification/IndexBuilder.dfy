/** The CSR adjacency index, and the construction of one partition's generation. */
module IndexBuilder {
  import opened Basics
  import opened GraphModel
  import opened Plan
  import opened PropertyIndexes

  datatype AdjacencyEntry = AdjacencyEntry(
    edgeId: EdgeId,
    edgeType: string,
    dstLocal: Option<NodeId>,
    dstRemote: Option<RemoteRef>)

  datatype TopologicalIndex = TopologicalIndex(
    nodeIds: seq<NodeId>,
    idToLocal: map<NodeId, nat>,
    outOffsets: seq<nat>,
    outEntries: seq<AdjacencyEntry>,
    inOffsets: seq<nat>,
    inEntries: seq<AdjacencyEntry>)

  datatype NodeRecord = NodeRecord(labelName: string, properties: Properties)

  datatype EdgeRecord = EdgeRecord(edgeType: string, properties: Properties)

  datatype IndexGeneration = IndexGeneration(
    topology: TopologicalIndex,
    properties: PropertyIndex,
    nodeRecords: map<NodeId, NodeRecord>,
    edgeRecords: map<EdgeId, EdgeRecord>)

  const U32_MODULUS: nat := 0x1_0000_0000

  /** The `as u32` casts of the source keep the low 32 bits. */
  function AsU32(x: nat): (r: nat)
    ensures r <= x && (x < U32_MODULUS ==> r == x)
  {
    x % U32_MODULUS
  }

  ghost predicate FitsU32(t: Tables) {
    |t.nodes| < U32_MODULUS && |t.edges| < U32_MODULUS
  }

  // ---------------------------------------------------------------- reading the index

  ghost predicate ValidCsr(idToLocal: map<NodeId, nat>, offsets: seq<nat>, entries: seq<AdjacencyEntry>) {
    forall v :: v in idToLocal ==>
      idToLocal[v] + 1 < |offsets| && offsets[idToLocal[v]] <= offsets[idToLocal[v] + 1] <= |entries|
  }

  ghost predicate ValidTopology(topology: TopologicalIndex) {
    && ValidCsr(topology.idToLocal, topology.outOffsets, topology.outEntries)
    && ValidCsr(topology.idToLocal, topology.inOffsets, topology.inEntries)
  }

  function Row(
      idToLocal: map<NodeId, nat>, offsets: seq<nat>, entries: seq<AdjacencyEntry>, v: NodeId): seq<AdjacencyEntry>
    requires ValidCsr(idToLocal, offsets, entries)
  {
    if v in idToLocal then entries[offsets[idToLocal[v]]..offsets[idToLocal[v] + 1]] else []
  }

  function Neighbors(topology: TopologicalIndex, v: NodeId, dir: Direction): seq<AdjacencyEntry>
    requires ValidTopology(topology)
  {
    if dir.Outgoing? then Row(topology.idToLocal, topology.outOffsets, topology.outEntries, v)
    else Row(topology.idToLocal, topology.inOffsets, topology.inEntries, v)
  }

  // ---------------------------------------------------------------- what it stands for

  ghost function OwnedIds(t: Tables, h: Hasher, p: PartitionId): set<NodeId> {
    set r | r in t.nodes && PartitionOf(h, r.id) == p :: r.id
  }

  /** Local if this partition holds the node; remote if it hashes elsewhere; neither
      if it hashes here and is missing. */
  function MakeEntry(e: EdgeRow, owned: set<NodeId>, p: PartitionId, h: Hasher, dir: Direction): AdjacencyEntry {
    var far := Far(e, dir);
    var dstLocal := if far in owned then Some(far) else None;
    var home := PartitionOf(h, far);
    AdjacencyEntry(e.id, e.edgeType, dstLocal, if dstLocal.None? && home != p then Some(RemoteRef(home, far)) else None)
  }

  /** The edges at `v`, in scan order, as partition `p` sees them. */
  ghost function AdjacencyOf(
      edges: seq<EdgeRow>, owned: set<NodeId>, p: PartitionId, h: Hasher, v: NodeId,
      dir: Direction): seq<AdjacencyEntry> {
    if edges == [] then []
    else
      var last := edges[|edges| - 1];
      AdjacencyOf(edges[..|edges| - 1], owned, p, h, v, dir)
      + (if Near(last, dir) == v then [MakeEntry(last, owned, p, h, dir)] else [])
  }

  /** One direction of the CSR: offsets rise from 0 to the number of entries, and each
      row is the scan of the edges at its node. */
  ghost predicate CsrIsScan(
    idToLocal: map<NodeId, nat>, offsets: seq<nat>, entries: seq<AdjacencyEntry>,
    edges: seq<EdgeRow>, p: PartitionId, h: Hasher, dir: Direction)
  {
    && |offsets| > 0 && offsets[0] == 0 && offsets[|offsets| - 1] == |entries|
    && (forall i, j :: 0 <= i <= j < |offsets| ==> offsets[i] <= offsets[j])
    && ValidCsr(idToLocal, offsets, entries)
    && forall v :: v in idToLocal ==>
         Row(idToLocal, offsets, entries, v) == AdjacencyOf(edges, idToLocal.Keys, p, h, v, dir)
  }

  ghost predicate TopologyIsScan(topology: TopologicalIndex, t: Tables, h: Hasher, p: PartitionId) {
    && topology.idToLocal.Keys == OwnedIds(t, h, p)
    && CsrIsScan(topology.idToLocal, topology.outOffsets, topology.outEntries, t.edges, p, h, Outgoing)
    && CsrIsScan(topology.idToLocal, topology.inOffsets, topology.inEntries, t.edges, p, h, Incoming)
  }

  ghost predicate NodeRecordsAreTable(records: map<NodeId, NodeRecord>, t: Tables, h: Hasher, p: PartitionId) {
    && records.Keys == OwnedIds(t, h, p)
    && forall r :: r in t.nodes && PartitionOf(h, r.id) == p ==> records[r.id] == NodeRecord(r.labelName, r.properties)
  }

  ghost predicate EdgeRecordsAreTable(records: map<EdgeId, EdgeRecord>, t: Tables, h: Hasher, p: PartitionId) {
    && (forall id :: id in records ==> exists e :: e in t.edges && e.id == id && PartitionOf(h, e.src) == p)
    && forall e :: e in t.edges && PartitionOf(h, e.src) == p ==>
         e.id in records && records[e.id] == EdgeRecord(e.edgeType, e.properties)
  }

  function OwnedRows(rows: seq<NodeRow>, h: Hasher, p: PartitionId): seq<NodeRow> {
    if rows == [] then []
    else
      var last := rows[|rows| - 1];
      OwnedRows(rows[..|rows| - 1], h, p) + (if PartitionOf(h, last.id) == p then [last] else [])
  }

  /** The generation is the partition's exact share of the tables. */
  ghost predicate Represents(g: IndexGeneration, t: Tables, h: Hasher, p: PartitionId) {
    && TopologyIsScan(g.topology, t, h, p)
    && IndexIsScan(g.properties, t.schema, OwnedRows(t.nodes, h, p))
    && NodeRecordsAreTable(g.nodeRecords, t, h, p)
    && EdgeRecordsAreTable(g.edgeRecords, t, h, p)
  }

  // ---------------------------------------------------------------- building it

  function LocalIndex(ids: seq<NodeId>): map<NodeId, nat> {
    if ids == [] then map[]
    else LocalIndex(ids[..|ids| - 1])[ids[|ids| - 1] := AsU32(|ids| - 1)]
  }

  lemma {:induction false} LocalIndexLaws(ids: seq<NodeId>)
    ensures LocalIndex(ids).Keys == ToSet(ids)
    ensures forall v :: v in LocalIndex(ids) ==> LocalIndex(ids)[v] < |ids|
    ensures |ids| <= U32_MODULUS ==> forall v :: v in LocalIndex(ids) ==> ids[LocalIndex(ids)[v]] == v
  {
    if ids != [] {
      var front := ids[..|ids| - 1];
      LocalIndexLaws(front);
      assert ids == front + [ids[|ids| - 1]];
      ToSetSnoc(front, ids[|ids| - 1]);
    }
  }

  function Flatten(buckets: seq<seq<AdjacencyEntry>>): seq<AdjacencyEntry> {
    if buckets == [] then [] else Flatten(buckets[..|buckets| - 1]) + buckets[|buckets| - 1]
  }

  lemma {:induction false} FlattenAt(buckets: seq<seq<AdjacencyEntry>>, i: nat, j: nat)
    requires i <= j <= |buckets|
    ensures |Flatten(buckets[..i])| <= |Flatten(buckets[..j])|
    ensures Flatten(buckets[..i]) == Flatten(buckets[..j])[..|Flatten(buckets[..i])|]
    decreases j
  {
    if i < j {
      assert buckets[..j][..j - 1] == buckets[..j - 1];
      FlattenAt(buckets, i, j - 1);
    }
  }

  /** The slice between two consecutive offsets is the bucket that was appended there. */
  lemma FlattenSlice(buckets: seq<seq<AdjacencyEntry>>, i: nat)
    requires i < |buckets|
    ensures |Flatten(buckets[..i])| <= |Flatten(buckets[..i + 1])| <= |Flatten(buckets)|
    ensures Flatten(buckets)[|Flatten(buckets[..i])|..|Flatten(buckets[..i + 1])|] == buckets[i]
  {
    assert buckets[..|buckets|] == buckets;
    FlattenAt(buckets, i, i + 1);
    FlattenAt(buckets, i + 1, |buckets|);
    assert buckets[..i + 1][..i] == buckets[..i];
    var upTo := Flatten(buckets[..i + 1]);
    assert upTo == Flatten(buckets[..i]) + buckets[i];
    assert Flatten(buckets)[..|upTo|] == upTo;
  }

  lemma {:induction false} FlattenPush(buckets: seq<seq<AdjacencyEntry>>, i: nat, x: AdjacencyEntry)
    requires i < |buckets|
    ensures |Flatten(buckets[i := buckets[i] + [x]])| == |Flatten(buckets)| + 1
  {
    var pushed := buckets[i := buckets[i] + [x]];
    if i == |buckets| - 1 {
      assert pushed[..i] == buckets[..i];
    } else {
      var n := |buckets| - 1;
      FlattenPush(buckets[..n], i, x);
      assert pushed[..n] == buckets[..n][i := buckets[..n][i] + [x]];
    }
  }

  lemma {:induction false} FlattenEmpty(buckets: seq<seq<AdjacencyEntry>>)
    requires forall i :: 0 <= i < |buckets| ==> buckets[i] == []
    ensures Flatten(buckets) == []
  {
    if buckets != [] { FlattenEmpty(buckets[..|buckets| - 1]); }
  }

  ghost predicate IndexesOwn(idToLocal: map<NodeId, nat>, ids: seq<NodeId>) {
    forall v :: v in idToLocal ==> idToLocal[v] < |ids| && ids[idToLocal[v]] == v
  }

  /** Buckets hold the scan of the edges at each local node. */
  ghost predicate BucketsAreScan(
    buckets: seq<seq<AdjacencyEntry>>, idToLocal: map<NodeId, nat>, edges: seq<EdgeRow>, p: PartitionId, h: Hasher, dir: Direction)
  {
    forall v :: v in idToLocal ==>
      idToLocal[v] < |buckets| && buckets[idToLocal[v]] == AdjacencyOf(edges, idToLocal.Keys, p, h, v, dir)
  }

  lemma BucketPush(
    buckets: seq<seq<AdjacencyEntry>>, idToLocal: map<NodeId, nat>, nodeIds: seq<NodeId>, edges: seq<EdgeRow>, row: EdgeRow,
    p: PartitionId, h: Hasher, dir: Direction)
    requires |nodeIds| == |buckets| && IndexesOwn(idToLocal, nodeIds)
    requires BucketsAreScan(buckets, idToLocal, edges, p, h, dir)
    ensures Near(row, dir) !in idToLocal ==> BucketsAreScan(buckets, idToLocal, edges + [row], p, h, dir)
    ensures Near(row, dir) in idToLocal ==>
              var i := idToLocal[Near(row, dir)];
              BucketsAreScan(buckets[i := buckets[i] + [MakeEntry(row, idToLocal.Keys, p, h, dir)]], idToLocal, edges + [row], p, h, dir)
  {
    assert (edges + [row])[..|edges|] == edges;
  }

  method FillBuckets(
      p: PartitionId, nodeIds: seq<NodeId>, idToLocal: map<NodeId, nat>, edges: seq<EdgeRow>, dir: Direction, h: Hasher)
    returns (buckets: array<seq<AdjacencyEntry>>)
    requires forall v :: v in idToLocal ==> idToLocal[v] < |nodeIds|
    ensures fresh(buckets) && buckets.Length == |nodeIds|
    ensures |Flatten(buckets[..])| <= |edges|
    ensures IndexesOwn(idToLocal, nodeIds) ==> BucketsAreScan(buckets[..], idToLocal, edges, p, h, dir)
  {
    buckets := new seq<AdjacencyEntry>[|nodeIds|](_ => []);
    FlattenEmpty(buckets[..]);
    for k := 0 to |edges|
      invariant |Flatten(buckets[..])| <= k
      invariant IndexesOwn(idToLocal, nodeIds) ==> BucketsAreScan(buckets[..], idToLocal, edges[..k], p, h, dir)
    {
      ghost var before := buckets[..];
      TakeNext(edges, k);
      if IndexesOwn(idToLocal, nodeIds) {
        BucketPush(before, idToLocal, nodeIds, edges[..k], edges[k], p, h, dir);
      }
      var owner := Near(edges[k], dir);
      if owner in idToLocal {
        var i := idToLocal[owner];
        var entry := MakeEntry(edges[k], idToLocal.Keys, p, h, dir);
        FlattenPush(before, i, entry);
        buckets[i] := buckets[i] + [entry];
        assert buckets[..] == before[i := before[i] + [entry]];
      }
    }
    assert edges[..|edges|] == edges;
  }

  method LayEndToEnd(buckets: array<seq<AdjacencyEntry>>) returns (offsets: seq<nat>, entries: seq<AdjacencyEntry>)
    ensures entries == Flatten(buckets[..])
    ensures |offsets| == buckets.Length + 1
    ensures forall j :: 0 <= j < |offsets| ==> offsets[j] == AsU32(|Flatten(buckets[..j])|)
  {
    offsets, entries := [0], [];
    for i := 0 to buckets.Length
      invariant |offsets| == i + 1
      invariant entries == Flatten(buckets[..i])
      invariant forall j :: 0 <= j <= i ==> offsets[j] == AsU32(|Flatten(buckets[..j])|)
    {
      assert buckets[..i + 1][..i] == buckets[..i];
      entries := entries + buckets[i];
      offsets := offsets + [AsU32(|entries|)];
    }
    assert buckets[..buckets.Length] == buckets[..];
  }

  /** Buckets one entry list per local node, then lays the lists end to end. */
  method BuildCsr(
      p: PartitionId, nodeIds: seq<NodeId>, idToLocal: map<NodeId, nat>, edges: seq<EdgeRow>, dir: Direction, h: Hasher)
    returns (offsets: seq<nat>, entries: seq<AdjacencyEntry>)
    requires forall v :: v in idToLocal ==> idToLocal[v] < |nodeIds|
    ensures |edges| < U32_MODULUS && IndexesOwn(idToLocal, nodeIds) ==>
      CsrIsScan(idToLocal, offsets, entries, edges, p, h, dir)
  {
    var buckets := FillBuckets(p, nodeIds, idToLocal, edges, dir, h);
    offsets, entries := LayEndToEnd(buckets);
    ghost var lists := buckets[..];
    assert forall j :: 0 <= j <= |lists| ==> lists[..j] == buckets[..j];
    if |edges| < U32_MODULUS && IndexesOwn(idToLocal, nodeIds) {
      CsrOfBuckets(lists, offsets, entries, idToLocal, nodeIds, edges, p, h, dir);
    }
  }

  lemma CsrOfBuckets(
      lists: seq<seq<AdjacencyEntry>>, offsets: seq<nat>, entries: seq<AdjacencyEntry>, idToLocal: map<NodeId, nat>,
      nodeIds: seq<NodeId>, edges: seq<EdgeRow>, p: PartitionId, h: Hasher, dir: Direction)
    requires entries == Flatten(lists) && |entries| <= |edges| < U32_MODULUS
    requires |offsets| == |lists| + 1 && |lists| == |nodeIds|
    requires forall j :: 0 <= j < |offsets| ==> offsets[j] == AsU32(|Flatten(lists[..j])|)
    requires IndexesOwn(idToLocal, nodeIds) && BucketsAreScan(lists, idToLocal, edges, p, h, dir)
    ensures CsrIsScan(idToLocal, offsets, entries, edges, p, h, dir)
  {
    OffsetsSlice(lists, offsets, entries);
  }

  lemma OffsetsSlice(lists: seq<seq<AdjacencyEntry>>, offsets: seq<nat>, entries: seq<AdjacencyEntry>)
    requires entries == Flatten(lists) && |entries| < U32_MODULUS
    requires |offsets| == |lists| + 1
    requires forall j :: 0 <= j < |offsets| ==> offsets[j] == AsU32(|Flatten(lists[..j])|)
    ensures offsets[0] == 0 && offsets[|lists|] == |entries|
    ensures forall i, j :: 0 <= i <= j < |offsets| ==> offsets[i] <= offsets[j]
    ensures forall i {:trigger lists[i]} :: 0 <= i < |lists| ==>
              offsets[i] <= offsets[i + 1] <= |entries| && entries[offsets[i]..offsets[i + 1]] == lists[i]
  {
    assert lists[..|lists|] == lists;
    forall j | 0 <= j < |offsets| ensures offsets[j] == |Flatten(lists[..j])| {
      FlattenAt(lists, j, |lists|);
    }
    forall i, j | 0 <= i <= j < |offsets| ensures offsets[i] <= offsets[j] {
      FlattenAt(lists, i, j);
    }
    forall i {:trigger lists[i]} | 0 <= i < |lists|
      ensures offsets[i] <= offsets[i + 1] <= |entries| && entries[offsets[i]..offsets[i + 1]] == lists[i]
    {
      FlattenSlice(lists, i);
    }
  }

  method BuildTopology(t: Tables, nodes: seq<NodeRow>, p: PartitionId, h: Hasher) returns (topology: TopologicalIndex)
    requires nodes == OwnedRows(t.nodes, h, p)
    ensures FitsU32(t) ==> TopologyIsScan(topology, t, h, p)
  {
    var nodeIds := seq(|nodes|, i requires 0 <= i < |nodes| => nodes[i].id);
    var idToLocal := LocalIndex(nodeIds);
    LocalIndexLaws(nodeIds);
    OwnedRowsLaws(t.nodes, h, p);
    IdsOfRows(nodes, nodeIds, t, h, p);
    var outOffsets, outEntries := BuildCsr(p, nodeIds, idToLocal, t.edges, Outgoing, h);
    var inOffsets, inEntries := BuildCsr(p, nodeIds, idToLocal, t.edges, Incoming, h);
    topology := TopologicalIndex(nodeIds, idToLocal, outOffsets, outEntries, inOffsets, inEntries);
  }

  lemma IdsOfRows(nodes: seq<NodeRow>, ids: seq<NodeId>, t: Tables, h: Hasher, p: PartitionId)
    requires nodes == OwnedRows(t.nodes, h, p)
    requires |ids| == |nodes| && forall i :: 0 <= i < |ids| ==> ids[i] == nodes[i].id
    ensures ToSet(ids) == OwnedIds(t, h, p)
  {
    OwnedRowsLaws(t.nodes, h, p);
    forall v ensures v in ToSet(ids) <==> v in OwnedIds(t, h, p) {
      if v in ids {
        var i :| 0 <= i < |ids| && ids[i] == v;
        assert nodes[i] in nodes;
      }
      if v in OwnedIds(t, h, p) {
        var r :| r in t.nodes && r.id == v && PartitionOf(h, v) == p;
        var i :| 0 <= i < |nodes| && nodes[i] == r;
        assert ids[i] == v;
      }
    }
  }

  /** Scans everything, keeps what this partition owns. */
  method Build(t: Tables, p: PartitionId, h: Hasher) returns (g: IndexGeneration)
    ensures FitsU32(t) && UniqueIds(t) ==> Represents(g, t, h, p)
  {
    var nodes: seq<NodeRow> := [];
    for k := 0 to |t.nodes|
      invariant nodes == OwnedRows(t.nodes[..k], h, p)
    {
      assert t.nodes[..k + 1][..k] == t.nodes[..k];
      if PartitionOf(h, t.nodes[k].id) == p {
        nodes := nodes + [t.nodes[k]];
      }
    }
    assert t.nodes[..|t.nodes|] == t.nodes;
    var topology := BuildTopology(t, nodes, p, h);
    var properties := BuildPropertyIndex(t.schema, nodes);
    var nodeRecords := BuildNodeRecords(t, nodes, h, p);
    var edgeRecords := BuildEdgeRecords(t, h, p);
    g := IndexGeneration(topology, properties, nodeRecords, edgeRecords);
  }

  lemma {:induction false} OwnedRowsLaws(rows: seq<NodeRow>, h: Hasher, p: PartitionId)
    ensures |OwnedRows(rows, h, p)| <= |rows|
    ensures forall r :: r in OwnedRows(rows, h, p) <==> r in rows && PartitionOf(h, r.id) == p
    ensures RowIdsUnique(rows) ==> RowIdsUnique(OwnedRows(rows, h, p))
  {
    if rows != [] {
      var front, last := rows[..|rows| - 1], rows[|rows| - 1];
      OwnedRowsLaws(front, h, p);
      FrontAndLast(rows);
      if RowIdsUnique(rows) {
        assert RowIdsUnique(front);
        forall r | r in front ensures r.id != last.id {
          var i :| 0 <= i < |front| && front[i] == r;
          assert rows[i] == r;
        }
      }
    }
  }

  method BuildNodeRecords(t: Tables, nodes: seq<NodeRow>, h: Hasher, p: PartitionId)
    returns (records: map<NodeId, NodeRecord>)
    requires nodes == OwnedRows(t.nodes, h, p)
    ensures UniqueIds(t) ==> NodeRecordsAreTable(records, t, h, p)
  {
    OwnedRowsLaws(t.nodes, h, p);
    records := map[];
    for i := 0 to |nodes|
      invariant records.Keys == set r | r in nodes[..i] :: r.id
      invariant RowIdsUnique(nodes) ==>
        forall r :: r in nodes[..i] ==> records[r.id] == NodeRecord(r.labelName, r.properties)
    {
      TakeNext(nodes, i);
      records := records[nodes[i].id := NodeRecord(nodes[i].labelName, nodes[i].properties)];
    }
    assert nodes[..|nodes|] == nodes;
  }

  /** An edge's record lives with the partition of its source. */
  method BuildEdgeRecords(t: Tables, h: Hasher, p: PartitionId) returns (records: map<EdgeId, EdgeRecord>)
    ensures UniqueIds(t) ==> EdgeRecordsAreTable(records, t, h, p)
  {
    records := map[];
    for i := 0 to |t.edges|
      invariant forall id :: id in records ==> exists e :: e in t.edges[..i] && e.id == id && PartitionOf(h, e.src) == p
      invariant UniqueIds(t) ==> forall e :: e in t.edges[..i] && PartitionOf(h, e.src) == p ==>
        e.id in records && records[e.id] == EdgeRecord(e.edgeType, e.properties)
    {
      var row := t.edges[i];
      assert t.edges[..i + 1] == t.edges[..i] + [row];
      if PartitionOf(h, row.src) == p {
        records := records[row.id := EdgeRecord(row.edgeType, row.properties)];
      }
    }
    assert t.edges[..|t.edges|] == t.edges;
  }
}
