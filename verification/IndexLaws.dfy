/** Conservation across partitions, and agreement of the two WHERE paths and walks. */
module IndexLaws {
  import opened Basics
  import opened GraphModel
  import opened FilterEval
  import opened PropertyIndexes
  import opened Plan
  import opened IndexBuilder
  import opened LocalExecutor
  import opened Denotation
  import opened ClusterAccess
  import opened AntiJoinExecution
  import opened GlobalAnswer

  // ---------------------------------------------------------------- conservation

  ghost function CountId(entries: seq<AdjacencyEntry>, id: EdgeId): nat {
    if entries == [] then 0
    else CountId(entries[..|entries| - 1], id) + (if entries[|entries| - 1].edgeId == id then 1 else 0)
  }

  /** The count over the adjacency grows by one for each edge with that id at `v`. */
  lemma CountLast(
      edges: seq<EdgeRow>, owned: set<NodeId>, p: PartitionId, h: Hasher, v: NodeId, dir: Direction, id: EdgeId)
    requires edges != []
    ensures var n := |edges| - 1;
            CountId(AdjacencyOf(edges, owned, p, h, v, dir), id) ==
            CountId(AdjacencyOf(edges[..n], owned, p, h, v, dir), id) + (if Near(edges[n], dir) == v && edges[n].id == id then 1 else 0)
  {
    var n := |edges| - 1;
    var before := AdjacencyOf(edges[..n], owned, p, h, v, dir);
    if Near(edges[n], dir) == v {
      var all := before + [MakeEntry(edges[n], owned, p, h, dir)];
      assert all[..|all| - 1] == before;
    } else {
      assert AdjacencyOf(edges, owned, p, h, v, dir) == before;
    }
  }

  lemma {:induction false} NoSuchId(
      edges: seq<EdgeRow>, owned: set<NodeId>, p: PartitionId, h: Hasher, v: NodeId, dir: Direction, id: EdgeId)
    requires forall i :: 0 <= i < |edges| ==> edges[i].id != id
    ensures CountId(AdjacencyOf(edges, owned, p, h, v, dir), id) == 0
  {
    if edges != [] {
      NoSuchId(edges[..|edges| - 1], owned, p, h, v, dir, id);
      CountLast(edges, owned, p, h, v, dir, id);
    }
  }

  ghost predicate EdgeIdsUnique(edges: seq<EdgeRow>) {
    forall i, j :: 0 <= i < j < |edges| ==> edges[i].id != edges[j].id
  }

  lemma {:induction false} ListedAtNearEnd(
      edges: seq<EdgeRow>, owned: set<NodeId>, p: PartitionId, h: Hasher, v: NodeId, dir: Direction, k: nat)
    requires EdgeIdsUnique(edges) && k < |edges|
    ensures CountId(AdjacencyOf(edges, owned, p, h, v, dir), edges[k].id) == if Near(edges[k], dir) == v then 1 else 0
  {
    var n := |edges| - 1;
    CountLast(edges, owned, p, h, v, dir, edges[k].id);
    if k == n {
      NoSuchId(edges[..n], owned, p, h, v, dir, edges[k].id);
    } else {
      ListedAtNearEnd(edges[..n], owned, p, h, v, dir, k);
    }
  }

  /** Over all partitions and nodes an edge is listed once in each direction, at the
      partition that owns its near endpoint, and recorded once, at that of its source. */
  lemma EdgeOccursOnce(g: IndexGeneration, t: Tables, h: Hasher, p: PartitionId, v: NodeId, dir: Direction, e: EdgeRow)
    requires UniqueIds(t) && Represents(g, t, h, p) && e in t.edges
    ensures ValidTopology(g.topology)
    ensures CountId(Neighbors(g.topology, v, dir), e.id) ==
            if v == Near(e, dir) && v in NodeIds(t) && PartitionOf(h, v) == p then 1 else 0
    ensures e.id in g.edgeRecords <==> PartitionOf(h, e.src) == p
  {
    if v in OwnedIds(t, h, p) {
      var k :| 0 <= k < |t.edges| && t.edges[k] == e;
      ListedAtNearEnd(t.edges, OwnedIds(t, h, p), p, h, v, dir, k);
    }
    RecordIsOwn(g, World(t, h, map[], s => None), p, e);
  }

  /** Each partition's index holds exactly its own part of the global scan: the parts
      are disjoint and together they are all of it. */
  lemma PartitionShareOfScan(
      schema: Schema, rows: seq<NodeRow>, h: Hasher, p: PartitionId, l: string, property: string, k: PropertyKey,
      x: NodeId)
    ensures x in ScanEq(schema, OwnedRows(rows, h, p), l, property, k) <==>
              x in ScanEq(schema, rows, l, property, k) && PartitionOf(h, x) == p
  {
    ScanEqMembers(schema, OwnedRows(rows, h, p), l, property, k, x);
    ScanEqMembers(schema, rows, l, property, k, x);
    OwnedRowsLaws(rows, h, p);
  }

  lemma PartitionShareOfRange(
      share: PropertyIndex, whole: PropertyIndex, schema: Schema, rows: seq<NodeRow>, h: Hasher, p: PartitionId,
      l: string, property: string, lo: Bound, hi: Bound, x: NodeId)
    requires IndexIsScan(share, schema, OwnedRows(rows, h, p)) && IndexIsScan(whole, schema, rows)
    ensures x in LookupRange(share, l, property, lo, hi) <==>
              x in LookupRange(whole, l, property, lo, hi) && PartitionOf(h, x) == p
  {
    RangeLookupIsScan(share, schema, OwnedRows(rows, h, p), l, property, lo, hi);
    RangeLookupIsScan(whole, schema, rows, l, property, lo, hi);
    OwnedRowsLaws(rows, h, p);
  }

  // ---------------------------------------------------------------- the two WHERE paths

  ghost predicate IsIndexed(schema: Schema, labelName: string, property: string) {
    exists d :: d in DefsOf(schema, labelName) && d.indexed && d.name == property
  }

  lemma CarriesOwnKey(schema: Schema, row: NodeRow, property: string, k: PropertyKey)
    requires IsIndexed(schema, row.labelName, property)
    ensures Carries(schema, row, row.labelName, property, k) <==>
              property in row.properties && KeyOfValue(row.properties[property]) == Some(k)
  {
    if property in row.properties && KeyOfValue(row.properties[property]) == Some(k) {
      var d :| d in DefsOf(schema, row.labelName) && d.indexed && d.name == property;
      assert Contributes(d, row, property, k);
    }
  }

  lemma InRange(
      index: PropertyIndex, schema: Schema, rows: seq<NodeRow>, row: NodeRow, property: string, lo: Bound, hi: Bound)
    requires IndexIsScan(index, schema, rows) && RowIdsUnique(rows) && row in rows
             && IsIndexed(schema, row.labelName, property)
    ensures row.id in LookupRange(index, row.labelName, property, lo, hi) <==>
              && property in row.properties && KeyOfValue(row.properties[property]).Some?
              && AboveLow(lo, KeyOfValue(row.properties[property]).value)
                 && BelowHigh(hi, KeyOfValue(row.properties[property]).value)
  {
    RangeLookupIsScan(index, schema, rows, row.labelName, property, lo, hi);
    if row.id in LookupRange(index, row.labelName, property, lo, hi) {
      var r, k :| r in rows && r.id == row.id && Carries(schema, r, row.labelName, property, k) && AboveLow(lo, k)
                  && BelowHigh(hi, k);
      OnlyRow(rows, row, r);
      CarriesOwnKey(schema, row, property, k);
    }
    if property in row.properties && KeyOfValue(row.properties[property]).Some? {
      CarriesOwnKey(schema, row, property, KeyOfValue(row.properties[property]).value);
    }
  }

  lemma InBucket(
      index: PropertyIndex, schema: Schema, rows: seq<NodeRow>, row: NodeRow, property: string, key: PropertyKey)
    requires IndexIsScan(index, schema, rows) && RowIdsUnique(rows) && row in rows
             && IsIndexed(schema, row.labelName, property)
    ensures row.id in LookupEq(index, row.labelName, property, key) <==>
              property in row.properties && KeyOfValue(row.properties[property]) == Some(key)
  {
    ScanEqMembers(schema, rows, row.labelName, property, key, row.id);
    CarriesOwnKey(schema, row, property, key);
    if row.id in LookupEq(index, row.labelName, property, key) {
      var r :| r in rows && r.id == row.id && Carries(schema, r, row.labelName, property, key);
      OnlyRow(rows, row, r);
    }
  }

  function LowBound(op: ComparisonOp, key: PropertyKey): Bound {
    if op == Gt then Excluded(key) else if op == Gte then Included(key) else Unbounded
  }

  function HighBound(op: ComparisonOp, key: PropertyKey): Bound {
    if op == Lt then Excluded(key) else if op == Lte then Included(key) else Unbounded
  }

  lemma BoundsSayOp(op: ComparisonOp, key: PropertyKey, k: PropertyKey)
    requires op != Ne
    ensures op == Eq ==> (k == key <==> OpHolds(op, CompareKey(k, key)))
    ensures op != Eq ==>
      (AboveLow(LowBound(op, key), k) && BelowHigh(HighBound(op, key), k) <==> OpHolds(op, CompareKey(k, key)))
  {
    CompareKeyLaws(k, key);
  }

  /** What the index says of a stored value: its key compared with the literal's. */
  predicate KeyMatches(value: PropertyValue, op: ComparisonOp, literal: Literal)
    requires LiteralToPropertyKey(literal).Some?
  {
    KeyOfValue(value).Some? && OpHolds(op, CompareKey(KeyOfValue(value).value, LiteralToPropertyKey(literal).value))
  }

  lemma RangeMatches(
      index: PropertyIndex, schema: Schema, rows: seq<NodeRow>, row: NodeRow, property: string, op: ComparisonOp,
      literal: Literal)
    requires IndexIsScan(index, schema, rows) && RowIdsUnique(rows) && row in rows
             && IsIndexed(schema, row.labelName, property)
    requires op != Ne && op != Eq && LiteralToPropertyKey(literal).Some?
    ensures var key := LiteralToPropertyKey(literal).value;
            row.id in LookupRange(index, row.labelName, property, LowBound(op, key), HighBound(op, key))
            <==> property in row.properties && KeyMatches(row.properties[property], op, literal)
  {
    var key := LiteralToPropertyKey(literal).value;
    InRange(index, schema, rows, row, property, LowBound(op, key), HighBound(op, key));
    if property in row.properties && KeyOfValue(row.properties[property]).Some? {
      BoundsSayOp(op, key, KeyOfValue(row.properties[property]).value);
    }
  }

  lemma BucketMatches(
      index: PropertyIndex, schema: Schema, rows: seq<NodeRow>, row: NodeRow, property: string, literal: Literal)
    requires IndexIsScan(index, schema, rows) && RowIdsUnique(rows) && row in rows
             && IsIndexed(schema, row.labelName, property)
    requires LiteralToPropertyKey(literal).Some?
    ensures row.id in LookupEq(index, row.labelName, property, LiteralToPropertyKey(literal).value)
            <==> property in row.properties && KeyMatches(row.properties[property], Eq, literal)
  {
    var key := LiteralToPropertyKey(literal).value;
    InBucket(index, schema, rows, row, property, key);
    if property in row.properties && KeyOfValue(row.properties[property]).Some? {
      CompareKeyLaws(KeyOfValue(row.properties[property]).value, key);
    }
  }

  /** What an index-backed filter answers for a node, whatever value it stores. */
  lemma MatchesByKey(index: PropertyIndex, schema: Schema, rows: seq<NodeRow>, row: NodeRow, filter: PropertyFilter)
    requires IndexIsScan(index, schema, rows) && RowIdsUnique(rows) && row in rows
    requires IsIndexed(schema, row.labelName, filter.property) && filter.op != Ne && !filter.value.FloatLit?
    ensures PropertyFilterMatches(index, row.labelName, filter).Ok?
    ensures row.id in PropertyFilterMatches(index, row.labelName, filter).value <==>
              filter.property in row.properties && KeyMatches(row.properties[filter.property], filter.op, filter.value)
  {
    if filter.op == Eq {
      BucketMatches(index, schema, rows, row, filter.property, filter.value);
    } else {
      RangeMatches(index, schema, rows, row, filter.property, filter.op, filter.value);
    }
  }

  // ---------------------------------------------------------------- where the paths part

  /** The stored value and the literal have one variant. */
  predicate OneVariant(value: PropertyValue, literal: Literal) {
    (value.Int64? && literal.IntLit?) || (value.Bool? && literal.BoolLit?) || (value.Str? && literal.StrLit?)
  }

  /** Beside another variant the index compares variants, and hydration says no. */
  predicate VariantsExclude(value: PropertyValue, op: ComparisonOp, literal: Literal)
    requires KeyOfValue(value).Some? && LiteralToPropertyKey(literal).Some?
  {
    !OpHolds(op, CompareInt(VariantRank(KeyOfValue(value).value), VariantRank(LiteralToPropertyKey(literal).value)))
  }

  /** When the two WHERE paths agree on a stored value: it has the literal's variant or is
      not indexed at all, or the operator does not look past the variant; a time stamp
      beside text that parses must lie on the side the operator asks for. */
  predicate PathsAgreeOn(parse: TsParser, value: PropertyValue, op: ComparisonOp, literal: Literal)
    requires LiteralToPropertyKey(literal).Some?
  {
    if KeyOfValue(value).None? || OneVariant(value, literal) then true
    else if value.Timestamp? && literal.StrLit? && parse(literal.s).Some?
    then (op == Gt || op == Gte) == OpHolds(op, CompareInt(value.micros, parse(literal.s).value))
    else VariantsExclude(value, op, literal)
  }

  lemma KeysOfDifferentVariants(value: PropertyValue, literal: Literal)
    requires KeyOfValue(value).Some? && LiteralToPropertyKey(literal).Some? && !OneVariant(value, literal)
    ensures var a, b := KeyOfValue(value).value, LiteralToPropertyKey(literal).value;
            CompareKey(a, b) == CompareInt(VariantRank(a), VariantRank(b)) != Equal
    ensures value.Timestamp? ==> CompareKey(KeyOfValue(value).value, LiteralToPropertyKey(literal).value) == Greater
  {
  }

  lemma ValuesAgreeIff(parse: TsParser, value: PropertyValue, op: ComparisonOp, literal: Literal)
    requires LiteralToPropertyKey(literal).Some? && op != Ne
    ensures (KeyMatches(value, op, literal) <==> LiteralMatches(parse, value, op, literal)) <==>
              PathsAgreeOn(parse, value, op, literal)
  {
    if KeyOfValue(value).Some? && !OneVariant(value, literal) {
      KeysOfDifferentVariants(value, literal);
    }
  }

  /** The exact condition under which the index-backed WHERE and the hydrated one select the
      same node, for any stored value. */
  lemma WherePathsAgreeIff(
      index: PropertyIndex, schema: Schema, rows: seq<NodeRow>, row: NodeRow, parse: TsParser, filter: PropertyFilter)
    requires IndexIsScan(index, schema, rows) && RowIdsUnique(rows) && row in rows
    requires IsIndexed(schema, row.labelName, filter.property) && filter.op != Ne && !filter.value.FloatLit?
    ensures PropertyFilterMatches(index, row.labelName, filter).Ok?
    ensures (row.id in PropertyFilterMatches(index, row.labelName, filter).value <==> EvaluateFilter(parse, row.properties, filter))
            <==> (filter.property in row.properties ==> PathsAgreeOn(parse, row.properties[filter.property], filter.op, filter.value))
  {
    MatchesByKey(index, schema, rows, row, filter);
    if filter.property in row.properties {
      ValuesAgreeIff(parse, row.properties[filter.property], filter.op, filter.value);
    }
  }

  ghost predicate Comparable(schema: Schema, row: NodeRow, parse: TsParser, filter: PropertyFilter) {
    && IsIndexed(schema, row.labelName, filter.property)
    && filter.op != Ne && !filter.value.FloatLit?
    && (filter.property in row.properties ==> PathsAgreeOn(parse, row.properties[filter.property], filter.op, filter.value))
  }

  /** Intersecting index lookups selects a node exactly when hydrating its record and
      evaluating every filter does. */
  lemma TwoWherePathsAgree(
      index: PropertyIndex, schema: Schema, rows: seq<NodeRow>, row: NodeRow, parse: TsParser,
      filters: seq<PropertyFilter>)
    requires IndexIsScan(index, schema, rows) && RowIdsUnique(rows) && row in rows
    requires forall i :: 0 <= i < |filters| ==> Comparable(schema, row, parse, filters[i])
    ensures IndexAllows(index, row.labelName, filters, row.id) <==> AllHold(parse, row.properties, filters)
  {
    forall i | 0 <= i < |filters|
      ensures PropertyFilterMatches(index, row.labelName, filters[i]).Ok?
      ensures row.id in PropertyFilterMatches(index, row.labelName, filters[i]).value <==>
                EvaluateFilter(parse, row.properties, filters[i])
    {
      WherePathsAgreeIff(index, schema, rows, row, parse, filters[i]);
    }
  }

  /** A timestamp compared with text: the index answers by the operator alone while
      hydration parses the text. */
  lemma TimestampPaths(
      index: PropertyIndex, schema: Schema, rows: seq<NodeRow>, row: NodeRow, parse: TsParser, filter: PropertyFilter)
    requires IndexIsScan(index, schema, rows) && RowIdsUnique(rows) && row in rows
             && IsIndexed(schema, row.labelName, filter.property)
    requires filter.value.StrLit? && filter.op != Ne
    requires filter.property in row.properties && row.properties[filter.property].Timestamp?
    ensures PropertyFilterMatches(index, row.labelName, filter).Ok?
    ensures row.id in PropertyFilterMatches(index, row.labelName, filter).value <==> filter.op == Gt || filter.op == Gte
    ensures EvaluateFilter(parse, row.properties, filter) <==>
              parse(filter.value.s).Some?
              && OpHolds(filter.op, CompareInt(row.properties[filter.property].micros, parse(filter.value.s).value))
  {
    MatchesByKey(index, schema, rows, row, filter);
  }

  // ---------------------------------------------------------------- one partition: walk and rounds

  /** The generation is the whole graph: one partition, live, no half edges. */
  ghost predicate WholeGraph(g: IndexGeneration, w: World) {
    && w.h.nPartitions == 1 && 0 in w.route && w.route[0] == 0 && EndpointsExist(w.t)
    && ValidTopology(g.topology) && Represents(g, w.t, w.h, 0)
  }

  lemma WholeOwnsAll(w: World)
    requires w.h.nPartitions == 1
    ensures OwnedIds(w.t, w.h, 0) == NodeIds(w.t)
  {
  }

  lemma EndHasEdge(topology: TopologicalIndex, w: World, n: NodeId, step: PlanStep, a: AdjacencyEntry)
    returns (e: EdgeRow)
    requires step.ExpandHop? && ServesRow(topology, w.t, w.h, 0, n, step.direction) && w.h.nPartitions == 1
             && 0 in w.route && w.route[0] == 0
    requires a in Neighbors(topology, n, step.direction) && Usable(a, step) && a.dstLocal.Some?
    ensures CanCross(w, n, e, step) && Far(e, step.direction) == a.dstLocal.value && e.id == a.edgeId
  {
    e :| EntryOf(w.t, w.h, 0, n, step.direction, e, a);
    EntryLeads(w.t, w.h, 0, n, step.direction, e, a);
  }

  lemma EdgeHasEnd(topology: TopologicalIndex, w: World, n: NodeId, step: PlanStep, e: EdgeRow)
    returns (a: AdjacencyEntry)
    requires step.ExpandHop? && ServesRow(topology, w.t, w.h, 0, n, step.direction) && w.h.nPartitions == 1
    requires CanCross(w, n, e, step)
    ensures a in Neighbors(topology, n, step.direction) && Usable(a, step)
    ensures a.dstLocal == Some(Far(e, step.direction)) && a.edgeId == e.id
  {
    WholeOwnsAll(w);
    a := MakeEntry(e, OwnedIds(w.t, w.h, 0), 0, w.h, step.direction);
    assert EntryOf(w.t, w.h, 0, n, step.direction, e, a);
    EntryLeads(w.t, w.h, 0, n, step.direction, e, a);
  }

  lemma EdgeReaches(topology: TopologicalIndex, w: World, n: NodeId, step: PlanStep, e: EdgeRow)
    requires step.ExpandHop? && ServesRow(topology, w.t, w.h, 0, n, step.direction) && w.h.nPartitions == 1
    requires CanCross(w, n, e, step)
    ensures Far(e, step.direction) in LocalEnds(Neighbors(topology, n, step.direction), step)
  {
    var a := EdgeHasEnd(topology, w, n, step, e);
  }

  ghost predicate CrossesTo(w: World, nodes: set<NodeId>, step: PlanStep, n: NodeId, e: EdgeRow, u: NodeId)
    requires step.ExpandHop?
  {
    n in nodes && CanCross(w, n, e, step) && Far(e, step.direction) == u
  }

  lemma WholeNext(g: IndexGeneration, w: World, nodes: set<NodeId>, step: PlanStep, u: NodeId)
    requires WholeGraph(g, w) && step.ExpandHop?
    ensures u in AllLocalEnds(g, nodes, step) <==> exists n, e :: CrossesTo(w, nodes, step, n, e, u)
  {
    if u in AllLocalEnds(g, nodes, step) {
      var n :| n in nodes && u in LocalEnds(Neighbors(g.topology, n, step.direction), step);
      var a :| a in Neighbors(g.topology, n, step.direction) && Usable(a, step) && a.dstLocal == Some(u);
      TopologyRow(g.topology, w.t, w.h, 0, n, step.direction);
      var e := EndHasEdge(g.topology, w, n, step, a);
      assert CrossesTo(w, nodes, step, n, e, u);
    }
    if n, e :| CrossesTo(w, nodes, step, n, e, u) {
      TopologyRow(g.topology, w.t, w.h, 0, n, step.direction);
      EdgeReaches(g.topology, w, n, step, e);
    }
  }

  lemma WholeHasNoRemote(g: IndexGeneration, w: World, nodes: set<NodeId>, b: Binding, step: PlanStep)
    requires WholeGraph(g, w) && step.ExpandHop?
    ensures AllRemoteRows(g, nodes, b, step) == {}
  {
    forall n, a | n in nodes && a in Neighbors(g.topology, n, step.direction) ensures a.dstRemote.None? {
      NeighborMembers(g.topology, w.t, w.h, 0, n, step.direction, a);
    }
  }

  ghost function Moved(b: Binding, toAlias: string, nodes: set<NodeId>): set<Binding> {
    set u | u in nodes :: MoveTo(b, toAlias, u)
  }

  /** `next` are the nodes one edge away from `nodes`. */
  ghost predicate NextIs(w: World, nodes: set<NodeId>, next: set<NodeId>, step: PlanStep)
    requires step.ExpandHop?
  {
    forall u :: u in next <==> exists n, e :: CrossesTo(w, nodes, step, n, e, u)
  }

  lemma MovedHopRow(w: World, b: Binding, nodes: set<NodeId>, next: set<NodeId>, step: PlanStep, x: Binding)
    requires step.ExpandHop? && NextIs(w, nodes, next, step)
    requires x in Hop(w, Moved(b, step.toAlias, nodes), step.toAlias, step, None)
    ensures x in Moved(b, step.toAlias, next)
  {
    var y, e :| y in Moved(b, step.toAlias, nodes) && e in w.t.edges && step.toAlias in y.nodes && CanCross(w, y.nodes[step.toAlias], e, step)
                && x == Extend(y, step.toAlias, Far(e, step.direction), None, e.id);
    var n :| n in nodes && y == MoveTo(b, step.toAlias, n);
    var u := Far(e, step.direction);
    assert y.nodes[step.toAlias] == n;
    assert CrossesTo(w, nodes, step, n, e, u);
    assert x == MoveTo(b, step.toAlias, u);
  }

  lemma MovedHopCovers(w: World, b: Binding, nodes: set<NodeId>, next: set<NodeId>, step: PlanStep, u: NodeId)
    requires step.ExpandHop? && NextIs(w, nodes, next, step) && u in next
    ensures MoveTo(b, step.toAlias, u) in Hop(w, Moved(b, step.toAlias, nodes), step.toAlias, step, None)
  {
    var n, e :| CrossesTo(w, nodes, step, n, e, u);
    var y := MoveTo(b, step.toAlias, n);
    assert y in Moved(b, step.toAlias, nodes) && y.nodes[step.toAlias] == n;
    assert MoveTo(b, step.toAlias, u) == Extend(y, step.toAlias, u, None, e.id);
  }

  /** One scatter round over the rows of a level gives the rows of the next level. */
  lemma MovedHop(w: World, b: Binding, nodes: set<NodeId>, next: set<NodeId>, step: PlanStep)
    requires step.ExpandHop? && NextIs(w, nodes, next, step)
    ensures Hop(w, Moved(b, step.toAlias, nodes), step.toAlias, step, None) == Moved(b, step.toAlias, next)
  {
    forall x | x in Hop(w, Moved(b, step.toAlias, nodes), step.toAlias, step, None)
      ensures x in Moved(b, step.toAlias, next)
    {
      MovedHopRow(w, b, nodes, next, step, x);
    }
    forall x | x in Moved(b, step.toAlias, next)
      ensures x in Hop(w, Moved(b, step.toAlias, nodes), step.toAlias, step, None)
    {
      var u :| u in next && x == MoveTo(b, step.toAlias, u);
      MovedHopCovers(w, b, nodes, next, step, u);
    }
  }

  lemma FirstHop(w: World, b: Binding, next: set<NodeId>, step: PlanStep)
    requires step.ExpandHop? && step.edgeAlias.None? && step.fromAlias in b.nodes
             && NextIs(w, {b.nodes[step.fromAlias]}, next, step)
    ensures Hop(w, {b}, step.fromAlias, step, None) == Moved(b, step.toAlias, next)
  {
    var v := b.nodes[step.fromAlias];
    forall x | x in Hop(w, {b}, step.fromAlias, step, None) ensures x in Moved(b, step.toAlias, next) {
      var e :| e in w.t.edges && CanCross(w, v, e, step)
               && x == Extend(b, step.toAlias, Far(e, step.direction), None, e.id);
      assert CrossesTo(w, {v}, step, v, e, Far(e, step.direction));
      assert x == MoveTo(b, step.toAlias, Far(e, step.direction));
    }
    forall u | u in next ensures MoveTo(b, step.toAlias, u) in Hop(w, {b}, step.fromAlias, step, None) {
      var n, e :| CrossesTo(w, {v}, step, n, e, u);
      assert MoveTo(b, step.toAlias, u) == Extend(b, step.toAlias, u, None, e.id);
    }
  }

  lemma LevelIsNext(g: IndexGeneration, w: World, nodes: set<NodeId>, step: PlanStep)
    requires WholeGraph(g, w) && step.ExpandHop?
    ensures NextIs(w, nodes, AllLocalEnds(g, nodes, step), step)
  {
    forall u { WholeNext(g, w, nodes, step, u); }
  }

  lemma {:induction false} LevelIsRound(g: IndexGeneration, w: World, b: Binding, step: PlanStep, d: nat)
    requires WholeGraph(g, w) && step.ExpandHop? && step.edgeAlias.None? && step.fromAlias in b.nodes && d > 0
    ensures Rounds(w, {b}, step, d) == Moved(b, step.toAlias, Level(g, b.nodes[step.fromAlias], step, d))
  {
    if d == 1 {
      assert Level(g, b.nodes[step.fromAlias], step, 0) == {b.nodes[step.fromAlias]};
      LevelIsNext(g, w, {b.nodes[step.fromAlias]}, step);
      FirstHop(w, b, Level(g, b.nodes[step.fromAlias], step, 1), step);
    } else {
      LevelIsRound(g, w, b, step, d - 1);
      var nodes := Level(g, b.nodes[step.fromAlias], step, d - 1);
      LevelIsNext(g, w, nodes, step);
      MovedHop(w, b, nodes, AllLocalEnds(g, nodes, step), step);
    }
  }

  lemma {:induction false} WalkRowsAreAccepted(g: IndexGeneration, w: World, b: Binding, step: PlanStep, d: nat)
    requires WholeGraph(g, w) && step.ExpandHop? && step.edgeAlias.None? && step.fromAlias in b.nodes
    ensures RowsUpTo(g, b, b.nodes[step.fromAlias], step, d) == Accepted(w, {b}, step, d)
    ensures RemoteUpTo(g, b, b.nodes[step.fromAlias], step, d) == {}
  {
    if d > 0 {
      WalkRowsAreAccepted(g, w, b, step, d - 1);
      LevelIsRound(g, w, b, step, d);
      WholeHasNoRemote(g, w, Level(g, b.nodes[step.fromAlias], step, d - 1), b, step);
      assert RowsAt(g, b, b.nodes[step.fromAlias], step, d) == if d >= step.hops.min then Moved(b, step.toAlias, Level(g, b.nodes[step.fromAlias], step, d)) else {};
    }
  }

  /** An aliased hop is a single hop: one row per entry, one row per edge. */
  lemma AliasedHopRow(g: IndexGeneration, w: World, b: Binding, step: PlanStep, x: Binding)
    requires WholeGraph(g, w) && step.ExpandHop? && step.fromAlias in b.nodes
    ensures var v := b.nodes[step.fromAlias];
            x in LocalRows(Neighbors(g.topology, v, step.direction), b, step) <==>
              x in Hop(w, {b}, step.fromAlias, step, step.edgeAlias)
  {
    var v := b.nodes[step.fromAlias];
    TopologyRow(g.topology, w.t, w.h, 0, v, step.direction);
    if x in LocalRows(Neighbors(g.topology, v, step.direction), b, step) {
      var a :| a in Neighbors(g.topology, v, step.direction) && Usable(a, step) && a.dstLocal.Some?
               && x == Extend(b, step.toAlias, a.dstLocal.value, step.edgeAlias, a.edgeId);
      var e := EndHasEdge(g.topology, w, v, step, a);
    }
    if x in Hop(w, {b}, step.fromAlias, step, step.edgeAlias) {
      var e :| e in w.t.edges && CanCross(w, v, e, step)
               && x == Extend(b, step.toAlias, Far(e, step.direction), step.edgeAlias, e.id);
      var a := EdgeHasEnd(g.topology, w, v, step, e);
    }
  }

  lemma AliasedRowsAreAccepted(g: IndexGeneration, w: World, b: Binding, step: PlanStep)
    requires WholeGraph(g, w) && step.ExpandHop? && step.edgeAlias.Some? && step.hops == HopRange(1, 1)
             && step.fromAlias in b.nodes
    ensures RowsUpTo(g, b, b.nodes[step.fromAlias], step, 1) == Accepted(w, {b}, step, 1)
    ensures RemoteUpTo(g, b, b.nodes[step.fromAlias], step, 1) == {}
  {
    var v := b.nodes[step.fromAlias];
    WholeHasNoRemote(g, w, {v}, b, step);
    assert RowsUpTo(g, b, v, step, 0) == {} && RemoteUpTo(g, b, v, step, 0) == {} && Accepted(w, {b}, step, 0) == {};
    assert RowsAt(g, b, v, step, 1) == AllLocalRows(g, {v}, b, step);
    forall x ensures x in AllLocalRows(g, {v}, b, step) <==> x in Hop(w, {b}, step.fromAlias, step, step.edgeAlias) {
      AliasedHopRow(g, w, b, step, x);
    }
  }

  lemma RoundsPointwise(w: World, from: set<Binding>, step: PlanStep, d: nat, x: Binding)
    requires step.ExpandHop? && d > 0
    ensures x in Rounds(w, from, step, d) <==> exists b :: b in from && x in Rounds(w, {b}, step, d)
  {
    if x in Rounds(w, from, step, d) {
      RoundsAreWalks(w, from, step, d, x);
      var b, path :| |path| == d && WalkRow(w, from, step, b, path, x);
      assert WalkRow(w, {b}, step, b, path, x);
      RoundsAreWalks(w, {b}, step, d, x);
    }
    if b :| b in from && x in Rounds(w, {b}, step, d) {
      RoundsOfMember(w, from, step, d, x, b);
    }
  }

  lemma RoundsOfMember(w: World, from: set<Binding>, step: PlanStep, d: nat, x: Binding, b: Binding)
    requires step.ExpandHop? && d > 0 && b in from && x in Rounds(w, {b}, step, d)
    ensures x in Rounds(w, from, step, d)
  {
    RoundsAreWalks(w, {b}, step, d, x);
    var c, path :| |path| == d && WalkRow(w, {b}, step, c, path, x);
    assert WalkRow(w, from, step, b, path, x);
    RoundsAreWalks(w, from, step, d, x);
  }

  lemma AcceptedPointwise(w: World, from: set<Binding>, step: PlanStep, d: nat, x: Binding)
    requires step.ExpandHop?
    ensures x in Accepted(w, from, step, d) <==> exists b :: b in from && x in Accepted(w, {b}, step, d)
  {
    AcceptedMembers(w, from, step, d, x);
    forall b { AcceptedMembers(w, {b}, step, d, x); }
    if x in Accepted(w, from, step, d) {
      var k :| 1 <= k <= d && AcceptedAt(w, from, step, k, x);
      RoundsPointwise(w, from, step, k, x);
      var b :| b in from && x in Rounds(w, {b}, step, k);
      assert AcceptedAt(w, {b}, step, k, x);
    }
    if b :| b in from && x in Accepted(w, {b}, step, d) {
      var k :| 1 <= k <= d && AcceptedAt(w, {b}, step, k, x);
      RoundsPointwise(w, from, step, k, x);
      assert AcceptedAt(w, from, step, k, x);
    }
  }

  /** On a single-partition index the one-shot breadth-first walk of the local executor
      yields exactly what the coordinator collects round by round, and hands nothing off. */
  lemma OneShotWalkIsScatter(g: IndexGeneration, w: World, frontier: seq<Binding>, step: PlanStep)
    requires WholeGraph(g, w) && step.ExpandHop? && AllBound(frontier, step.fromAlias)
    requires step.edgeAlias.Some? ==> step.hops == HopRange(1, 1)
    ensures FrontierRows(g, frontier, step) == Accepted(w, ToSet(frontier), step, step.hops.max)
    ensures FrontierRemote(g, frontier, step) == {}
  {
    forall b | b in frontier
      ensures RowsUpTo(g, b, b.nodes[step.fromAlias], step, step.hops.max) == Accepted(w, {b}, step, step.hops.max)
      ensures RemoteUpTo(g, b, b.nodes[step.fromAlias], step, step.hops.max) == {}
    {
      if step.edgeAlias.None? {
        WalkRowsAreAccepted(g, w, b, step, step.hops.max);
      } else {
        AliasedRowsAreAccepted(g, w, b, step);
      }
    }
    forall x ensures x in FrontierRows(g, frontier, step) <==> x in Accepted(w, ToSet(frontier), step, step.hops.max) {
      AcceptedPointwise(w, ToSet(frontier), step, step.hops.max, x);
    }
  }
}
