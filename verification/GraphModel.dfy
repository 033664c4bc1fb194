/** Identifiers, property values, schemas, scanned tables and the partition hash. A table
    row keeps the label or type it was scanned under; ids are global, and the hash is an
    arbitrary function, so that nothing can depend on which one is used. */
module GraphModel {
  import opened Basics

  datatype NodeId = NodeId(raw: nat)
  datatype EdgeId = EdgeId(raw: nat)

  type PartitionId = nat

  newtype byte = x: int | 0 <= x < 0x100

  datatype PropertyValue =
    | Int64(i: int)
    | Float64(f: F64)
    | Bool(b: bool)
    | Str(s: string)
    | Timestamp(micros: int)
    | Bytes(bytes: seq<byte>)
    | List(items: seq<PropertyValue>)
    | Null

  type Properties = map<string, PropertyValue>

  datatype ScalarType =
    | Int64Type
    | Float64Type
    | BoolType
    | StringType
    | TimestampType
    | BytesType
    | ListType(elem: ScalarType)
    | VectorType(dim: nat)

  datatype PropertyDef = PropertyDef(name: string, ty: ScalarType, optional: bool, indexed: bool)

  datatype NodeDef = NodeDef(labelName: string, properties: seq<PropertyDef>)

  datatype EdgeDef = EdgeDef(edgeType: string, from: string, to: string, properties: seq<PropertyDef>)

  datatype Schema = Schema(version: string, nodes: map<string, NodeDef>, edges: map<string, EdgeDef>)

  /** One row of the table of `labelName`. */
  datatype NodeRow = NodeRow(labelName: string, id: NodeId, properties: Properties)

  /** One row of the table of `edgeType`. */
  datatype EdgeRow = EdgeRow(edgeType: string, id: EdgeId, src: NodeId, dst: NodeId, properties: Properties)

  /** Everything one rebuild cycle scans: all rows of all tables, in scan order. */
  datatype Tables = Tables(schema: Schema, nodes: seq<NodeRow>, edges: seq<EdgeRow>)

  ghost predicate RowIdsUnique(rows: seq<NodeRow>) {
    forall i, j :: 0 <= i < j < |rows| ==> rows[i].id != rows[j].id
  }

  /** Node and edge ids are global identifiers. */
  ghost predicate UniqueIds(t: Tables) {
    RowIdsUnique(t.nodes) && forall i, j :: 0 <= i < j < |t.edges| ==> t.edges[i].id != t.edges[j].id
  }

  /** The row is the only one with its id. */
  lemma OnlyRow(rows: seq<NodeRow>, row: NodeRow, other: NodeRow)
    requires RowIdsUnique(rows) && row in rows && other in rows && row.id == other.id
    ensures row == other
  {
    var i :| 0 <= i < |rows| && rows[i] == row;
    var j :| 0 <= j < |rows| && rows[j] == other;
  }

  lemma SameEdge(t: Tables, e: EdgeRow, f: EdgeRow)
    requires UniqueIds(t) && e in t.edges && f in t.edges && e.id == f.id
    ensures e == f
  {
    var i :| 0 <= i < |t.edges| && t.edges[i] == e;
    var j :| 0 <= j < |t.edges| && t.edges[j] == f;
  }

  ghost function NodeIds(t: Tables): set<NodeId> {
    set r | r in t.nodes :: r.id
  }

  /** No edge names a node the node tables do not hold. */
  ghost predicate EndpointsExist(t: Tables) {
    forall e :: e in t.edges ==> e.src in NodeIds(t) && e.dst in NodeIds(t)
  }

  datatype RawHasher = RawHasher(stableHash: NodeId -> nat, nPartitions: nat)

  /** The partition formula for an arbitrary hash function. */
  type Hasher = h: RawHasher | h.nPartitions > 0 witness RawHasher((v: NodeId) => 0, 1)

  function PartitionOf(h: Hasher, v: NodeId): (p: PartitionId)
    ensures p < h.nPartitions
  {
    h.stableHash(v) % h.nPartitions
  }

  /** RFC 3339 text to microseconds, left abstract. */
  type TsParser = string -> Option<int>

  datatype Direction = Outgoing | Incoming

  /** The endpoint a traversal leaves. */
  function Near(e: EdgeRow, dir: Direction): NodeId {
    if dir.Outgoing? then e.src else e.dst
  }

  /** The endpoint a traversal reaches. */
  function Far(e: EdgeRow, dir: Direction): NodeId {
    if dir.Outgoing? then e.dst else e.src
  }

  predicate TypeMatches(edgeType: string, wanted: Option<string>) {
    wanted.None? || edgeType == wanted.value
  }
}
