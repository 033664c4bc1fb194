/** RETURN: from gathered rows and hydrated records to the messages a client receives. */
module Projection {
  import opened Basics
  import opened GraphModel
  import opened Plan
  import opened IndexBuilder
  import opened Wire
  import opened Denotation
  import opened ClusterAccess
  import opened OrderLimit

  datatype Message = Message(
    projection: map<string, ProtoValue>, nodes: map<string, ProtoRecord>, edges: map<string, ProtoRecord>)

  const U64_MODULUS: nat := 0x1_0000_0000_0000_0000

  /** `as i64` on an unsigned 64-bit id. */
  function AsI64(id: nat): int {
    if id % U64_MODULUS < U64_MODULUS / 2 then id % U64_MODULUS else id % U64_MODULUS - U64_MODULUS
  }

  /** The client's cast back finds the id. */
  lemma IdComesBack(id: nat)
    requires id < U64_MODULUS
    ensures (if AsI64(id) < 0 then AsI64(id) + U64_MODULUS else AsI64(id)) == id
  {
  }

  function IdValue(id: nat): ProtoValue {
    ProtoValue(Some(Int64Value(AsI64(id))))
  }

  // ---------------------------------------------------------------- what a message says

  /** Where the records of a message come from. */
  datatype Source = Source(nodeOf: NodeId -> Option<NodeRecord>, edgeOf: EdgeId -> Option<EdgeRecord>)

  function FromRecords(h: Records): Source {
    Source((v: NodeId) => if v in h.nodes then Some(h.nodes[v]) else None,
           (e: EdgeId) => if e in h.edges then Some(h.edges[e]) else None)
  }

  function ItemKey(item: ReturnItem): string {
    if item.property.None? then item.alias else item.alias + "." + item.property.value
  }

  function RecordValue(properties: Properties, property: string): Option<ProtoValue> {
    if property in properties then ValueToProto(properties[property]) else None
  }

  /** The value an item projects out of a row, if it projects one. */
  function ItemValue(src: Source, isEdge: bool, item: ReturnItem, b: Binding): Option<ProtoValue> {
    if isEdge then
      if item.alias !in b.edges then None
      else if item.property.None? then Some(IdValue(b.edges[item.alias].raw))
      else
        var record := src.edgeOf(b.edges[item.alias]);
        if record.Some? then RecordValue(record.value.properties, item.property.value) else None
    else
      if item.alias !in b.nodes then None
      else if item.property.None? then Some(IdValue(b.nodes[item.alias].raw))
      else
        var record := src.nodeOf(b.nodes[item.alias]);
        if record.Some? then RecordValue(record.value.properties, item.property.value) else None
  }

  /** Item `i` writes the key and no later item does. */
  ghost predicate WritesLast(
      src: Source, kinds: string -> bool, project: seq<ReturnItem>, b: Binding, i: nat, k: string)
  {
    && i < |project| && ItemKey(project[i]) == k && ItemValue(src, kinds(project[i].alias), project[i], b).Some?
    && forall j ::
         i < j < |project| && ItemKey(project[j]) == k ==> ItemValue(src, kinds(project[j].alias), project[j], b).None?
  }

  ghost predicate ShowsNode(src: Source, kinds: string -> bool, project: seq<ReturnItem>, b: Binding, alias: string) {
    ReturnItem(alias, None) in project && !kinds(alias) && alias in b.nodes && src.nodeOf(b.nodes[alias]).Some?
  }

  ghost predicate ShowsEdge(src: Source, kinds: string -> bool, project: seq<ReturnItem>, b: Binding, alias: string) {
    ReturnItem(alias, None) in project && kinds(alias) && alias in b.edges && src.edgeOf(b.edges[alias]).Some?
  }

  ghost predicate ProjectionIs(
      src: Source, kinds: string -> bool, project: seq<ReturnItem>, b: Binding, values: map<string, ProtoValue>)
  {
    && (forall k :: k in values <==> exists i: nat :: WritesLast(src, kinds, project, b, i, k))
    && (forall i: nat, k :: WritesLast(src, kinds, project, b, i, k) ==>
          k in values && Some(values[k]) == ItemValue(src, kinds(project[i].alias), project[i], b))
  }

  ghost predicate NodesAre(
      src: Source, kinds: string -> bool, project: seq<ReturnItem>, b: Binding, nodes: map<string, ProtoRecord>)
  {
    && (forall a :: a in nodes <==> ShowsNode(src, kinds, project, b, a))
    && (forall a :: ShowsNode(src, kinds, project, b, a) ==> a in nodes && nodes[a] == NodeRecordToProto(src.nodeOf(b.nodes[a]).value))
  }

  ghost predicate EdgesAre(
      src: Source, kinds: string -> bool, project: seq<ReturnItem>, b: Binding, edges: map<string, ProtoRecord>)
  {
    && (forall a :: a in edges <==> ShowsEdge(src, kinds, project, b, a))
    && (forall a :: ShowsEdge(src, kinds, project, b, a) ==> a in edges && edges[a] == EdgeRecordToProto(src.edgeOf(b.edges[a]).value))
  }

  /** The message of a row: under each key the value of the last item that has one, and the
      record of every bare alias. */
  ghost predicate IsMessage(src: Source, kinds: string -> bool, project: seq<ReturnItem>, b: Binding, m: Message) {
    && ProjectionIs(src, kinds, project, b, m.projection)
    && NodesAre(src, kinds, project, b, m.nodes)
    && EdgesAre(src, kinds, project, b, m.edges)
  }

  // ---------------------------------------------------------------- projecting one row

  function EdgeKind(aliasIsEdge: map<string, bool>): string -> bool {
    (a: string) => a in aliasIsEdge && aliasIsEdge[a]
  }

  lemma ProjectionNext(
      src: Source, kinds: string -> bool, project: seq<ReturnItem>, item: ReturnItem, b: Binding,
      values: map<string, ProtoValue>)
    requires ProjectionIs(src, kinds, project, b, values)
    ensures var value := ItemValue(src, kinds(item.alias), item, b);
            ProjectionIs(src, kinds, project + [item], b, if value.Some? then values[ItemKey(item) := value.value] else values)
  {
    var all, n := project + [item], |project|;
    var value := ItemValue(src, kinds(item.alias), item, b);
    var values' := if value.Some? then values[ItemKey(item) := value.value] else values;
    assert all[n] == item && all[..n] == project;
    forall i: nat, k
      ensures WritesLast(src, kinds, all, b, i, k) <==>
                if i == n then k == ItemKey(item) && value.Some?
                else WritesLast(src, kinds, project, b, i, k) && !(k == ItemKey(item) && value.Some?)
    {
      LastWriterNext(src, kinds, project, item, b, i, k);
    }
    forall k | k in values' ensures exists i: nat :: WritesLast(src, kinds, all, b, i, k) {
      if value.Some? && k == ItemKey(item) {
        assert WritesLast(src, kinds, all, b, n, k);
      } else {
        var i: nat :| WritesLast(src, kinds, project, b, i, k);
        assert WritesLast(src, kinds, all, b, i, k);
      }
    }
  }

  lemma LastWriterNext(
      src: Source, kinds: string -> bool, project: seq<ReturnItem>, item: ReturnItem, b: Binding, i: nat, k: string)
    ensures WritesLast(src, kinds, project + [item], b, i, k) <==>
              if i == |project| then k == ItemKey(item) && ItemValue(src, kinds(item.alias), item, b).Some?
              else WritesLast(src, kinds, project, b, i, k)
                   && !(k == ItemKey(item) && ItemValue(src, kinds(item.alias), item, b).Some?)
  {
    var all, n := project + [item], |project|;
    assert all[n] == item;
    forall j | 0 <= j < n ensures all[j] == project[j] {}
  }

  lemma NodesNext(
      src: Source, kinds: string -> bool, project: seq<ReturnItem>, item: ReturnItem, b: Binding,
      nodes: map<string, ProtoRecord>)
    requires NodesAre(src, kinds, project, b, nodes)
    ensures NodesAre(src, kinds, project + [item], b,
                     if item.property.None? && !kinds(item.alias) && item.alias in b.nodes && src.nodeOf(b.nodes[item.alias]).Some?
                     then nodes[item.alias := NodeRecordToProto(src.nodeOf(b.nodes[item.alias]).value)] else nodes)
  {
    assert item.property.None? ==> item == ReturnItem(item.alias, None);
    forall x ensures x in project + [item] <==> x in project || x == item {}
  }

  lemma EdgesNext(
      src: Source, kinds: string -> bool, project: seq<ReturnItem>, item: ReturnItem, b: Binding,
      edges: map<string, ProtoRecord>)
    requires EdgesAre(src, kinds, project, b, edges)
    ensures EdgesAre(src, kinds, project + [item], b,
                     if item.property.None? && kinds(item.alias) && item.alias in b.edges && src.edgeOf(b.edges[item.alias]).Some?
                     then edges[item.alias := EdgeRecordToProto(src.edgeOf(b.edges[item.alias]).value)] else edges)
  {
    assert item.property.None? ==> item == ReturnItem(item.alias, None);
    forall x ensures x in project + [item] <==> x in project || x == item {}
  }

  /** One item: a bare alias projects its id and its record, a property one scalar. */
  method ProjectItem(
      item: ReturnItem, aliasIsEdge: map<string, bool>, h: Records, b: Binding, m: Message,
      ghost project: seq<ReturnItem>)
    returns (m': Message)
    requires IsMessage(FromRecords(h), EdgeKind(aliasIsEdge), project, b, m)
    ensures IsMessage(FromRecords(h), EdgeKind(aliasIsEdge), project + [item], b, m')
  {
    ghost var src, kinds := FromRecords(h), EdgeKind(aliasIsEdge);
    ProjectionNext(src, kinds, project, item, b, m.projection);
    NodesNext(src, kinds, project, item, b, m.nodes);
    EdgesNext(src, kinds, project, item, b, m.edges);
    m' := m;
    var isEdge := item.alias in aliasIsEdge && aliasIsEdge[item.alias];
    if item.property.None? {
      if isEdge {
        if item.alias in b.edges {
          var id := b.edges[item.alias];
          m' := m.(projection := m.projection[item.alias := IdValue(id.raw)]);
          if id in h.edges { m' := m'.(edges := m.edges[item.alias := EdgeRecordToProto(h.edges[id])]); }
        }
      } else if item.alias in b.nodes {
        var id := b.nodes[item.alias];
        m' := m.(projection := m.projection[item.alias := IdValue(id.raw)]);
        if id in h.nodes { m' := m'.(nodes := m.nodes[item.alias := NodeRecordToProto(h.nodes[id])]); }
      }
    } else {
      var value := ItemValue(FromRecords(h), isEdge, item, b);
      if value.Some? { m' := m.(projection := m.projection[item.alias + "." + item.property.value := value.value]); }
    }
  }

  lemma NothingProjected(src: Source, kinds: string -> bool, b: Binding)
    ensures IsMessage(src, kinds, [], b, Message(map[], map[], map[]))
  {
  }

  method ProjectRow(project: seq<ReturnItem>, aliasIsEdge: map<string, bool>, h: Records, b: Binding)
    returns (m: Message)
    ensures IsMessage(FromRecords(h), EdgeKind(aliasIsEdge), project, b, m)
  {
    m := Message(map[], map[], map[]);
    NothingProjected(FromRecords(h), EdgeKind(aliasIsEdge), b);
    for i := 0 to |project|
      invariant IsMessage(FromRecords(h), EdgeKind(aliasIsEdge), project[..i], b, m)
    {
      TakeNext(project, i);
      m := ProjectItem(project[i], aliasIsEdge, h, b, m, project[..i]);
    }
    assert project[..|project|] == project;
  }

  // ---------------------------------------------------------------- one key, one item

  /** Aliases come from the grammar's identifiers. */
  predicate Undotted(alias: string) {
    forall i :: 0 <= i < |alias| ==> alias[i] != '.'
  }

  /** Without dots in aliases the key names its item. */
  lemma KeyNamesItem(a: ReturnItem, b: ReturnItem)
    requires Undotted(a.alias) && Undotted(b.alias) && ItemKey(a) == ItemKey(b)
    ensures a == b
  {
    var k, n, m := ItemKey(a), |a.alias|, |b.alias|;
    assert k[..n] == a.alias && k[..m] == b.alias;
    assert a.property.Some? ==> k[n] == '.' && k[n + 1..] == a.property.value;
    assert b.property.Some? ==> k[m] == '.' && k[m + 1..] == b.property.value;
    assert forall i :: 0 <= i < n ==> k[i] == a.alias[i] != '.';
    assert forall i :: 0 <= i < m ==> k[i] == b.alias[i] != '.';
    assert n == m;
  }

  /** Every item of RETURN is answered under its own key with its own value. */
  lemma EveryItemIsAnswered(
      src: Source, kinds: string -> bool, project: seq<ReturnItem>, b: Binding, m: Message, i: nat)
    requires IsMessage(src, kinds, project, b, m) && i < |project|
    requires forall j :: 0 <= j < |project| ==> Undotted(project[j].alias)
    ensures var value := ItemValue(src, kinds(project[i].alias), project[i], b);
            if value.Some? then ItemKey(project[i]) in m.projection && m.projection[ItemKey(project[i])] == value.value
            else ItemKey(project[i]) !in m.projection
  {
    var k := ItemKey(project[i]);
    if ItemValue(src, kinds(project[i].alias), project[i], b).Some? {
      var j := LastWriter(src, kinds, project, b, k, i);
      KeyNamesItem(project[i], project[j]);
    } else if k in m.projection {
      var j: nat :| WritesLast(src, kinds, project, b, j, k);
      KeyNamesItem(project[i], project[j]);
      assert false;
    }
  }

  lemma LastWriter(src: Source, kinds: string -> bool, project: seq<ReturnItem>, b: Binding, k: string, i: nat)
    returns (j: nat)
    requires i < |project| && ItemKey(project[i]) == k && ItemValue(src, kinds(project[i].alias), project[i], b).Some?
    ensures WritesLast(src, kinds, project, b, j, k)
    decreases |project| - i
  {
    if next :| i < next < |project| && ItemKey(project[next]) == k && ItemValue(src, kinds(project[next].alias), project[next], b).Some? {
      j := LastWriter(src, kinds, project, b, k, next);
    } else {
      j := i;
    }
  }

  // ---------------------------------------------------------------- records of the tables

  /** The record a node of the tables arrives with, if some asked replica holds it. */
  ghost function TableNode(w: World, v: NodeId): Option<NodeRecord> {
    if exists record :: ArrivedNode(w, v, record) then var record :| ArrivedNode(w, v, record); Some(record) else None
  }

  ghost function TableEdge(w: World, id: EdgeId): Option<EdgeRecord> {
    if exists record :: ArrivedEdge(w, id, record) then var record :| ArrivedEdge(w, id, record); Some(record) else None
  }

  ghost function FromTables(w: World): Source {
    Source((v: NodeId) => TableNode(w, v), (e: EdgeId) => TableEdge(w, e))
  }

  lemma OneTableNode(w: World, v: NodeId, record: NodeRecord)
    requires UniqueIds(w.t) && ArrivedNode(w, v, record)
    ensures TableNode(w, v) == Some(record)
  {
    var other := TableNode(w, v).value;
    var r :| r in w.t.nodes && r.id == v && r.labelName == record.labelName;
    var s :| s in w.t.nodes && s.id == v && s.labelName == other.labelName;
    OnlyRow(w.t.nodes, r, s);
  }

  lemma OneTableEdge(w: World, id: EdgeId, record: EdgeRecord)
    requires UniqueIds(w.t) && ArrivedEdge(w, id, record)
    ensures TableEdge(w, id) == Some(record)
  {
    var other := TableEdge(w, id).value;
    var e :| e in w.t.edges && e.id == id && e.edgeType == record.edgeType;
    var f :| f in w.t.edges && f.id == id && f.edgeType == other.edgeType;
    SameEdge(w.t, e, f);
  }

  /** The two sources agree on everything the row can project. */
  ghost predicate AgreeOnRow(s: Source, u: Source, b: Binding, project: seq<ReturnItem>, kinds: string -> bool) {
    forall item :: item in project ==>
      && (!kinds(item.alias) && item.alias in b.nodes ==> s.nodeOf(b.nodes[item.alias]) == u.nodeOf(b.nodes[item.alias]))
      && (kinds(item.alias) && item.alias in b.edges ==> s.edgeOf(b.edges[item.alias]) == u.edgeOf(b.edges[item.alias]))
  }

  lemma SameMessage(
      s: Source, u: Source, kinds: string -> bool, kinds': string -> bool, project: seq<ReturnItem>, b: Binding,
      m: Message)
    requires AgreeOnRow(s, u, b, project, kinds) && IsMessage(s, kinds, project, b, m)
    requires forall item :: item in project ==> kinds'(item.alias) == kinds(item.alias)
    ensures IsMessage(u, kinds', project, b, m)
  {
    forall i | 0 <= i < |project|
      ensures ItemValue(s, kinds(project[i].alias), project[i], b) == ItemValue(u, kinds'(project[i].alias), project[i], b)
    {
      assert project[i] in project;
    }
    SameWriters(s, u, kinds, kinds', project, b);
    SameProjection(s, u, kinds, kinds', project, b, m.projection);
    forall a
      ensures ShowsNode(s, kinds, project, b, a) <==> ShowsNode(u, kinds', project, b, a)
      ensures ShowsEdge(s, kinds, project, b, a) <==> ShowsEdge(u, kinds', project, b, a)
    {
      if ReturnItem(a, None) in project { assert kinds'(ReturnItem(a, None).alias) == kinds(ReturnItem(a, None).alias); }
    }
    SameRecords(s, u, kinds, kinds', project, b, m);
  }

  lemma SameWriters(
      s: Source, u: Source, kinds: string -> bool, kinds': string -> bool, project: seq<ReturnItem>, b: Binding)
    requires forall i :: 0 <= i < |project| ==>
               ItemValue(s, kinds(project[i].alias), project[i], b) == ItemValue(u, kinds'(project[i].alias), project[i], b)
    ensures forall i: nat, k :: WritesLast(s, kinds, project, b, i, k) <==> WritesLast(u, kinds', project, b, i, k)
  {
  }

  lemma SameProjection(
      s: Source, u: Source, kinds: string -> bool, kinds': string -> bool, project: seq<ReturnItem>, b: Binding,
      values: map<string, ProtoValue>)
    requires ProjectionIs(s, kinds, project, b, values)
    requires forall i: nat, k :: WritesLast(s, kinds, project, b, i, k) <==> WritesLast(u, kinds', project, b, i, k)
    requires forall i :: 0 <= i < |project| ==>
               ItemValue(s, kinds(project[i].alias), project[i], b) == ItemValue(u, kinds'(project[i].alias), project[i], b)
    ensures ProjectionIs(u, kinds', project, b, values)
  {
  }

  lemma SameRecords(
      s: Source, u: Source, kinds: string -> bool, kinds': string -> bool, project: seq<ReturnItem>, b: Binding,
      m: Message)
    requires AgreeOnRow(s, u, b, project, kinds)
    requires NodesAre(s, kinds, project, b, m.nodes) && EdgesAre(s, kinds, project, b, m.edges)
    requires forall a :: ShowsNode(s, kinds, project, b, a) <==> ShowsNode(u, kinds', project, b, a)
    requires forall a :: ShowsEdge(s, kinds, project, b, a) <==> ShowsEdge(u, kinds', project, b, a)
    ensures NodesAre(u, kinds', project, b, m.nodes) && EdgesAre(u, kinds', project, b, m.edges)
  {
    forall a | ShowsNode(s, kinds, project, b, a) ensures s.nodeOf(b.nodes[a]) == u.nodeOf(b.nodes[a]) {
      assert ReturnItem(a, None) in project;
    }
    forall a | ShowsEdge(s, kinds, project, b, a) ensures s.edgeOf(b.edges[a]) == u.edgeOf(b.edges[a]) {
      assert ReturnItem(a, None) in project;
    }
  }

  /** Two codec passes write the fields one pass writes. */
  lemma FieldsArrive(ps: Properties)
    ensures PropertiesToProto(Transported(ps)) == PropertiesToProto(ps)
  {
    TransportedLaws(ps);
  }

  /** The fields carry the record's properties, all but lists and nulls. */
  ghost predicate CarriesRecord(fields: map<string, ProtoValue>, properties: Properties) {
    && (forall n :: n in fields <==> n in properties && !properties[n].List? && !properties[n].Null?)
    && (forall n :: n in fields ==> CarriesValue(fields[n], properties[n]))
  }

  lemma FieldsCarry(properties: Properties)
    ensures CarriesRecord(PropertiesToProto(properties), properties)
  {
    forall n | n in properties
      ensures ValueToProto(properties[n]).Some? ==> CarriesValue(ValueToProto(properties[n]).value, properties[n])
      ensures ValueToProto(properties[n]).None? <==> properties[n].List? || properties[n].Null?
    {
      var sent := ValueToProto(properties[n]);
      ValueToProtoIff(properties[n], if sent.Some? then sent.value else ProtoValue(None));
    }
  }

  /** A bare item projects the id, as a signed integer; `alias.property` carries the stored
      value, unless it is absent, a list or null. */
  ghost predicate Projects(value: Option<ProtoValue>, id: nat, properties: Properties, item: ReturnItem) {
    if item.property.None? then
      && value.Some? && value.value.kind.Some? && value.value.kind.value.Int64Value?
      && (id < 0x8000_0000_0000_0000 ==> value.value.kind.value.i == id)
      && (0x8000_0000_0000_0000 <= id < U64_MODULUS ==> value.value.kind.value.i == id - U64_MODULUS)
    else
      var p := item.property.value;
      && (value.Some? <==> p in properties && !properties[p].List? && !properties[p].Null?)
      && (value.Some? ==> CarriesValue(value.value, properties[p]))
  }

  lemma RecordProjects(properties: Properties, property: string)
    ensures RecordValue(properties, property).Some? <==>
              property in properties && !properties[property].List? && !properties[property].Null?
    ensures RecordValue(properties, property).Some? ==>
      CarriesValue(RecordValue(properties, property).value, properties[property])
  {
    if property in properties {
      var sent := ValueToProto(properties[property]);
      ValueToProtoIff(properties[property], if sent.Some? then sent.value else ProtoValue(None));
    }
  }

  /** What a client reads of a node is its row: the label, the id, and each property that is
      neither a list nor null, under `alias` and under `alias.property` alike. */
  lemma ClientReadsRow(w: World, row: NodeRow, item: ReturnItem, b: Binding)
    requires UniqueIds(w.t) && row in w.t.nodes && Held(w, row.id) && item.alias in b.nodes
             && b.nodes[item.alias] == row.id
    ensures FromTables(w).nodeOf(row.id).Some?
    ensures var record := NodeRecordToProto(FromTables(w).nodeOf(row.id).value);
            record.name == row.labelName && CarriesRecord(record.fields, row.properties)
    ensures Projects(ItemValue(FromTables(w), false, item, b), row.id.raw, row.properties, item)
  {
    NodePropsUnique(w, row);
    var record := NodeRecord(row.labelName, Transported(row.properties));
    assert ArrivedNode(w, row.id, record);
    OneTableNode(w, row.id, record);
    FieldsArrive(row.properties);
    FieldsCarry(row.properties);
    TransportedLaws(row.properties);
    if item.property.Some? { RecordProjects(record.properties, item.property.value); }
  }

  lemma ClientReadsEdge(w: World, row: EdgeRow, item: ReturnItem, b: Binding)
    requires UniqueIds(w.t) && row in w.t.edges && Shown(w, row.src) && item.alias in b.edges
             && b.edges[item.alias] == row.id
    ensures FromTables(w).edgeOf(row.id).Some?
    ensures var record := EdgeRecordToProto(FromTables(w).edgeOf(row.id).value);
            record.name == row.edgeType && CarriesRecord(record.fields, row.properties)
    ensures Projects(ItemValue(FromTables(w), true, item, b), row.id.raw, row.properties, item)
  {
    EdgePropsUnique(w, row);
    var record := EdgeRecord(row.edgeType, Transported(row.properties));
    assert ArrivedEdge(w, row.id, record);
    OneTableEdge(w, row.id, record);
    FieldsArrive(row.properties);
    FieldsCarry(row.properties);
    TransportedLaws(row.properties);
    if item.property.Some? { RecordProjects(record.properties, item.property.value); }
  }
}
