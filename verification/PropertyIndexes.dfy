/** The ordered property index: construction and lookups (graph-index). */
module PropertyIndexes {
  import opened Basics
  import opened GraphModel

  /** Ordered first by variant, then by value: the derived `Ord`. */
  datatype PropertyKey = IntKey(i: int) | BoolKey(b: bool) | StrKey(s: string) | TimestampKey(micros: int)

  function VariantRank(k: PropertyKey): nat {
    match k
    case IntKey(_) => 0
    case BoolKey(_) => 1
    case StrKey(_) => 2
    case TimestampKey(_) => 3
  }

  function CompareKey(a: PropertyKey, b: PropertyKey): Ordering {
    match (a, b)
    case (IntKey(x), IntKey(y)) => CompareInt(x, y)
    case (BoolKey(x), BoolKey(y)) => CompareBool(x, y)
    case (StrKey(x), StrKey(y)) => CompareStr(x, y)
    case (TimestampKey(x), TimestampKey(y)) => CompareInt(x, y)
    case _ => CompareInt(VariantRank(a), VariantRank(b))
  }

  lemma CompareKeyLaws(a: PropertyKey, b: PropertyKey)
    ensures CompareKey(b, a) == Reverse(CompareKey(a, b))
    ensures CompareKey(a, b) == Equal <==> a == b
  {
    if a.StrKey? && b.StrKey? {
      CompareSeqFlip(a.s, b.s, CHAR_RANK);
      CompareStrEqual(a.s, b.s);
    }
  }

  lemma CompareKeyTransitive(a: PropertyKey, b: PropertyKey, c: PropertyKey)
    requires CompareKey(a, b) == Less && CompareKey(b, c) == Less
    ensures CompareKey(a, c) == Less
  {
    if a.StrKey? && b.StrKey? && c.StrKey? {
      CompareSeqTransitive(a.s, b.s, c.s, CHAR_RANK);
      if CompareKey(a, c) == Equal {
        CompareKeyLaws(a, c);
        CompareKeyLaws(a, b);
      }
    }
  }

  /** Integers before booleans before text before time stamps; within a variant by value. */
  ghost predicate KeyPrecedes(a: PropertyKey, b: PropertyKey) {
    match a
    case IntKey(x) => if b.IntKey? then x < b.i else true
    case BoolKey(x) => if b.BoolKey? then !x && b.b else b.StrKey? || b.TimestampKey?
    case StrKey(x) => if b.StrKey? then TextBefore(x, b.s) else b.TimestampKey?
    case TimestampKey(x) => b.TimestampKey? && x < b.micros
  }

  lemma KeyOrderIff(a: PropertyKey, b: PropertyKey)
    ensures CompareKey(a, b) == Less <==> KeyPrecedes(a, b)
    ensures CompareKey(a, b) == Greater <==> KeyPrecedes(b, a)
  {
    if a.StrKey? && b.StrKey? { CompareStrMeans(a.s, b.s); }
  }

  /** Values without a well-ordered key are never indexed. */
  function KeyOfValue(value: PropertyValue): Option<PropertyKey> {
    match value
    case Int64(v) => Some(IntKey(v))
    case Bool(v) => Some(BoolKey(v))
    case Str(v) => Some(StrKey(v))
    case Timestamp(v) => Some(TimestampKey(v))
    case _ => None
  }

  /** The key has the value's own variant and the value. */
  predicate IsKeyOf(key: PropertyKey, value: PropertyValue) {
    || (value.Int64? && key == IntKey(value.i))
    || (value.Bool? && key == BoolKey(value.b))
    || (value.Str? && key == StrKey(value.s))
    || (value.Timestamp? && key == TimestampKey(value.micros))
  }

  lemma KeyOfValueIff(key: PropertyKey, value: PropertyValue)
    ensures KeyOfValue(value) == Some(key) <==> IsKeyOf(key, value)
    ensures KeyOfValue(value).None? <==> value.Float64? || value.Bytes? || value.List? || value.Null?
  {
  }

  /** A `BTreeMap` from key to node list, as the ascending sequence of its entries. */
  datatype Bucket = Bucket(key: PropertyKey, ids: seq<NodeId>)

  type Tree = seq<Bucket>

  ghost predicate Ascending(tree: Tree) {
    forall i, j :: 0 <= i < j < |tree| ==> CompareKey(tree[i].key, tree[j].key) == Less
  }

  function TreeGet(tree: Tree, key: PropertyKey): seq<NodeId> {
    if tree == [] then [] else if tree[0].key == key then tree[0].ids else TreeGet(tree[1..], key)
  }

  /** `entry(key).or_default().push(id)` */
  function TreePush(tree: Tree, key: PropertyKey, id: NodeId): Tree {
    if tree == [] then [Bucket(key, [id])]
    else
      match CompareKey(key, tree[0].key)
      case Less => [Bucket(key, [id])] + tree
      case Equal => [Bucket(tree[0].key, tree[0].ids + [id])] + tree[1..]
      case Greater => [tree[0]] + TreePush(tree[1..], key, id)
  }

  lemma {:induction false} TreeGetAbsent(tree: Tree, key: PropertyKey)
    requires forall i :: 0 <= i < |tree| ==> tree[i].key != key
    ensures TreeGet(tree, key) == []
  {
    if tree != [] { TreeGetAbsent(tree[1..], key); }
  }

  lemma {:induction false} TreeGetAt(tree: Tree, i: nat)
    requires Ascending(tree) && i < |tree|
    ensures TreeGet(tree, tree[i].key) == tree[i].ids
  {
    if i > 0 {
      CompareKeyLaws(tree[0].key, tree[i].key);
      TreeGetAt(tree[1..], i - 1);
    }
  }

  lemma {:induction false} TreePushKeys(tree: Tree, key: PropertyKey, id: NodeId)
    ensures forall b :: b in TreePush(tree, key, id) ==>
              b.key == key || exists c :: c in tree && c.key == b.key
  {
    if tree != [] {
      CompareKeyLaws(key, tree[0].key);
      if CompareKey(key, tree[0].key) == Greater {
        TreePushKeys(tree[1..], key, id);
        forall b | b in TreePush(tree, key, id)
          ensures b.key == key || exists c :: c in tree && c.key == b.key
        {
          if b != tree[0] {
            assert b in TreePush(tree[1..], key, id);
            if b.key != key {
              var c :| c in tree[1..] && c.key == b.key;
              assert c in tree;
            }
          }
        }
      }
    }
  }

  lemma {:induction false} TreePushAscends(tree: Tree, key: PropertyKey, id: NodeId)
    requires Ascending(tree)
    ensures Ascending(TreePush(tree, key, id))
  {
    if tree != [] {
      CompareKeyLaws(key, tree[0].key);
      match CompareKey(key, tree[0].key) {
        case Less =>
          forall j | 0 <= j < |tree| ensures CompareKey(key, tree[j].key) == Less {
            if j > 0 { CompareKeyTransitive(key, tree[0].key, tree[j].key); }
          }
        case Equal =>
        case Greater =>
          var rest := TreePush(tree[1..], key, id);
          TreePushAscends(tree[1..], key, id);
          TreePushKeys(tree[1..], key, id);
          forall j | 0 <= j < |rest| ensures CompareKey(tree[0].key, rest[j].key) == Less {
            CompareKeyLaws(tree[0].key, key);
            if rest[j].key != key {
              var c :| c in tree[1..] && c.key == rest[j].key;
            }
          }
      }
    }
  }

  lemma {:induction false} TreePushGets(tree: Tree, key: PropertyKey, id: NodeId, k: PropertyKey)
    requires Ascending(tree)
    ensures TreeGet(TreePush(tree, key, id), k) == TreeGet(tree, k) + (if k == key then [id] else [])
  {
    if tree != [] {
      var pushed := TreePush(tree, key, id);
      CompareKeyLaws(key, tree[0].key);
      match CompareKey(key, tree[0].key) {
        case Less =>
          forall i | 0 <= i < |tree| ensures tree[i].key != key {
            if i > 0 { CompareKeyTransitive(key, tree[0].key, tree[i].key); }
            CompareKeyLaws(key, tree[i].key);
          }
          TreeGetAbsent(tree, key);
          assert pushed[1..] == tree;
        case Equal =>
          assert pushed[1..] == tree[1..];
        case Greater =>
          TreePushGets(tree[1..], key, id, k);
          assert pushed[1..] == TreePush(tree[1..], key, id);
      }
    }
  }

  lemma TreePushLaws(tree: Tree, key: PropertyKey, id: NodeId, k: PropertyKey)
    requires Ascending(tree)
    ensures Ascending(TreePush(tree, key, id))
    ensures TreeGet(TreePush(tree, key, id), k) == TreeGet(tree, k) + (if k == key then [id] else [])
  {
    TreePushAscends(tree, key, id);
    TreePushGets(tree, key, id, k);
  }

  datatype PropertyIndex = PropertyIndex(byKey: map<(string, string), Tree>)

  ghost predicate ValidIndex(index: PropertyIndex) {
    forall lp :: lp in index.byKey ==> Ascending(index.byKey[lp])
  }

  function TreeOf(index: PropertyIndex, labelName: string, property: string): Tree {
    if (labelName, property) in index.byKey then index.byKey[(labelName, property)] else []
  }

  function LookupEq(index: PropertyIndex, labelName: string, property: string, key: PropertyKey): seq<NodeId> {
    TreeGet(TreeOf(index, labelName, property), key)
  }

  datatype Bound = Included(key: PropertyKey) | Excluded(key: PropertyKey) | Unbounded

  predicate AboveLow(lo: Bound, k: PropertyKey) {
    match lo
    case Included(b) => CompareKey(b, k) != Greater
    case Excluded(b) => CompareKey(b, k) == Less
    case Unbounded => true
  }

  predicate BelowHigh(hi: Bound, k: PropertyKey) {
    match hi
    case Included(b) => CompareKey(k, b) != Greater
    case Excluded(b) => CompareKey(k, b) == Less
    case Unbounded => true
  }

  function TreeRange(tree: Tree, lo: Bound, hi: Bound): seq<NodeId> {
    if tree == [] then []
    else (if AboveLow(lo, tree[0].key) && BelowHigh(hi, tree[0].key) then tree[0].ids else []) + TreeRange(tree[1..], lo, hi)
  }

  function LookupRange(index: PropertyIndex, labelName: string, property: string, lo: Bound, hi: Bound): seq<NodeId> {
    TreeRange(TreeOf(index, labelName, property), lo, hi)
  }

  // ---------------------------------------------------------------- reference scan

  /** The row is one the index must list under `key` for this label and property,
      on account of the property declaration `def`. */
  predicate Contributes(def: PropertyDef, row: NodeRow, property: string, key: PropertyKey) {
    def.indexed && def.name == property && property in row.properties
    && KeyOfValue(row.properties[property]) == Some(key)
  }

  /** The index entries one row yields, one for each declaration it matches. */
  function RowEntries(defs: seq<PropertyDef>, row: NodeRow, property: string, key: PropertyKey): seq<NodeId> {
    if defs == [] then []
    else RowEntries(defs[..|defs| - 1], row, property, key)
         + (if Contributes(defs[|defs| - 1], row, property, key) then [row.id] else [])
  }

  function DefsOf(schema: Schema, labelName: string): seq<PropertyDef> {
    if labelName in schema.nodes then schema.nodes[labelName].properties else []
  }

  /** A plain scan of `rows` for nodes of the label whose property has that key. */
  function ScanEq(
      schema: Schema, rows: seq<NodeRow>, labelName: string, property: string, key: PropertyKey): seq<NodeId> {
    if rows == [] then []
    else
      var last := rows[|rows| - 1];
      ScanEq(schema, rows[..|rows| - 1], labelName, property, key)
      + (if last.labelName == labelName then RowEntries(DefsOf(schema, labelName), last, property, key) else [])
  }

  ghost predicate IndexIsScan(index: PropertyIndex, schema: Schema, rows: seq<NodeRow>) {
    && ValidIndex(index)
    && forall l, p, k :: LookupEq(index, l, p, k) == ScanEq(schema, rows, l, p, k)
  }

  /** One declaration of one row: what the inner loop of the builder does. */
  function PushRow(index: PropertyIndex, def: PropertyDef, row: NodeRow): PropertyIndex {
    if !def.indexed || def.name !in row.properties || KeyOfValue(row.properties[def.name]).None? then index
    else
      var key := KeyOfValue(row.properties[def.name]).value;
      PropertyIndex(index.byKey[(row.labelName, def.name) := TreePush(TreeOf(index, row.labelName, def.name), key, row.id)])
  }

  lemma PushRowLaws(index: PropertyIndex, def: PropertyDef, row: NodeRow, l: string, p: string, k: PropertyKey)
    requires ValidIndex(index)
    ensures ValidIndex(PushRow(index, def, row))
    ensures LookupEq(PushRow(index, def, row), l, p, k) ==
            LookupEq(index, l, p, k) + (if row.labelName == l && Contributes(def, row, p, k) then [row.id] else [])
  {
    if def.indexed && def.name in row.properties && KeyOfValue(row.properties[def.name]).Some? {
      TreePushLaws(TreeOf(index, row.labelName, def.name), KeyOfValue(row.properties[def.name]).value, row.id, k);
    }
  }

  /** Rows in `rows` are indexed, and so are the declarations `defs` of the next row. */
  ghost predicate PartlyScanned(
      index: PropertyIndex, schema: Schema, rows: seq<NodeRow>, row: NodeRow, defs: seq<PropertyDef>)
  {
    && ValidIndex(index)
    && forall l, p, k ::
         LookupEq(index, l, p, k)
         == ScanEq(schema, rows, l, p, k) + (if row.labelName == l then RowEntries(defs, row, p, k) else [])
  }

  lemma PushRowKeepsScan(
      index: PropertyIndex, schema: Schema, rows: seq<NodeRow>, row: NodeRow, defs: seq<PropertyDef>, def: PropertyDef)
    requires PartlyScanned(index, schema, rows, row, defs)
    ensures PartlyScanned(PushRow(index, def, row), schema, rows, row, defs + [def])
  {
    assert (defs + [def])[..|defs|] == defs;
    forall l, p, k
      ensures LookupEq(PushRow(index, def, row), l, p, k)
              == ScanEq(schema, rows, l, p, k) + (if row.labelName == l then RowEntries(defs + [def], row, p, k) else [])
    {
      PushRowLaws(index, def, row, l, p, k);
    }
    PushRowLaws(index, def, row, "", "", IntKey(0));
  }

  /** Only properties the schema declares `@indexed` enter the index. */
  method BuildPropertyIndex(schema: Schema, nodes: seq<NodeRow>) returns (index: PropertyIndex)
    ensures IndexIsScan(index, schema, nodes)
  {
    index := PropertyIndex(map[]);
    for n := 0 to |nodes|
      invariant IndexIsScan(index, schema, nodes[..n])
    {
      var row := nodes[n];
      TakeNext(nodes, n);
      if row.labelName in schema.nodes {
        var defs := schema.nodes[row.labelName].properties;
        for d := 0 to |defs|
          invariant PartlyScanned(index, schema, nodes[..n], row, defs[..d])
        {
          PushRowKeepsScan(index, schema, nodes[..n], row, defs[..d], defs[d]);
          index := PushRow(index, defs[d], row);
          TakeNext(defs, d);
        }
        assert defs[..|defs|] == defs;
      }
    }
    assert nodes[..|nodes|] == nodes;
  }

  // ---------------------------------------------------------------- what lookups return

  /** The node carries that key under an indexed property of its label. */
  ghost predicate Carries(schema: Schema, row: NodeRow, labelName: string, property: string, key: PropertyKey) {
    row.labelName == labelName && exists d :: d in DefsOf(schema, labelName) && Contributes(d, row, property, key)
  }

  lemma {:induction false} RowEntriesMembers(defs: seq<PropertyDef>, row: NodeRow, property: string, key: PropertyKey)
    ensures forall x :: x in RowEntries(defs, row, property, key) ==> x == row.id
    ensures RowEntries(defs, row, property, key) != [] <==> exists d :: d in defs && Contributes(d, row, property, key)
  {
    if defs != [] {
      RowEntriesMembers(defs[..|defs| - 1], row, property, key);
      FrontAndLast(defs);
    }
  }

  lemma {:induction false} ScanEqMembers(
      schema: Schema, rows: seq<NodeRow>, l: string, p: string, k: PropertyKey, x: NodeId)
    ensures x in ScanEq(schema, rows, l, p, k) <==> exists r :: r in rows && r.id == x && Carries(schema, r, l, p, k)
  {
    if rows != [] {
      var front, last := rows[..|rows| - 1], rows[|rows| - 1];
      ScanEqMembers(schema, front, l, p, k, x);
      FrontAndLast(rows);
      RowEntriesMembers(DefsOf(schema, l), last, p, k);
      if last.labelName == l && RowEntries(DefsOf(schema, l), last, p, k) != [] {
        assert RowEntries(DefsOf(schema, l), last, p, k)[0] in RowEntries(DefsOf(schema, l), last, p, k);
      }
    }
  }

  ghost predicate PropertyNamesUnique(defs: seq<PropertyDef>) {
    forall i, j :: 0 <= i < j < |defs| ==> defs[i].name != defs[j].name
  }

  lemma {:induction false} RowEntriesAtMostOne(defs: seq<PropertyDef>, row: NodeRow, property: string, key: PropertyKey)
    requires PropertyNamesUnique(defs)
    ensures |RowEntries(defs, row, property, key)| <= 1
  {
    if defs != [] {
      RowEntriesAtMostOne(defs[..|defs| - 1], row, property, key);
      RowEntriesMembers(defs[..|defs| - 1], row, property, key);
    }
  }

  /** Each matching node is listed once. */
  lemma {:induction false} ScanEqNoDup(schema: Schema, rows: seq<NodeRow>, l: string, p: string, k: PropertyKey)
    requires RowIdsUnique(rows) && PropertyNamesUnique(DefsOf(schema, l))
    ensures NoDup(ScanEq(schema, rows, l, p, k))
  {
    if rows != [] {
      var front, last := rows[..|rows| - 1], rows[|rows| - 1];
      ScanEqNoDup(schema, front, l, p, k);
      ScanEqMembers(schema, front, l, p, k, last.id);
      RowEntriesAtMostOne(DefsOf(schema, l), last, p, k);
      RowEntriesMembers(DefsOf(schema, l), last, p, k);
      NoDupConcat(
        ScanEq(schema, front, l, p, k), if last.labelName == l then RowEntries(DefsOf(schema, l), last, p, k) else []);
    }
  }

  /** The entries below the first bucket are those of the remaining keys. */
  lemma TreeTail(tree: Tree, k: PropertyKey)
    requires Ascending(tree) && tree != []
    ensures TreeGet(tree[1..], k) == if k == tree[0].key then [] else TreeGet(tree, k)
  {
    forall n | 0 <= n < |tree[1..]|
      ensures tree[1..][n].key != tree[0].key
    {
      CompareKeyLaws(tree[0].key, tree[1..][n].key);
    }
    if k == tree[0].key { TreeGetAbsent(tree[1..], k); }
  }

  ghost predicate OneKeyPerNode(tree: Tree) {
    forall k, k', x :: x in TreeGet(tree, k) && x in TreeGet(tree, k') ==> k == k'
  }

  lemma OneKeyInTail(tree: Tree)
    requires Ascending(tree) && tree != [] && OneKeyPerNode(tree)
    ensures OneKeyPerNode(tree[1..])
  {
    forall k { TreeTail(tree, k); }
  }

  lemma {:induction false} TreeRangeMembers(tree: Tree, lo: Bound, hi: Bound, x: NodeId)
    requires Ascending(tree)
    ensures x in TreeRange(tree, lo, hi) <==>
            exists k :: AboveLow(lo, k) && BelowHigh(hi, k) && x in TreeGet(tree, k)
  {
    if tree != [] {
      TreeRangeMembers(tree[1..], lo, hi, x);
      forall k { TreeTail(tree, k); }
    }
  }

  /** Entries come out in ascending key order, whichever keys they are listed under. */
  lemma {:induction false} TreeRangeAscending(
      tree: Tree, lo: Bound, hi: Bound, i: nat, j: nat, ki: PropertyKey, kj: PropertyKey)
    requires Ascending(tree)
    requires OneKeyPerNode(tree)
    requires i < j < |TreeRange(tree, lo, hi)|
    requires TreeRange(tree, lo, hi)[i] in TreeGet(tree, ki) && TreeRange(tree, lo, hi)[j] in TreeGet(tree, kj)
    ensures CompareKey(ki, kj) != Greater
  {
    var k0, rest := tree[0].key, tree[1..];
    var head := if AboveLow(lo, k0) && BelowHigh(hi, k0) then tree[0].ids else [];
    var tail := TreeRange(rest, lo, hi);
    OneKeyInTail(tree);
    TreeTail(tree, ki);
    TreeTail(tree, kj);
    if i < |head| {
      assert TreeRange(tree, lo, hi)[i] == head[i];
      assert head[i] in TreeGet(tree, k0);
      if kj != k0 { KeyListedAbove(rest, kj, k0); } else { CompareKeyLaws(k0, k0); }
    } else {
      ListedInTail(tree, lo, hi, i - |head|, ki);
      ListedInTail(tree, lo, hi, j - |head|, kj);
      TreeRangeAscending(rest, lo, hi, i - |head|, j - |head|, ki, kj);
    }
  }

  lemma ListedInTail(tree: Tree, lo: Bound, hi: Bound, i: nat, k: PropertyKey)
    requires Ascending(tree) && tree != [] && OneKeyPerNode(tree)
    requires i < |TreeRange(tree[1..], lo, hi)| && TreeRange(tree[1..], lo, hi)[i] in TreeGet(tree, k)
    ensures TreeRange(tree[1..], lo, hi)[i] in TreeGet(tree[1..], k)
  {
    var x := TreeRange(tree[1..], lo, hi)[i];
    TreeRangeMembers(tree[1..], lo, hi, x);
    var k' :| x in TreeGet(tree[1..], k');
    TreeTail(tree, k');
  }

  lemma {:induction false} KeyListedAbove(tree: Tree, k: PropertyKey, low: PropertyKey)
    requires forall n :: 0 <= n < |tree| ==> CompareKey(low, tree[n].key) == Less
    requires TreeGet(tree, k) != []
    ensures CompareKey(low, k) == Less
  {
    if tree[0].key != k { KeyListedAbove(tree[1..], k, low); }
  }

  lemma {:induction false} TreeRangeNoDup(tree: Tree, lo: Bound, hi: Bound)
    requires Ascending(tree)
    requires OneKeyPerNode(tree)
    requires forall k :: NoDup(TreeGet(tree, k))
    ensures NoDup(TreeRange(tree, lo, hi))
  {
    if tree != [] {
      var k0, rest := tree[0].key, tree[1..];
      forall k { TreeTail(tree, k); }
      TreeRangeNoDup(rest, lo, hi);
      forall x | x in tree[0].ids ensures x !in TreeRange(rest, lo, hi) {
        TreeRangeMembers(rest, lo, hi, x);
        assert x in TreeGet(tree, k0);
      }
      assert NoDup(TreeGet(tree, k0));
      NoDupConcat(if AboveLow(lo, k0) && BelowHigh(hi, k0) then tree[0].ids else [], TreeRange(rest, lo, hi));
    }
  }

  /** What a range lookup on a built index means: each node of the label whose indexed
      property has a key in bounds, once, ascending by key. */
  lemma RangeLookupIsScan(
      index: PropertyIndex, schema: Schema, rows: seq<NodeRow>, l: string, p: string, lo: Bound, hi: Bound)
    requires IndexIsScan(index, schema, rows)
    ensures forall x :: x in LookupRange(index, l, p, lo, hi) <==>
              exists r, k ::
                r in rows && r.id == x && Carries(schema, r, l, p, k) && AboveLow(lo, k) && BelowHigh(hi, k)
    ensures RowIdsUnique(rows) && PropertyNamesUnique(DefsOf(schema, l)) ==>
              && NoDup(LookupRange(index, l, p, lo, hi))
              && forall i, j, ri, rj, ki, kj ::
                   0 <= i < j < |LookupRange(index, l, p, lo, hi)|
                   && ri in rows && ri.id == LookupRange(index, l, p, lo, hi)[i] && Carries(schema, ri, l, p, ki)
                   && rj in rows && rj.id == LookupRange(index, l, p, lo, hi)[j] && Carries(schema, rj, l, p, kj)
                   ==> CompareKey(ki, kj) != Greater
  {
    var tree := TreeOf(index, l, p);
    assert forall k :: TreeGet(tree, k) == LookupEq(index, l, p, k);
    forall x ensures x in LookupRange(index, l, p, lo, hi) <==>
              exists r, k ::
                r in rows && r.id == x && Carries(schema, r, l, p, k) && AboveLow(lo, k) && BelowHigh(hi, k)
    {
      TreeRangeMembers(tree, lo, hi, x);
      forall k { ScanEqMembers(schema, rows, l, p, k, x); }
    }
    if RowIdsUnique(rows) && PropertyNamesUnique(DefsOf(schema, l)) {
      forall k, k', x | x in TreeGet(tree, k) && x in TreeGet(tree, k') ensures k == k' {
        ScanEqMembers(schema, rows, l, p, k, x);
        ScanEqMembers(schema, rows, l, p, k', x);
      }
      forall k ensures NoDup(TreeGet(tree, k)) { ScanEqNoDup(schema, rows, l, p, k); }
      TreeRangeNoDup(tree, lo, hi);
      var found := TreeRange(tree, lo, hi);
      forall i, j, ri, rj, ki, kj |
        0 <= i < j < |found|
        && ri in rows && ri.id == found[i] && Carries(schema, ri, l, p, ki)
        && rj in rows && rj.id == found[j] && Carries(schema, rj, l, p, kj)
        ensures CompareKey(ki, kj) != Greater
      {
        ScanEqMembers(schema, rows, l, p, ki, ri.id);
        ScanEqMembers(schema, rows, l, p, kj, rj.id);
        TreeRangeAscending(tree, lo, hi, i, j, ki, kj);
      }
    }
  }
}
