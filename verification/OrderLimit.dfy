/** ORDER BY and LIMIT over the gathered rows (graph-coordinator's service.rs). */
module OrderLimit {
  import opened Basics
  import opened Sorting
  import opened GraphModel
  import opened Plan
  import opened IndexBuilder
  import opened QueryAst
  import opened Denotation

  const BYTE_RANK: byte -> int := (b: byte) => b as int

  // ---------------------------------------------------------------- comparing keys

  /** Values of different variants, and doubles beside a NaN, count as equal. */
  function ComparePropertyValues(a: PropertyValue, b: PropertyValue): Ordering {
    match (a, b)
    case (Null, Null) => Equal
    case (Null, _) => Greater
    case (_, Null) => Less
    case (Int64(x), Int64(y)) => CompareInt(x, y)
    case (Float64(x), Float64(y)) => if PartialCompare(x, y).Some? then PartialCompare(x, y).value else Equal
    case (Bool(x), Bool(y)) => CompareBool(x, y)
    case (Str(x), Str(y)) => CompareStr(x, y)
    case (Timestamp(x), Timestamp(y)) => CompareInt(x, y)
    case (Bytes(x), Bytes(y)) => CompareSeq(x, y, BYTE_RANK)
    case _ => Equal
  }

  /** A row without the key comes after every row with one. */
  function CompareKeys(a: Option<PropertyValue>, b: Option<PropertyValue>): Ordering {
    match (a, b)
    case (Some(x), Some(y)) => ComparePropertyValues(x, y)
    case (Some(_), None) => Less
    case (None, Some(_)) => Greater
    case (None, None) => Equal
  }

  /** DESC reverses the whole comparison, absent keys included. */
  function KeyLeq(dir: SortDirection): (Option<PropertyValue>, Option<PropertyValue>) -> bool {
    (a, b) => (if dir.Asc? then CompareKeys(a, b) else Reverse(CompareKeys(a, b))) != Greater
  }

  // ---------------------------------------------------------------- what the order is

  ghost predicate BytesBefore(a: seq<byte>, b: seq<byte>) {
    exists k: nat :: k <= |a| && k < |b| && a[..k] == b[..k] && (k < |a| ==> a[k] < b[k])
  }

  /** The first value is smaller than the second, of its own variant, or the second is null. */
  ghost predicate ValueBefore(a: PropertyValue, b: PropertyValue) {
    || (!a.Null? && b.Null?)
    || (a.Int64? && b.Int64? && a.i < b.i)
    || (a.Float64? && b.Float64? && a.f.Num? && b.f.Num? && a.f.rank < b.f.rank)
    || (a.Bool? && b.Bool? && !a.b && b.b)
    || (a.Str? && b.Str? && TextBefore(a.s, b.s))
    || (a.Timestamp? && b.Timestamp? && a.micros < b.micros)
    || (a.Bytes? && b.Bytes? && BytesBefore(a.bytes, b.bytes))
  }

  /** A row with the key comes before one without. */
  ghost predicate KeyBefore(a: Option<PropertyValue>, b: Option<PropertyValue>) {
    a.Some? && (b.None? || ValueBefore(a.value, b.value))
  }

  lemma CompareBytesMeans(a: seq<byte>, b: seq<byte>)
    ensures CompareSeq(a, b, BYTE_RANK) == Less <==> BytesBefore(a, b)
    ensures CompareSeq(a, b, BYTE_RANK) == Greater <==> BytesBefore(b, a)
    ensures CompareSeq(a, b, BYTE_RANK) == Equal <==> a == b
  {
    CompareSeqMeans(a, b, BYTE_RANK);
    BytesAreSeq(a, b);
    BytesAreSeq(b, a);
  }

  lemma BytesAreSeq(a: seq<byte>, b: seq<byte>)
    ensures BytesBefore(a, b) <==> SeqBefore(a, b, BYTE_RANK)
  {
    if k: nat :| k <= |a| && k < |b| && a[..k] == b[..k] && (k < |a| ==> a[k] < b[k]) {
      assert PartAt(a, b, BYTE_RANK, k);
    }
    if k: nat :| PartAt(a, b, BYTE_RANK, k) {
      assert k <= |a| && k < |b| && a[..k] == b[..k] && (k < |a| ==> a[k] < b[k]);
    }
  }

  lemma CompareValuesMeans(a: PropertyValue, b: PropertyValue)
    ensures ComparePropertyValues(a, b) == Less <==> ValueBefore(a, b)
    ensures ComparePropertyValues(a, b) == Greater <==> ValueBefore(b, a)
  {
    if a.Str? && b.Str? { CompareStrMeans(a.s, b.s); }
    if a.Bytes? && b.Bytes? { CompareBytesMeans(a.bytes, b.bytes); }
  }

  /** Two keys stand the wrong way round. */
  ghost predicate OutOfOrder(dir: SortDirection, a: Option<PropertyValue>, b: Option<PropertyValue>) {
    if dir.Asc? then KeyBefore(b, a) else KeyBefore(a, b)
  }

  /** The comparator lets `a` stand before `b` unless that is the wrong way round. */
  lemma KeyLeqIff(dir: SortDirection, a: Option<PropertyValue>, b: Option<PropertyValue>)
    ensures KeyLeq(dir)(a, b) <==> !OutOfOrder(dir, a, b)
  {
    if a.Some? && b.Some? { CompareValuesMeans(a.value, b.value); }
  }

  /** The first value is at most the second, in the order of their variant. */
  ghost predicate AtMost(a: PropertyValue, b: PropertyValue)
    requires SameKind(a, b)
  {
    match a
    case Int64(x) => x <= b.i
    case Float64(x) => x.rank <= b.f.rank
    case Bool(x) => !x || b.b
    case Str(x) => x == b.s || TextBefore(x, b.s)
    case Timestamp(x) => x <= b.micros
    case Bytes(x) => x == b.bytes || BytesBefore(x, b.bytes)
  }

  /** Ascending keys of one kind do not fall, descending ones do not rise. */
  lemma OrderOfKind(dir: SortDirection, a: PropertyValue, b: PropertyValue)
    requires SameKind(a, b)
    ensures !OutOfOrder(dir, Some(a), Some(b)) <==> if dir.Asc? then AtMost(a, b) else AtMost(b, a)
  {
    if a.Str? { CompareStrMeans(a.s, b.s); }
    if a.Bytes? { CompareBytesMeans(a.bytes, b.bytes); }
  }

  // ---------------------------------------------------------------- when it is a total preorder

  predicate IsConcrete(k: Option<PropertyValue>) {
    k.Some? && !k.value.Null?
  }

  /** Two values the comparator really orders: one variant, no NaN and no list. */
  predicate SameKind(a: PropertyValue, b: PropertyValue) {
    match (a, b)
    case (Int64(_), Int64(_)) => true
    case (Float64(x), Float64(y)) => x.Num? && y.Num?
    case (Bool(_), Bool(_)) => true
    case (Str(_), Str(_)) => true
    case (Timestamp(_), Timestamp(_)) => true
    case (Bytes(_), Bytes(_)) => true
    case _ => false
  }

  lemma CompareKeysFlip(a: Option<PropertyValue>, b: Option<PropertyValue>)
    ensures CompareKeys(b, a) == Reverse(CompareKeys(a, b))
  {
    if a.Some? && b.Some? && a.value.Str? && b.value.Str? { CompareSeqFlip(a.value.s, b.value.s, CHAR_RANK); }
    if a.Some? && b.Some? && a.value.Bytes? && b.value.Bytes? { CompareSeqFlip(a.value.bytes, b.value.bytes, BYTE_RANK); }
  }

  lemma SameKindTransitive(a: PropertyValue, b: PropertyValue, c: PropertyValue)
    requires SameKind(a, b) && SameKind(b, c)
    requires ComparePropertyValues(a, b) != Greater && ComparePropertyValues(b, c) != Greater
    ensures SameKind(a, c) && ComparePropertyValues(a, c) != Greater
  {
    if a.Str? { CompareSeqTransitive(a.s, b.s, c.s, CHAR_RANK); }
    if a.Bytes? { CompareSeqTransitive(a.bytes, b.bytes, c.bytes, BYTE_RANK); }
  }

  /** The comparator tells the two keys apart on account of their values. */
  predicate Distinguishes(a: Option<PropertyValue>, b: Option<PropertyValue>) {
    IsConcrete(a) && IsConcrete(b) && SameKind(a.value, b.value) && ComparePropertyValues(a.value, b.value) != Equal
  }

  /** As soon as two keys differ, all concrete keys are of their kind. */
  ghost predicate Sortable(keys: set<Option<PropertyValue>>) {
    forall a, b, c :: a in keys && b in keys && c in keys && Distinguishes(a, b) && IsConcrete(c) ==> SameKind(a.value, c.value)
  }

  lemma OnlyKindsDistinguish(a: Option<PropertyValue>, b: Option<PropertyValue>)
    requires IsConcrete(a) && IsConcrete(b) && CompareKeys(a, b) != Equal
    ensures Distinguishes(a, b)
  {
  }

  lemma AscTransitive(
      keys: set<Option<PropertyValue>>, a: Option<PropertyValue>, b: Option<PropertyValue>, c: Option<PropertyValue>)
    requires Sortable(keys) && a in keys && b in keys && c in keys
    requires CompareKeys(a, b) != Greater && CompareKeys(b, c) != Greater
    ensures CompareKeys(a, c) != Greater
  {
    if IsConcrete(a) && IsConcrete(b) && IsConcrete(c) && CompareKeys(a, c) == Greater {
      OnlyKindsDistinguish(a, c);
      CompareKeysFlip(a, c);
      OnlyKindsDistinguish(c, a);
      assert SameKind(a.value, b.value) && SameKind(c.value, b.value);
      SameKindTransitive(a.value, b.value, c.value);
    }
  }

  lemma SortableIsOrdered(keys: set<Option<PropertyValue>>, dir: SortDirection)
    requires Sortable(keys)
    ensures OrdersAll(KeyLeq(dir), keys)
  {
    forall a, b | a in keys && b in keys ensures KeyLeq(dir)(a, b) || KeyLeq(dir)(b, a) { CompareKeysFlip(a, b); }
    forall a, b, c | a in keys && b in keys && c in keys && KeyLeq(dir)(a, b) && KeyLeq(dir)(b, c)
      ensures KeyLeq(dir)(a, c)
    {
      CompareKeysFlip(a, b);
      CompareKeysFlip(b, c);
      CompareKeysFlip(a, c);
      if dir.Asc? { AscTransitive(keys, a, b, c); } else { AscTransitive(keys, c, b, a); }
    }
  }

  /** A key of another kind ties with both of two keys that differ. */
  lemma OtherKindTies(dir: SortDirection, a: Option<PropertyValue>, b: Option<PropertyValue>, c: Option<PropertyValue>)
    requires Distinguishes(a, b) && IsConcrete(c) && !SameKind(a.value, c.value)
    ensures KeyLeq(dir)(a, c) && KeyLeq(dir)(c, b) && KeyLeq(dir)(b, c) && KeyLeq(dir)(c, a)
    ensures !(KeyLeq(dir)(a, b) && KeyLeq(dir)(b, a))
  {
    CompareKeysFlip(a, b);
  }

  lemma OrderedIsSortable(keys: set<Option<PropertyValue>>, dir: SortDirection)
    requires OrdersAll(KeyLeq(dir), keys)
    ensures Sortable(keys)
  {
    forall a, b, c | a in keys && b in keys && c in keys && Distinguishes(a, b) && IsConcrete(c)
      ensures SameKind(a.value, c.value)
    {
      if !SameKind(a.value, c.value) { OtherKindTies(dir, a, b, c); }
    }
  }

  /** The comparator is a total preorder exactly on the sortable sets of keys: a NaN, a list
      or a second variant is harmless only while no two keys of a kind differ. */
  lemma TotalPreorderIff(keys: set<Option<PropertyValue>>, dir: SortDirection)
    ensures OrdersAll(KeyLeq(dir), keys) <==> Sortable(keys)
  {
    if Sortable(keys) { SortableIsOrdered(keys, dir); }
    if OrdersAll(KeyLeq(dir), keys) { OrderedIsSortable(keys, dir); }
  }

  /** The keys of one declared scalar type, without NaN, are sortable. */
  lemma HomogeneousIsSortable(keys: set<Option<PropertyValue>>)
    requires forall a, b :: a in keys && b in keys && IsConcrete(a) && IsConcrete(b) ==> SameKind(a.value, b.value)
    ensures Sortable(keys)
  {
  }

  // ---------------------------------------------------------------- sorting rows

  /** Hydrated records by id. */
  datatype Records = Records(nodes: map<NodeId, NodeRecord>, edges: map<EdgeId, EdgeRecord>)

  function KeyOfRow(h: Records, orderBy: OrderBy, isEdge: bool, b: Binding): Option<PropertyValue> {
    var record :=
      if isEdge then (if orderBy.alias in b.edges && b.edges[orderBy.alias] in h.edges then Some(h.edges[b.edges[orderBy.alias]].properties) else None)
      else if orderBy.alias in b.nodes && b.nodes[orderBy.alias] in h.nodes then Some(h.nodes[b.nodes[orderBy.alias]].properties)
      else None;
    if record.Some? && orderBy.property in record.value then Some(record.value[orderBy.property]) else None
  }

  function RowLeq(h: Records, orderBy: OrderBy, isEdge: bool): (Binding, Binding) -> bool {
    (a, b) => KeyLeq(orderBy.direction)(KeyOfRow(h, orderBy, isEdge, a), KeyOfRow(h, orderBy, isEdge, b))
  }

  ghost function KeysOf(h: Records, orderBy: OrderBy, isEdge: bool, rows: seq<Binding>): set<Option<PropertyValue>> {
    set b | b in rows :: KeyOfRow(h, orderBy, isEdge, b)
  }

  lemma RowsOrdered(h: Records, orderBy: OrderBy, isEdge: bool, rows: seq<Binding>)
    requires Sortable(KeysOf(h, orderBy, isEdge, rows))
    ensures OrdersAll(RowLeq(h, orderBy, isEdge), ToSet(rows))
  {
    var keys, leq := KeysOf(h, orderBy, isEdge, rows), KeyLeq(orderBy.direction);
    SortableIsOrdered(keys, orderBy.direction);
    forall b | b in ToSet(rows) ensures KeyOfRow(h, orderBy, isEdge, b) in keys {}
  }

  /** What the library sort promises: a permutation, and where the comparator is a total
      preorder on the keys the stable arrangement. */
  ghost predicate IsArrangement(sorted: seq<Binding>, rows: seq<Binding>, h: Records, orderBy: OrderBy, isEdge: bool) {
    && multiset(sorted) == multiset(rows)
    && (Sortable(KeysOf(h, orderBy, isEdge, rows)) ==> sorted == Sort(rows, RowLeq(h, orderBy, isEdge)))
  }

  method SortBindings(rows: seq<Binding>, orderBy: OrderBy, aliasIsEdge: map<string, bool>, h: Records)
    returns (sorted: seq<Binding>)
    ensures IsArrangement(sorted, rows, h, orderBy, orderBy.alias in aliasIsEdge && aliasIsEdge[orderBy.alias])
  {
    var isEdge := orderBy.alias in aliasIsEdge && aliasIsEdge[orderBy.alias];
    sorted := Sort(rows, RowLeq(h, orderBy, isEdge));
    SortPermutes(rows, RowLeq(h, orderBy, isEdge));
  }

  /** A stable sorted permutation of the rows. */
  lemma SortedRowsLaws(h: Records, orderBy: OrderBy, isEdge: bool, rows: seq<Binding>, x: Binding)
    requires Sortable(KeysOf(h, orderBy, isEdge, rows)) && x in rows
    ensures var leq := RowLeq(h, orderBy, isEdge);
            && multiset(Sort(rows, leq)) == multiset(rows)
            && SortedBy(Sort(rows, leq), leq)
            && Ties(Sort(rows, leq), x, leq) == Ties(rows, x, leq)
  {
    var leq := RowLeq(h, orderBy, isEdge);
    RowsOrdered(h, orderBy, isEdge, rows);
    assert ToSet([x] + rows) == ToSet(rows);
    SortPermutes(rows, leq);
    SortSorted(rows, leq);
    SortStable(rows, x, leq);
  }

  /** Of two sorted rows the earlier one does not stand the wrong way round: with values of
      one kind it has at most the later one's under ASC and at least it under DESC. */
  lemma SortedByValue(h: Records, orderBy: OrderBy, isEdge: bool, rows: seq<Binding>, i: nat, j: nat)
    requires Sortable(KeysOf(h, orderBy, isEdge, rows)) && i < j < |rows|
    ensures |Sort(rows, RowLeq(h, orderBy, isEdge))| == |rows|
    ensures var sorted := Sort(rows, RowLeq(h, orderBy, isEdge));
            var first, second := KeyOfRow(h, orderBy, isEdge, sorted[i]), KeyOfRow(h, orderBy, isEdge, sorted[j]);
            && !OutOfOrder(orderBy.direction, first, second)
            && (first.Some? && second.Some? && SameKind(first.value, second.value) ==>
                  if orderBy.direction.Asc? then AtMost(first.value, second.value) else AtMost(second.value, first.value))
  {
    var leq := RowLeq(h, orderBy, isEdge);
    var sorted := Sort(rows, leq);
    RowsOrdered(h, orderBy, isEdge, rows);
    SortSorted(rows, leq);
    SortPermutes(rows, leq);
    PermutationFacts(sorted, rows);
    assert leq(sorted[i], sorted[j]);
    var first, second := KeyOfRow(h, orderBy, isEdge, sorted[i]), KeyOfRow(h, orderBy, isEdge, sorted[j]);
    KeyLeqIff(orderBy.direction, first, second);
    if first.Some? && second.Some? && SameKind(first.value, second.value) {
      OrderOfKind(orderBy.direction, first.value, second.value);
    }
  }

  predicate LacksKey(k: Option<PropertyValue>) {
    k == None || k == Some(Null)
  }

  lemma LackingAtTheEnd(dir: SortDirection, a: Option<PropertyValue>, b: Option<PropertyValue>)
    requires KeyLeq(dir)(a, b)
    ensures dir.Asc? && LacksKey(a) ==> LacksKey(b)
    ensures dir.Desc? && LacksKey(b) ==> LacksKey(a)
  {
  }

  /** Rows without a value come last under ASC and first under DESC. */
  lemma RowsWithoutValue(h: Records, orderBy: OrderBy, isEdge: bool, rows: seq<Binding>, i: nat, j: nat)
    requires Sortable(KeysOf(h, orderBy, isEdge, rows)) && i < j < |rows|
    ensures |Sort(rows, RowLeq(h, orderBy, isEdge))| == |rows|
    ensures var first := KeyOfRow(h, orderBy, isEdge, Sort(rows, RowLeq(h, orderBy, isEdge))[i]);
            var second := KeyOfRow(h, orderBy, isEdge, Sort(rows, RowLeq(h, orderBy, isEdge))[j]);
            && (orderBy.direction.Asc? && LacksKey(first) ==> LacksKey(second))
            && (orderBy.direction.Desc? && LacksKey(second) ==> LacksKey(first))
  {
    var leq := RowLeq(h, orderBy, isEdge);
    var sorted := Sort(rows, leq);
    RowsOrdered(h, orderBy, isEdge, rows);
    SortSorted(rows, leq);
    SortPermutes(rows, leq);
    PermutationFacts(sorted, rows);
    assert leq(sorted[i], sorted[j]);
    LackingAtTheEnd(
      orderBy.direction, KeyOfRow(h, orderBy, isEdge, sorted[i]), KeyOfRow(h, orderBy, isEdge, sorted[j]));
  }

  // ---------------------------------------------------------------- LIMIT

  /** `truncate(limit)`, when there is a limit. */
  function Truncated(rows: seq<Binding>, limit: Option<nat>): seq<Binding> {
    if limit.Some? && limit.value < |rows| then rows[..limit.value] else rows
  }

  /** `sorted` is the row list before the cut. */
  method OrderAndLimit(rows: seq<Binding>, q: Query, aliasIsEdge: map<string, bool>, h: Records)
    returns (r: seq<Binding>, ghost sorted: seq<Binding>)
    ensures r == Truncated(sorted, q.limit)
    ensures q.limit.None? ==> r == sorted
    ensures q.orderBy.None? ==> sorted == rows
    ensures q.orderBy.Some? ==>
      IsArrangement(sorted, rows, h, q.orderBy.value, q.orderBy.value.alias in aliasIsEdge && aliasIsEdge[q.orderBy.value.alias])
  {
    r := rows;
    if q.orderBy.Some? { r := SortBindings(r, q.orderBy.value, aliasIsEdge, h); }
    sorted := r;
    if q.limit.Some? && q.limit.value < |r| { r := r[..q.limit.value]; }
  }

  /** Without a limit every row is kept; with one, that many from the front, or all. */
  lemma TruncatedMeans(rows: seq<Binding>, limit: Option<nat>)
    ensures limit.None? ==> Truncated(rows, limit) == rows
    ensures limit.Some? && limit.value >= |rows| ==> Truncated(rows, limit) == rows
    ensures limit.Some? && limit.value < |rows| ==>
      |Truncated(rows, limit)| == limit.value
      && forall i :: 0 <= i < limit.value ==> Truncated(rows, limit)[i] == rows[i]
  {
  }

  ghost predicate NoneAfter(kept: seq<Binding>, dropped: seq<Binding>, leq: (Binding, Binding) -> bool) {
    forall a, b :: a in kept && b in dropped ==> leq(a, b)
  }

  lemma CutOfSorted(sorted: seq<Binding>, k: nat, leq: (Binding, Binding) -> bool)
    requires k <= |sorted| && SortedBy(sorted, leq)
    ensures NoneAfter(sorted[..k], sorted[k..], leq)
  {
    forall a, b | a in sorted[..k] && b in sorted[k..] ensures leq(a, b) {
      var i :| 0 <= i < k && sorted[..k][i] == a;
      var j :| 0 <= j < |sorted| - k && sorted[k..][j] == b;
      assert sorted[i] == a && sorted[k + j] == b;
    }
  }

  /** ORDER BY with LIMIT n keeps min(n, all) rows, and no kept row comes after a dropped one. */
  lemma LimitKeepsTheFirst(h: Records, orderBy: OrderBy, isEdge: bool, rows: seq<Binding>, n: nat)
    requires Sortable(KeysOf(h, orderBy, isEdge, rows))
    ensures var sorted := Sort(rows, RowLeq(h, orderBy, isEdge));
            var kept := Truncated(sorted, Some(n));
            && |kept| == (if n < |rows| then n else |rows|)
            && kept <= sorted && multiset(kept) + multiset(sorted[|kept|..]) == multiset(rows)
            && NoneAfter(kept, sorted[|kept|..], RowLeq(h, orderBy, isEdge))
  {
    var leq := RowLeq(h, orderBy, isEdge);
    var sorted := Sort(rows, leq);
    RowsOrdered(h, orderBy, isEdge, rows);
    SortSorted(rows, leq);
    SortPermutes(rows, leq);
    PermutationFacts(sorted, rows);
    var kept := Truncated(sorted, Some(n));
    assert kept == sorted[..|kept|] && sorted == kept + sorted[|kept|..];
    CutOfSorted(sorted, |kept|, leq);
  }

  /** No row kept by LIMIT stands the wrong way round to a row it dropped. */
  lemma DroppedComeLater(
      h: Records, orderBy: OrderBy, isEdge: bool, rows: seq<Binding>, n: nat, kept: Binding, dropped: Binding)
    requires Sortable(KeysOf(h, orderBy, isEdge, rows))
    requires var sorted := Sort(rows, RowLeq(h, orderBy, isEdge));
             var cut := Truncated(sorted, Some(n));
             kept in cut && |cut| <= |sorted| && dropped in sorted[|cut|..]
    ensures var first, second := KeyOfRow(h, orderBy, isEdge, kept), KeyOfRow(h, orderBy, isEdge, dropped);
            && !OutOfOrder(orderBy.direction, first, second)
            && (first.Some? && second.Some? && SameKind(first.value, second.value) ==>
                  if orderBy.direction.Asc? then AtMost(first.value, second.value) else AtMost(second.value, first.value))
  {
    LimitKeepsTheFirst(h, orderBy, isEdge, rows, n);
    assert RowLeq(h, orderBy, isEdge)(kept, dropped);
    var first, second := KeyOfRow(h, orderBy, isEdge, kept), KeyOfRow(h, orderBy, isEdge, dropped);
    KeyLeqIff(orderBy.direction, first, second);
    if first.Some? && second.Some? && SameKind(first.value, second.value) {
      OrderOfKind(orderBy.direction, first.value, second.value);
    }
  }

  // ---------------------------------------------------------------- node or edge

  /** Whether the first row that has the alias has it as an edge. */
  function KindOf(rows: seq<Binding>, alias: string): Option<bool> {
    if rows == [] then None
    else if alias in rows[0].edges then Some(true)
    else if alias in rows[0].nodes then Some(false)
    else KindOf(rows[1..], alias)
  }

  method FindKind(rows: seq<Binding>, alias: string) returns (kind: Option<bool>)
    ensures kind == KindOf(rows, alias)
  {
    for i := 0 to |rows|
      invariant KindOf(rows, alias) == KindOf(rows[i..], alias)
    {
      if alias in rows[i].edges { return Some(true); }
      if alias in rows[i].nodes { return Some(false); }
    }
    kind := None;
  }

  method ResolveKinds(aliases: seq<string>, rows: seq<Binding>) returns (aliasIsEdge: map<string, bool>)
    ensures aliasIsEdge.Keys == set a | a in aliases && KindOf(rows, a).Some?
    ensures forall a :: a in aliasIsEdge ==> aliasIsEdge[a] == KindOf(rows, a).value
  {
    aliasIsEdge := map[];
    for i := 0 to |aliases|
      invariant aliasIsEdge.Keys == set a | a in aliases[..i] && KindOf(rows, a).Some?
      invariant forall a :: a in aliasIsEdge ==> aliasIsEdge[a] == KindOf(rows, a).value
    {
      TakeNext(aliases, i);
      if aliases[i] !in aliasIsEdge {
        var kind := FindKind(rows, aliases[i]);
        if kind.Some? { aliasIsEdge := aliasIsEdge[aliases[i] := kind.value]; }
      }
    }
    assert aliases[..|aliases|] == aliases;
  }

  /** Looking at one row is enough: every row of a run has the plan's aliases. */
  lemma KindIsThePlans(rows: seq<Binding>, sc: Scope, alias: string)
    requires rows != [] && AllFit(ToSet(rows), sc)
    ensures KindOf(rows, alias) == if alias in sc.edges then Some(true) else if alias in sc.nodes then Some(false) else None
    decreases rows
  {
    assert rows[0] in ToSet(rows);
    if alias !in sc.edges && alias !in sc.nodes && rows[1..] != [] {
      assert ToSet(rows[1..]) <= ToSet(rows);
      KindIsThePlans(rows[1..], sc, alias);
    }
  }
}
