/** The answer to one query, from text to messages (execute_query). */
module Coordinator {
  import opened Basics
  import opened Sorting
  import opened GraphModel
  import opened Membership
  import opened Plan
  import opened IndexBuilder
  import opened Wire
  import opened ClusterAccess
  import opened Denotation
  import opened GlobalAnswer
  import opened AntiJoinExecution
  import opened QueryAst
  import opened Validation
  import opened Planning
  import opened QueryMeaning
  import opened QuerySoundness
  import opened OrderLimit
  import opened Projection

  datatype QueryFailure =
    | SyntaxError
    | Rejected(errors: seq<ValidationError>)
    | PlannerPanicked(panic: PlanPanic)
    | DiscoveryFailed
    | ExecutionFailed(error: ExecutionError)

  // ---------------------------------------------------------------- the order the tables define

  /** The sort key of a row, read off the tables as a live partition returns it. */
  ghost function TableKey(w: World, orderBy: OrderBy, isEdge: bool, b: Binding): Option<PropertyValue> {
    var record :=
      if isEdge then (if orderBy.alias in b.edges then EdgeProps(w, b.edges[orderBy.alias]) else None)
      else if orderBy.alias in b.nodes then NodeProps(w, b.nodes[orderBy.alias])
      else None;
    if record.Some? && orderBy.property in Transported(record.value) then Some(Transported(record.value)[orderBy.property]) else None
  }

  ghost function TableLeq(w: World, orderBy: OrderBy, isEdge: bool): (Binding, Binding) -> bool {
    (a, b) => KeyLeq(orderBy.direction)(TableKey(w, orderBy, isEdge, a), TableKey(w, orderBy, isEdge, b))
  }

  /** The gathered rows in ORDER BY order. */
  ghost function Ordered(w: World, q: Query, rows: seq<Binding>): seq<Binding> {
    if q.orderBy.Some?
    then Sort(rows, TableLeq(w, q.orderBy.value, KindOf(rows, q.orderBy.value.alias) == Some(true)))
    else rows
  }

  ghost function TableKeys(w: World, orderBy: OrderBy, isEdge: bool, rows: seq<Binding>): set<Option<PropertyValue>> {
    set b | b in rows :: TableKey(w, orderBy, isEdge, b)
  }

  /** The comparator is a total preorder on the sort keys of these rows. */
  ghost predicate CanOrder(w: World, q: Query, rows: seq<Binding>) {
    q.orderBy.Some? ==>
      Sortable(TableKeys(w, q.orderBy.value, KindOf(rows, q.orderBy.value.alias) == Some(true), rows))
  }

  /** A permutation of the rows, and the ordered one where ORDER BY orders them. */
  ghost predicate IsOrderedAs(w: World, q: Query, rows: seq<Binding>, sorted: seq<Binding>) {
    multiset(sorted) == multiset(rows) && (CanOrder(w, q, rows) ==> sorted == Ordered(w, q, rows))
  }

  ghost predicate AgreeOn<T(!new)>(f: (T, T) -> bool, g: (T, T) -> bool, s: set<T>) {
    forall x, y :: x in s && y in s ==> f(x, y) == g(x, y)
  }

  lemma {:induction false} InsertAgrees<T(!new)>(x: T, s: seq<T>, f: (T, T) -> bool, g: (T, T) -> bool, all: set<T>)
    requires AgreeOn(f, g, all) && x in all && ToSet(s) <= all
    ensures Insert(x, s, f) == Insert(x, s, g)
  {
    if s != [] {
      assert s[0] in ToSet(s) && ToSet(s[1..]) <= ToSet(s);
      InsertAgrees(x, s[1..], f, g, all);
    }
  }

  /** Sorting depends on how the comparator orders the rows at hand, and on nothing else. */
  lemma {:induction false} SortAgrees<T(!new)>(s: seq<T>, f: (T, T) -> bool, g: (T, T) -> bool, all: set<T>)
    requires AgreeOn(f, g, all) && ToSet(s) <= all
    ensures Sort(s, f) == Sort(s, g)
  {
    if s != [] {
      assert s[0] in ToSet(s) && ToSet(s[1..]) <= ToSet(s);
      SortAgrees(s[1..], f, g, all);
      SortPermutes(s[1..], g);
      PermutationFacts(Sort(s[1..], g), s[1..]);
      InsertAgrees(s[0], Sort(s[1..], g), f, g, all);
    }
  }

  // ---------------------------------------------------------------- hydration

  /** The ids some projected or sorting alias is bound to. */
  function NeededNodes(rows: seq<Binding>, aliases: seq<string>, aliasIsEdge: map<string, bool>): set<NodeId> {
    set b, a | b in rows && a in aliases && !(a in aliasIsEdge && aliasIsEdge[a]) && a in b.nodes :: b.nodes[a]
  }

  function NeededEdges(rows: seq<Binding>, aliases: seq<string>, aliasIsEdge: map<string, bool>): set<EdgeId> {
    set b, a | b in rows && a in aliases && a in aliasIsEdge && aliasIsEdge[a] && a in b.edges :: b.edges[a]
  }

  method Hydrate(c: Cluster, rows: seq<Binding>, aliases: seq<string>, aliasIsEdge: map<string, bool>, ghost t: Tables)
    returns (h: Records)
    requires Serves(c, t)
    ensures HydratesNodes(WorldOf(c, t), NeededNodes(rows, aliases, aliasIsEdge), h.nodes)
    ensures HydratesEdges(WorldOf(c, t), NeededEdges(rows, aliases, aliasIsEdge), h.edges)
  {
    var nodeIds := Drain(NeededNodes(rows, aliases, aliasIsEdge));
    var edgeIds := Drain(NeededEdges(rows, aliases, aliasIsEdge));
    var nodes: map<NodeId, NodeRecord> := map[];
    if nodeIds != [] { nodes := GetNodeProperties(c, nodeIds, t); }
    var edges: map<EdgeId, EdgeRecord> := map[];
    if edgeIds != [] { edges := GetEdgeProperties(c, edgeIds, t); }
    h := Records(nodes, edges);
  }

  lemma KeyIsTableKey(
      w: World, h: Records, orderBy: OrderBy, isEdge: bool, rows: seq<Binding>, aliases: seq<string>,
      aliasIsEdge: map<string, bool>, b: Binding)
    requires b in rows && orderBy.alias in aliases
             && isEdge == (orderBy.alias in aliasIsEdge && aliasIsEdge[orderBy.alias])
    requires HydratesNodes(w, NeededNodes(rows, aliases, aliasIsEdge), h.nodes)
    requires HydratesEdges(w, NeededEdges(rows, aliases, aliasIsEdge), h.edges)
    ensures KeyOfRow(h, orderBy, isEdge, b) == TableKey(w, orderBy, isEdge, b)
  {
    if isEdge && orderBy.alias in b.edges { assert b.edges[orderBy.alias] in NeededEdges(rows, aliases, aliasIsEdge); }
    if !isEdge && orderBy.alias in b.nodes { assert b.nodes[orderBy.alias] in NeededNodes(rows, aliases, aliasIsEdge); }
  }

  /** Aliases to look at: those of RETURN, then that of ORDER BY. */
  function AliasesOf(q: Query): (r: seq<string>)
    ensures forall item :: item in q.projection ==> item.alias in r
    ensures q.orderBy.Some? ==> q.orderBy.value.alias in r
  {
    var projected := seq(|q.projection|, i requires 0 <= i < |q.projection| => q.projection[i].alias);
    assert forall i :: 0 <= i < |q.projection| ==> projected[i] == q.projection[i].alias;
    projected + (if q.orderBy.Some? then [q.orderBy.value.alias] else [])
  }

  /** What `ResolveKinds` found for these rows. */
  ghost predicate KindsResolved(rows: seq<Binding>, aliases: seq<string>, aliasIsEdge: map<string, bool>) {
    forall a :: a in aliases ==> EdgeKind(aliasIsEdge)(a) == (KindOf(rows, a) == Some(true))
  }

  /** The kinds and records that ordering and projection read. */
  ghost predicate Prepared(w: World, q: Query, rows: seq<Binding>, aliasIsEdge: map<string, bool>, h: Records) {
    && KindsResolved(rows, AliasesOf(q), aliasIsEdge)
    && HydratesNodes(w, NeededNodes(rows, AliasesOf(q), aliasIsEdge), h.nodes)
    && HydratesEdges(w, NeededEdges(rows, AliasesOf(q), aliasIsEdge), h.edges)
  }

  lemma KindsAreResolved(rows: seq<Binding>, aliases: seq<string>, aliasIsEdge: map<string, bool>)
    requires aliasIsEdge.Keys == set a | a in aliases && KindOf(rows, a).Some?
    requires forall a :: a in aliasIsEdge ==> aliasIsEdge[a] == KindOf(rows, a).value
    ensures KindsResolved(rows, aliases, aliasIsEdge)
  {
  }

  lemma ArrangedByTables(
      w: World, q: Query, rows: seq<Binding>, aliasIsEdge: map<string, bool>, h: Records, sorted: seq<Binding>)
    requires q.orderBy.Some? && Prepared(w, q, rows, aliasIsEdge, h)
    requires IsArrangement(sorted, rows, h, q.orderBy.value, EdgeKind(aliasIsEdge)(q.orderBy.value.alias))
    ensures IsOrderedAs(w, q, rows, sorted)
  {
    var orderBy := q.orderBy.value;
    var isEdge := EdgeKind(aliasIsEdge)(orderBy.alias);
    forall b | b in rows ensures KeyOfRow(h, orderBy, isEdge, b) == TableKey(w, orderBy, isEdge, b) {
      KeyIsTableKey(w, h, orderBy, isEdge, rows, AliasesOf(q), aliasIsEdge, b);
    }
    SameArrangement(w, q, rows, h, isEdge, sorted);
  }

  lemma SameArrangement(w: World, q: Query, rows: seq<Binding>, h: Records, isEdge: bool, sorted: seq<Binding>)
    requires q.orderBy.Some? && isEdge == (KindOf(rows, q.orderBy.value.alias) == Some(true))
    requires forall b ::
               b in rows ==> KeyOfRow(h, q.orderBy.value, isEdge, b) == TableKey(w, q.orderBy.value, isEdge, b)
    requires IsArrangement(sorted, rows, h, q.orderBy.value, isEdge)
    ensures IsOrderedAs(w, q, rows, sorted)
  {
    var orderBy := q.orderBy.value;
    SameKeys(w, h, orderBy, isEdge, rows);
    SortAgrees(rows, RowLeq(h, orderBy, isEdge), TableLeq(w, orderBy, isEdge), ToSet(rows));
  }

  lemma SameKeys(w: World, h: Records, orderBy: OrderBy, isEdge: bool, rows: seq<Binding>)
    requires forall b :: b in rows ==> KeyOfRow(h, orderBy, isEdge, b) == TableKey(w, orderBy, isEdge, b)
    ensures KeysOf(h, orderBy, isEdge, rows) == TableKeys(w, orderBy, isEdge, rows)
    ensures AgreeOn(RowLeq(h, orderBy, isEdge), TableLeq(w, orderBy, isEdge), ToSet(rows))
  {
  }

  // ---------------------------------------------------------------- projection

  ghost function KindsOf(rows: seq<Binding>): string -> bool {
    (a: string) => KindOf(rows, a) == Some(true)
  }

  /** One message for each kept row, in order, reading the records of the tables. */
  ghost predicate AreMessages(w: World, q: Query, rows: seq<Binding>, kept: seq<Binding>, messages: seq<Message>) {
    |messages| == |kept|
    && forall i :: 0 <= i < |kept| ==> IsMessage(FromTables(w), KindsOf(rows), q.projection, kept[i], messages[i])
  }

  method ProjectRows(project: seq<ReturnItem>, aliasIsEdge: map<string, bool>, h: Records, rows: seq<Binding>)
    returns (messages: seq<Message>)
    ensures |messages| == |rows|
    ensures forall i ::
              0 <= i < |rows| ==> IsMessage(FromRecords(h), EdgeKind(aliasIsEdge), project, rows[i], messages[i])
  {
    messages := [];
    for i := 0 to |rows|
      invariant |messages| == i
      invariant forall j ::
                  0 <= j < i ==> IsMessage(FromRecords(h), EdgeKind(aliasIsEdge), project, rows[j], messages[j])
    {
      var m := ProjectRow(project, aliasIsEdge, h, rows[i]);
      messages := messages + [m];
    }
  }

  lemma NodeAgrees(w: World, ids: set<NodeId>, h: Records, v: NodeId)
    requires UniqueIds(w.t) && HydratesNodes(w, ids, h.nodes) && v in ids
    ensures FromRecords(h).nodeOf(v) == FromTables(w).nodeOf(v)
  {
    if v in h.nodes { OneTableNode(w, v, h.nodes[v]); }
  }

  lemma EdgeAgrees(w: World, ids: set<EdgeId>, h: Records, e: EdgeId)
    requires UniqueIds(w.t) && HydratesEdges(w, ids, h.edges) && e in ids
    ensures FromRecords(h).edgeOf(e) == FromTables(w).edgeOf(e)
  {
    if e in h.edges { OneTableEdge(w, e, h.edges[e]); }
  }

  lemma RowAgrees(w: World, q: Query, rows: seq<Binding>, aliasIsEdge: map<string, bool>, h: Records, b: Binding)
    requires UniqueIds(w.t) && b in rows && Prepared(w, q, rows, aliasIsEdge, h)
    ensures AgreeOnRow(FromRecords(h), FromTables(w), b, q.projection, EdgeKind(aliasIsEdge))
  {
    forall item | item in q.projection && !EdgeKind(aliasIsEdge)(item.alias) && item.alias in b.nodes
      ensures FromRecords(h).nodeOf(b.nodes[item.alias]) == FromTables(w).nodeOf(b.nodes[item.alias])
    {
      NodeAgrees(w, NeededNodes(rows, AliasesOf(q), aliasIsEdge), h, b.nodes[item.alias]);
    }
    forall item | item in q.projection && EdgeKind(aliasIsEdge)(item.alias) && item.alias in b.edges
      ensures FromRecords(h).edgeOf(b.edges[item.alias]) == FromTables(w).edgeOf(b.edges[item.alias])
    {
      EdgeAgrees(w, NeededEdges(rows, AliasesOf(q), aliasIsEdge), h, b.edges[item.alias]);
    }
  }

  lemma MessagesOfTables(
      w: World, q: Query, rows: seq<Binding>, aliasIsEdge: map<string, bool>, h: Records, kept: seq<Binding>,
      messages: seq<Message>)
    requires UniqueIds(w.t) && Prepared(w, q, rows, aliasIsEdge, h)
    requires |messages| == |kept| && forall i :: 0 <= i < |kept| ==> kept[i] in rows
    requires forall i ::
               0 <= i < |kept| ==> IsMessage(FromRecords(h), EdgeKind(aliasIsEdge), q.projection, kept[i], messages[i])
    ensures AreMessages(w, q, rows, kept, messages)
  {
    forall i | 0 <= i < |kept| ensures IsMessage(FromTables(w), KindsOf(rows), q.projection, kept[i], messages[i]) {
      RowAgrees(w, q, rows, aliasIsEdge, h, kept[i]);
      SameMessage(
        FromRecords(h), FromTables(w), EdgeKind(aliasIsEdge), KindsOf(rows), q.projection, kept[i], messages[i]);
    }
  }

  lemma KeptAreRows(rows: seq<Binding>, sorted: seq<Binding>, limit: Option<nat>)
    requires multiset(sorted) == multiset(rows)
    ensures forall i :: 0 <= i < |Truncated(sorted, limit)| ==> Truncated(sorted, limit)[i] in rows
  {
    var kept := Truncated(sorted, limit);
    forall i | 0 <= i < |kept| ensures kept[i] in rows {
      assert kept[i] == sorted[i];
      assert sorted[i] in multiset(sorted);
    }
  }

  lemma ResponseIsRight(
      w: World, q: Query, rows: seq<Binding>, aliasIsEdge: map<string, bool>, h: Records, sorted: seq<Binding>, messages: seq<Message>)
    requires UniqueIds(w.t) && Prepared(w, q, rows, aliasIsEdge, h)
    requires q.orderBy.None? ==> sorted == rows
    requires q.orderBy.Some? ==>
      IsArrangement(sorted, rows, h, q.orderBy.value, EdgeKind(aliasIsEdge)(q.orderBy.value.alias))
    requires var kept := Truncated(sorted, q.limit);
             && |messages| == |kept|
             && forall i ::
                  0 <= i < |kept| ==>
                    IsMessage(FromRecords(h), EdgeKind(aliasIsEdge), q.projection, kept[i], messages[i])
    ensures IsOrderedAs(w, q, rows, sorted) && AreMessages(w, q, rows, Truncated(sorted, q.limit), messages)
  {
    if q.orderBy.Some? { ArrangedByTables(w, q, rows, aliasIsEdge, h, sorted); }
    KeptAreRows(rows, sorted, q.limit);
    MessagesOfTables(w, q, rows, aliasIsEdge, h, Truncated(sorted, q.limit), messages);
  }

  /** Classify and hydrate. */
  method Prepare(c: Cluster, q: Query, rows: seq<Binding>, ghost t: Tables)
    returns (aliasIsEdge: map<string, bool>, h: Records)
    requires Serves(c, t)
    ensures Prepared(WorldOf(c, t), q, rows, aliasIsEdge, h)
  {
    aliasIsEdge := ResolveKinds(AliasesOf(q), rows);
    KindsAreResolved(rows, AliasesOf(q), aliasIsEdge);
    h := Hydrate(c, rows, AliasesOf(q), aliasIsEdge, t);
  }

  /** Classify, hydrate, order, cut, project. */
  method Respond(c: Cluster, q: Query, rows: seq<Binding>, ghost t: Tables)
    returns (r: seq<Message>, ghost sorted: seq<Binding>)
    requires Serves(c, t)
    ensures IsOrderedAs(WorldOf(c, t), q, rows, sorted)
    ensures AreMessages(WorldOf(c, t), q, rows, Truncated(sorted, q.limit), r)
  {
    var aliasIsEdge, h := Prepare(c, q, rows, t);
    var kept;
    kept, sorted := OrderAndLimit(rows, q, aliasIsEdge, h);
    r := ProjectRows(q.projection, aliasIsEdge, h, kept);
    ResponseIsRight(WorldOf(c, t), q, rows, aliasIsEdge, h, sorted, r);
  }

  // ---------------------------------------------------------------- execute_query

  /** What makes the answer the query's meaning: a served cluster over clean tables, and a
      supported query on them. */
  ghost predicate Faithful(c: Cluster, q: Query, t: Tables) {
    && AllServed(WorldOf(c, t)) && SupportedOn(t, q) && AllWireSafe(PlannedSteps(q))
    && LabelsImplied(t, q.pattern) && LookupUsable(t, FirstStep(q).value)
  }

  /** `parsed` is what the parser made of the text and `discovered` what discovery answers
      once it is asked. Each failure is reported in its turn; an answer is one message for
      each gathered row, in order, cut at the limit. `gathered` and `sorted` are the rows
      before ordering and before the cut. */
  method ExecuteQuery(parsed: Option<Query>, discovered: Option<Cluster>, schema: Schema, ghost t: Tables)
    returns (r: Result<seq<Message>, QueryFailure>, ghost gathered: seq<Binding>, ghost sorted: seq<Binding>)
    requires (discovered.Some? ==> Serves(discovered.value, t)) && schema == t.schema
    ensures parsed.None? <==> r == Err(SyntaxError)
    ensures parsed.Some? && !IsValid(parsed.value, schema) <==> r.Err? && r.error.Rejected?
    ensures parsed.Some? && IsValid(parsed.value, schema) && !Plannable(parsed.value) <==>
              r.Err? && r.error.PlannerPanicked?
    ensures parsed.Some? && IsValid(parsed.value, schema) && Plannable(parsed.value) && discovered.None? <==>
              r == Err(DiscoveryFailed)
    ensures r.Ok? || r.error.ExecutionFailed? ==> parsed.Some? && Plannable(parsed.value) && discovered.Some?
    ensures r.Err? && r.error.ExecutionFailed? ==>
      Denote(WorldOf(discovered.value, t), DeliveredPlan(PlannedSteps(parsed.value))) == Err(r.error.error)
    ensures r.Ok? ==>
      var w, q := WorldOf(discovered.value, t), parsed.value;
      && NoDup(gathered) && Denote(w, DeliveredPlan(PlannedSteps(q))) == Ok(ToSet(gathered))
      && IsOrderedAs(w, q, gathered, sorted) && AreMessages(w, q, gathered, Truncated(sorted, q.limit), r.value)
    ensures parsed.Some? && discovered.Some? && IsValid(parsed.value, schema)
            && Faithful(discovered.value, parsed.value, t) ==>
      r.Ok? && forall x :: x in gathered <==> Means(t, discovered.value.parse, parsed.value, x)
  {
    gathered, sorted := [], [];
    if parsed.None? { return Err(SyntaxError), [], []; }
    var q := parsed.value;
    var valid := Validate(q, schema);
    if valid.Err? { return Err(Rejected(valid.error)), [], []; }
    var plan := PlanQuery(q);
    if plan.Err? { return Err(PlannerPanicked(plan.error)), [], []; }
    if discovered.None? { return Err(DiscoveryFailed), [], []; }
    var answer;
    answer, gathered, sorted := Answer(discovered.value, q, plan.value, t);
    r := answer;
  }

  /** What happens once the membership is known. */
  method Answer(c: Cluster, q: Query, plan: QueryPlan, ghost t: Tables)
    returns (r: Result<seq<Message>, QueryFailure>, ghost gathered: seq<Binding>, ghost sorted: seq<Binding>)
    requires Serves(c, t) && IsValid(q, t.schema) && Plannable(q) && plan == QueryPlan(PlannedSteps(q), q.projection)
    ensures r.Err? ==>
      r.error.ExecutionFailed? && Denote(WorldOf(c, t), DeliveredPlan(PlannedSteps(q))) == Err(r.error.error)
    ensures r.Ok? ==>
      && NoDup(gathered) && Denote(WorldOf(c, t), DeliveredPlan(PlannedSteps(q))) == Ok(ToSet(gathered))
      && IsOrderedAs(WorldOf(c, t), q, gathered, sorted)
         && AreMessages(WorldOf(c, t), q, gathered, Truncated(sorted, q.limit), r.value)
    ensures Faithful(c, q, t) ==> r.Ok? && forall x :: x in gathered <==> Means(t, c.parse, q, x)
  {
    var rows := Execute(c, plan, t);
    if Faithful(c, q, t) { AnswersMeaning(c, q, t); }
    if rows.Err? { return Err(ExecutionFailed(rows.error)), [], []; }
    gathered := rows.value;
    var messages;
    messages, sorted := Respond(c, q, rows.value, t);
    r := Ok(messages);
  }

  lemma AnswersMeaning(c: Cluster, q: Query, t: Tables)
    requires Faithful(c, q, t) && IsValid(q, t.schema)
    ensures Denote(WorldOf(c, t), DeliveredPlan(PlannedSteps(q))).Ok?
    ensures forall x :: x in Denote(WorldOf(c, t), DeliveredPlan(PlannedSteps(q))).value <==> Means(t, c.parse, q, x)
  {
    WireSafeArrives(PlannedSteps(q));
    ValidQueryIsAnswered(WorldOf(c, t), q, Binding(map[], map[]));
    forall x ensures x in Denote(WorldOf(c, t), DeliveredPlan(PlannedSteps(q))).value <==> Means(t, c.parse, q, x) {
      ValidQueryIsAnswered(WorldOf(c, t), q, x);
    }
  }

  /** A membership with a healthy replica for every partition, each replica listed only
      where its share is, serves every node. */
  lemma MembershipServes(c: Cluster, t: Tables)
    requires Serves(c, t) && ListedWhereHeld(c)
    requires forall p :: 0 <= p < c.hasher.nPartitions ==> p in Live(c.replicasByPartition)
    ensures AllServed(WorldOf(c, t))
  {
    ListedWhereHeldIsRight(c, t);
    forall v ensures Held(WorldOf(c, t), v) { assert PartitionOf(c.hasher, v) in Live(c.replicasByPartition); }
  }
}
