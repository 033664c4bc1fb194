/** Exactness decided on one graph: every label once, every edge type once. */
module SchemaGraph {
  import opened Basics
  import opened GraphModel
  import opened FilterEval
  import opened Plan
  import opened Denotation
  import opened GlobalAnswer
  import opened DistributionLaws
  import opened QueryAst
  import opened Validation
  import opened Planning
  import opened QueryMeaning
  import opened QuerySoundness
  import opened SchemaExactness

  ghost predicate HasRowOf(g: Tables, labelName: string) {
    exists r :: r in g.nodes && r.labelName == labelName
  }

  ghost predicate HasEdgeOf(g: Tables, edgeType: string) {
    exists e :: e in g.edges && e.edgeType == edgeType
  }

  /** One node for each label of the schema and an edge for each edge type. */
  ghost predicate IsSchemaGraph(g: Tables, schema: Schema) {
    && TablesOf(g, schema)
    && (forall l :: l in schema.nodes ==> HasRowOf(g, l))
    && (forall r, s :: r in g.nodes && s in g.nodes && r.labelName == s.labelName ==> r == s)
    && (forall ty :: ty in schema.edges ==> HasEdgeOf(g, ty))
  }

  // ---------------------------------------------------------------- every schema has one

  ghost predicate RowsFor(labels: set<string>, rows: seq<NodeRow>) {
    && (forall i :: 0 <= i < |rows| ==> rows[i].id == NodeId(i) && rows[i].labelName in labels && rows[i].properties == map[])
    && (forall i, j :: 0 <= i < j < |rows| ==> rows[i].labelName != rows[j].labelName)
    && (forall l :: l in labels ==> exists r :: r in rows && r.labelName == l)
  }

  lemma {:induction false} OneRowEach(labels: set<string>) returns (rows: seq<NodeRow>)
    ensures RowsFor(labels, rows)
    decreases labels
  {
    if labels == {} {
      rows := [];
    } else {
      var l :| l in labels;
      var rest := OneRowEach(labels - {l});
      var row := NodeRow(l, NodeId(|rest|), map[]);
      rows := rest + [row];
      forall k | k in labels ensures exists r :: r in rows && r.labelName == k {
        if k == l {
          assert row in rows;
        } else {
          assert k in labels - {l};
          var r :| r in rest && r.labelName == k;
          assert r in rows;
        }
      }
    }
  }

  ghost predicate JoinsDeclared(schema: Schema, rows: seq<NodeRow>, e: EdgeRow) {
    && e.edgeType in schema.edges && e.properties == map[]
    && (exists r :: r in rows && r.id == e.src && r.labelName == schema.edges[e.edgeType].from)
    && (exists r :: r in rows && r.id == e.dst && r.labelName == schema.edges[e.edgeType].to)
  }

  ghost predicate EdgesFor(schema: Schema, rows: seq<NodeRow>, types: set<string>, edges: seq<EdgeRow>) {
    && (forall i :: 0 <= i < |edges| ==> edges[i].id == EdgeId(i) && JoinsDeclared(schema, rows, edges[i]))
    && (forall ty :: ty in types ==> exists e :: e in edges && e.edgeType == ty)
  }

  lemma OneMoreEdge(schema: Schema, rows: seq<NodeRow>, types: set<string>, ty: string, rest: seq<EdgeRow>)
    returns (edges: seq<EdgeRow>)
    requires EndpointsDeclared(schema) && RowsFor(schema.nodes.Keys, rows) && ty in schema.edges
    requires EdgesFor(schema, rows, types, rest)
    ensures EdgesFor(schema, rows, types + {ty}, edges)
  {
    var r :| r in rows && r.labelName == schema.edges[ty].from;
    var s :| s in rows && s.labelName == schema.edges[ty].to;
    var edge := EdgeRow(ty, EdgeId(|rest|), r.id, s.id, map[]);
    edges := rest + [edge];
    assert JoinsDeclared(schema, rows, edge);
    forall k | k in types + {ty} ensures exists e :: e in edges && e.edgeType == k {
      if k in types {
        var e :| e in rest && e.edgeType == k;
        assert e in edges;
      } else {
        assert edge in edges;
      }
    }
  }

  lemma {:induction false} OneEdgeEach(schema: Schema, rows: seq<NodeRow>, types: set<string>)
    returns (edges: seq<EdgeRow>)
    requires EndpointsDeclared(schema) && RowsFor(schema.nodes.Keys, rows) && types <= schema.edges.Keys
    ensures EdgesFor(schema, rows, types, edges)
    decreases types
  {
    if types == {} {
      edges := [];
    } else {
      var ty :| ty in types;
      var fewer := types - {ty};
      PutBack(types, ty);
      var rest := OneEdgeEach(schema, rows, fewer);
      edges := OneMoreEdge(schema, rows, fewer, ty, rest);
    }
  }

  lemma RowsAreClean(schema: Schema, rows: seq<NodeRow>, edges: seq<EdgeRow>, types: set<string>)
    requires RowsFor(schema.nodes.Keys, rows) && EdgesFor(schema, rows, types, edges)
    ensures TablesOf(Tables(schema, rows, edges), schema)
  {
    var g := Tables(schema, rows, edges);
    forall e | e in g.edges ensures EdgeConforms(g, e) && e.src in NodeIds(g) && e.dst in NodeIds(g) {
      var i :| 0 <= i < |edges| && edges[i] == e;
      assert JoinsDeclared(schema, rows, e);
      forall r, s | r in rows && s in rows && r.id == s.id ensures r == s { OnlyRow(rows, r, s); }
    }
  }

  /** Every schema the parser lets through has a schema graph. */
  lemma SchemaGraphExists(schema: Schema) returns (g: Tables)
    requires EndpointsDeclared(schema)
    ensures IsSchemaGraph(g, schema)
  {
    var rows := OneRowEach(schema.nodes.Keys);
    var edges := OneEdgeEach(schema, rows, schema.edges.Keys);
    g := Tables(schema, rows, edges);
    RowsAreClean(schema, rows, edges, schema.edges.Keys);
    RowsAreEach(g);
    EdgesAreEach(g);
  }

  lemma EdgesAreEach(g: Tables)
    requires EdgesFor(g.schema, g.nodes, g.schema.edges.Keys, g.edges)
    ensures forall ty :: ty in g.schema.edges ==> HasEdgeOf(g, ty)
  {
    forall ty | ty in g.schema.edges ensures HasEdgeOf(g, ty) {
      var e :| e in g.edges && e.edgeType == ty;
    }
  }

  lemma RowsAreEach(g: Tables)
    requires RowsFor(g.schema.nodes.Keys, g.nodes)
    ensures forall l :: l in g.schema.nodes ==> HasRowOf(g, l)
    ensures forall r, s :: r in g.nodes && s in g.nodes && r.labelName == s.labelName ==> r == s
  {
    forall l | l in g.schema.nodes ensures HasRowOf(g, l) {
      var r :| r in g.nodes && r.labelName == l;
    }
    forall r, s | r in g.nodes && s in g.nodes && r.labelName == s.labelName ensures r == s {
      var i :| 0 <= i < |g.nodes| && g.nodes[i] == r;
      var j :| 0 <= j < |g.nodes| && g.nodes[j] == s;
    }
  }

  // ---------------------------------------------------------------- walks of a pattern, labels aside

  ghost predicate HopsMatch(t: Tables, pattern: seq<PatternStep>, vs: seq<NodeId>, ps: seq<seq<EdgeRow>>)
    requires IsChain(pattern) && |vs| == HopCount(pattern) + 1 && |ps| == HopCount(pattern)
  {
    forall j :: 1 <= j <= HopCount(pattern) ==> EdgeMatches(t, EdgeAt(pattern, j), vs[j - 1], ps[j - 1], vs[j])
  }

  /** Nodes and paths the plan of a bare pattern follows: it looks at the start label only. */
  ghost predicate Walks(t: Tables, pattern: seq<PatternStep>, vs: seq<NodeId>, ps: seq<seq<EdgeRow>>)
    requires IsChain(pattern)
  {
    var n := HopCount(pattern);
    && |vs| == n + 1 && |ps| == n
    && (forall j :: 0 <= j <= n ==> vs[j] in NodeIds(t))
    && HasLabel(t, vs[0], NodeAt(pattern, 0).labelName)
    && HopsMatch(t, pattern, vs, ps)
  }

  /** Wherever the pattern can be walked, the targets carry their labels. */
  ghost predicate LabelsFollow(t: Tables, pattern: seq<PatternStep>)
    requires IsChain(pattern)
  {
    forall vs, ps :: Walks(t, pattern, vs, ps) ==> LabelsFit(t, pattern, HopCount(pattern), vs)
  }

  // ---------------------------------------------------------------- tables map onto the schema graph

  ghost predicate Represented(t: Tables, g: Tables, v: NodeId, u: NodeId) {
    exists r, s :: r in t.nodes && r.id == v && s in g.nodes && s.id == u && r.labelName == s.labelName
  }

  /** The schema's node for the node's label. */
  ghost function NodeImage(t: Tables, g: Tables, v: NodeId): NodeId {
    if exists u :: Represented(t, g, v, u) then var u :| Represented(t, g, v, u); u else v
  }

  lemma NodeHasImage(t: Tables, g: Tables, schema: Schema, v: NodeId)
    requires TablesOf(t, schema) && IsSchemaGraph(g, schema) && v in NodeIds(t)
    ensures Represented(t, g, v, NodeImage(t, g, v)) && NodeImage(t, g, v) in NodeIds(g)
  {
    var r :| r in t.nodes && r.id == v;
    assert NodeConforms(schema, r);
    assert HasRowOf(g, r.labelName);
    var s :| s in g.nodes && s.labelName == r.labelName;
    assert Represented(t, g, v, s.id);
  }

  lemma ImageIsUnique(t: Tables, g: Tables, schema: Schema, v: NodeId, u: NodeId)
    requires TablesOf(t, schema) && IsSchemaGraph(g, schema) && Represented(t, g, v, u)
    ensures NodeImage(t, g, v) == u
  {
    var w := NodeImage(t, g, v);
    var r, s :| r in t.nodes && r.id == v && s in g.nodes && s.id == u && r.labelName == s.labelName;
    var r', s' :| r' in t.nodes && r'.id == v && s' in g.nodes && s'.id == w && r'.labelName == s'.labelName;
    OnlyRow(t.nodes, r, r');
  }

  /** A node carries a label exactly when its image does. */
  lemma ImageKeepsLabels(t: Tables, g: Tables, schema: Schema, v: NodeId, labelName: Option<string>)
    requires TablesOf(t, schema) && IsSchemaGraph(g, schema) && v in NodeIds(t)
    ensures HasLabel(g, NodeImage(t, g, v), labelName) <==> HasLabel(t, v, labelName)
  {
    NodeHasImage(t, g, schema, v);
    var r, s :| r in t.nodes && r.id == v && s in g.nodes && s.id == NodeImage(t, g, v) && r.labelName == s.labelName;
    forall q | q in t.nodes && q.id == v ensures q == r { OnlyRow(t.nodes, q, r); }
    forall q | q in g.nodes && q.id == s.id ensures q == s { OnlyRow(g.nodes, q, s); }
  }

  /** The schema's edge of the edge's type. */
  ghost function EdgeImage(g: Tables, e: EdgeRow): EdgeRow {
    if exists f :: f in g.edges && f.edgeType == e.edgeType then var f :| f in g.edges && f.edgeType == e.edgeType; f else e
  }

  lemma EndIsRepresented(t: Tables, g: Tables, schema: Schema, e: EdgeRow, dir: Direction)
    requires TablesOf(t, schema) && IsSchemaGraph(g, schema) && e in t.edges
    ensures EdgeImage(g, e) in g.edges && EdgeImage(g, e).edgeType == e.edgeType
    ensures Represented(t, g, Near(e, dir), Near(EdgeImage(g, e), dir))
  {
    assert EdgeConforms(t, e);
    assert HasEdgeOf(g, e.edgeType);
    var f := EdgeImage(g, e);
    assert EdgeConforms(g, f);
    var r :| r in t.nodes && r.id == Near(e, dir);
    var s :| s in g.nodes && s.id == Near(f, dir);
  }

  lemma EdgeImageEnds(t: Tables, g: Tables, schema: Schema, e: EdgeRow)
    requires TablesOf(t, schema) && IsSchemaGraph(g, schema) && e in t.edges
    ensures EdgeMaps(t, g, e)
  {
    EndIsRepresented(t, g, schema, e, Outgoing);
    ImageIsUnique(t, g, schema, e.src, EdgeImage(g, e).src);
    EndIsRepresented(t, g, schema, e, Incoming);
    ImageIsUnique(t, g, schema, e.dst, EdgeImage(g, e).dst);
  }

  ghost predicate EdgeMaps(t: Tables, g: Tables, e: EdgeRow) {
    && EdgeImage(g, e) in g.edges && EdgeImage(g, e).edgeType == e.edgeType
    && EdgeImage(g, e).src == NodeImage(t, g, e.src) && EdgeImage(g, e).dst == NodeImage(t, g, e.dst)
  }

  /** Nodes and edges of the tables map onto the graph, ends to ends. */
  ghost predicate EdgesMap(t: Tables, g: Tables) {
    forall e :: e in t.edges ==> EdgeMaps(t, g, e)
  }

  lemma TablesMap(t: Tables, g: Tables, schema: Schema)
    requires TablesOf(t, schema) && IsSchemaGraph(g, schema)
    ensures EdgesMap(t, g)
  {
    forall e | e in t.edges ensures EdgeMaps(t, g, e) { EdgeImageEnds(t, g, schema, e); }
  }

  ghost function PathImage(g: Tables, path: seq<EdgeRow>): seq<EdgeRow> {
    seq(|path|, i requires 0 <= i < |path| => EdgeImage(g, path[i]))
  }

  lemma StepHasImage(
      t: Tables, g: Tables, from: NodeId, path: seq<EdgeRow>, i: nat, edgeType: Option<string>, dir: Direction)
    requires EdgesMap(t, g) && i < |path| && IsPath(t, from, path, edgeType, dir)
    ensures IsPathStep(g, NodeImage(t, g, from), PathImage(g, path), i, edgeType, dir)
    ensures Far(PathImage(g, path)[i], dir) == NodeImage(t, g, Far(path[i], dir))
  {
    assert IsPathStep(t, from, path, i, edgeType, dir);
    assert EdgeMaps(t, g, path[i]);
    if i > 0 {
      assert IsPathStep(t, from, path, i - 1, edgeType, dir);
      assert EdgeMaps(t, g, path[i - 1]);
    }
  }

  lemma PathHasImage(t: Tables, g: Tables, edge: EdgePattern, from: NodeId, path: seq<EdgeRow>, to: NodeId)
    requires EdgesMap(t, g) && EdgeMatches(t, edge, from, path, to)
    ensures EdgeMatches(g, edge, NodeImage(t, g, from), PathImage(g, path), NodeImage(t, g, to))
  {
    forall i | 0 <= i < |path|
      ensures IsPathStep(g, NodeImage(t, g, from), PathImage(g, path), i, edge.edgeType, edge.direction)
    {
      StepHasImage(t, g, from, path, i, edge.edgeType, edge.direction);
    }
    StepHasImage(t, g, from, path, |path| - 1, edge.edgeType, edge.direction);
  }

  ghost function NodesImage(t: Tables, g: Tables, vs: seq<NodeId>): seq<NodeId> {
    seq(|vs|, i requires 0 <= i < |vs| => NodeImage(t, g, vs[i]))
  }

  ghost function PathsImage(g: Tables, ps: seq<seq<EdgeRow>>): seq<seq<EdgeRow>> {
    seq(|ps|, i requires 0 <= i < |ps| => PathImage(g, ps[i]))
  }

  lemma HopsHaveImages(t: Tables, g: Tables, pattern: seq<PatternStep>, vs: seq<NodeId>, ps: seq<seq<EdgeRow>>)
    requires EdgesMap(t, g) && IsChain(pattern) && |vs| == HopCount(pattern) + 1 && |ps| == HopCount(pattern)
    requires HopsMatch(t, pattern, vs, ps)
    ensures HopsMatch(g, pattern, NodesImage(t, g, vs), PathsImage(g, ps))
  {
    var us, qs := NodesImage(t, g, vs), PathsImage(g, ps);
    forall j | 1 <= j <= HopCount(pattern) ensures EdgeMatches(g, EdgeAt(pattern, j), us[j - 1], qs[j - 1], us[j]) {
      PathHasImage(t, g, EdgeAt(pattern, j), vs[j - 1], ps[j - 1], vs[j]);
    }
  }

  /** The image of a walk is a walk. */
  lemma WalkHasImage(
      t: Tables, g: Tables, schema: Schema, pattern: seq<PatternStep>, vs: seq<NodeId>, ps: seq<seq<EdgeRow>>)
    requires TablesOf(t, schema) && IsSchemaGraph(g, schema) && IsChain(pattern) && Walks(t, pattern, vs, ps)
    ensures Walks(g, pattern, NodesImage(t, g, vs), PathsImage(g, ps))
  {
    var n := HopCount(pattern);
    forall j | 0 <= j <= n ensures NodesImage(t, g, vs)[j] in NodeIds(g) { NodeHasImage(t, g, schema, vs[j]); }
    ImageKeepsLabels(t, g, schema, vs[0], NodeAt(pattern, 0).labelName);
    TablesMap(t, g, schema);
    HopsHaveImages(t, g, pattern, vs, ps);
  }

  /** Labels follow on all tables of a schema exactly when they follow on its graph. */
  lemma SchemaGraphDecides(schema: Schema, g: Tables, pattern: seq<PatternStep>)
    requires IsSchemaGraph(g, schema) && IsChain(pattern)
    ensures (forall t :: TablesOf(t, schema) ==> LabelsFollow(t, pattern)) <==> LabelsFollow(g, pattern)
  {
    if LabelsFollow(g, pattern) {
      forall t, vs, ps | TablesOf(t, schema) && Walks(t, pattern, vs, ps)
        ensures LabelsFit(t, pattern, HopCount(pattern), vs)
      {
        WalkHasImage(t, g, schema, pattern, vs, ps);
        var us := NodesImage(t, g, vs);
        assert LabelsFit(g, pattern, HopCount(pattern), us);
        forall j | 1 <= j <= HopCount(pattern) ensures HasLabel(t, vs[j], NodeAt(pattern, j).labelName) {
          assert HasLabel(g, us[j], NodeAt(pattern, j).labelName);
          ImageKeepsLabels(t, g, schema, vs[j], NodeAt(pattern, j).labelName);
        }
      }
    }
  }

  // ---------------------------------------------------------------- plan and meaning

  ghost predicate Exact(t: Tables, parse: TsParser, q: Query)
    requires Plannable(q)
  {
    forall x :: InAnswer(t, parse, PlannedSteps(q), x) <==> Means(t, parse, q, x)
  }

  lemma {:induction false} FitsStart(
      t: Tables, parse: TsParser, q: Query, n: nat, vs: seq<NodeId>, ps: seq<seq<EdgeRow>>)
    requires IsChainOf(q.pattern, n) && FirstStep(q).Ok? && Fits(t, parse, q, n, vs, ps)
    ensures NodeMatches(t, parse, NodeAt(q.pattern, 0), vs[0])
  {
    if n > 0 { FitsStart(t, parse, q, n - 1, vs[..n], ps[..n - 1]); }
  }

  /** What the plan follows is a walk of the pattern. */
  lemma FitsIsWalk(t: Tables, parse: TsParser, q: Query, vs: seq<NodeId>, ps: seq<seq<EdgeRow>>)
    requires Supported(q) && Fits(t, parse, q, HopCount(q.pattern), vs, ps)
    ensures Walks(t, q.pattern, vs, ps)
  {
    var n := HopCount(q.pattern);
    ChainPrefix(q.pattern, n);
    FitsFacts(t, parse, q, n, vs, ps);
    FitsStart(t, parse, q, n, vs, ps);
    forall j | 1 <= j <= n ensures EdgeMatches(t, EdgeAt(q.pattern, j), vs[j - 1], ps[j - 1], vs[j]) {
      FitsHop(t, parse, q, n, vs, ps, j);
    }
  }

  lemma FollowingLabelsAreAnswered(t: Tables, parse: TsParser, q: Query, x: Binding)
    requires SupportedOn(t, q) && LabelsFollow(t, q.pattern) && InAnswer(t, parse, PlannedSteps(q), x)
    ensures TargetsLabelled(t, q.pattern, HopCount(q.pattern), x)
  {
    PlanRows(t, parse, q, x);
    var vs, ps :| BuildsRow(t, parse, q, HopCount(q.pattern), vs, ps, x);
    RowOfFits(t, parse, q, HopCount(q.pattern), vs, ps, x);
    FitsIsWalk(t, parse, q, vs, ps);
  }

  /** Where labels follow and the start lookup is usable, the plan is exact. */
  lemma FollowingIsExact(t: Tables, parse: TsParser, q: Query)
    requires SupportedOn(t, q) && LabelsFollow(t, q.pattern) && LookupUsable(t, FirstStep(q).value)
    ensures Exact(t, parse, q)
  {
    forall x ensures InAnswer(t, parse, PlannedSteps(q), x) <==> Means(t, parse, q, x) {
      PlanAgainstMeaning(t, parse, q, x);
      if InAnswer(t, parse, PlannedSteps(q), x) { FollowingLabelsAreAnswered(t, parse, q, x); }
      if Means(t, parse, q, x) { MatchesFound(t, parse, q, x); }
    }
  }

  /** A pattern alone: no WHERE and no inline filter. */
  ghost predicate Bare(q: Query)
    requires IsChain(q.pattern)
  {
    q.whereConditions == [] && forall k :: 0 <= k <= HopCount(q.pattern) ==> NodeAt(q.pattern, k).propertyFilters == []
  }

  lemma BareNode(t: Tables, parse: TsParser, q: Query, k: nat, v: NodeId)
    requires Supported(q) && Bare(q) && k <= HopCount(q.pattern) && IsChainOf(q.pattern, k) && v in NodeIds(t)
    requires k == 0 ==> HasLabel(t, v, NodeAt(q.pattern, 0).labelName)
    ensures FitsNode(t, parse, q, k, v)
  {
    var r :| r in t.nodes && r.id == v;
    assert AllHold(parse, r.properties, []);
    BareMatches(t, parse, NodeAt(q.pattern, 0), v);
  }

  lemma {:induction false} WalkFits(
      t: Tables, parse: TsParser, q: Query, k: nat, vs: seq<NodeId>, ps: seq<seq<EdgeRow>>)
    requires Supported(q) && Bare(q) && k <= HopCount(q.pattern) && IsChainOf(q.pattern, k) && |vs| == k + 1
             && |ps| == k
    requires forall j :: 0 <= j <= k ==> vs[j] in NodeIds(t)
    requires HasLabel(t, vs[0], NodeAt(q.pattern, 0).labelName)
    requires forall j :: 1 <= j <= k ==> EdgeMatches(t, EdgeAt(q.pattern, j), vs[j - 1], ps[j - 1], vs[j])
    ensures Fits(t, parse, q, k, vs, ps)
  {
    BareNode(t, parse, q, k, vs[k]);
    if k > 0 {
      ChainPrefix(q.pattern, HopCount(q.pattern));
      WalkFits(t, parse, q, k - 1, vs[..k], ps[..k - 1]);
    }
  }

  /** A bare query is exact only where labels follow. */
  lemma ExactIsFollowing(t: Tables, parse: TsParser, q: Query)
    requires SupportedOn(t, q) && Bare(q) && Exact(t, parse, q)
    ensures LabelsFollow(t, q.pattern)
  {
    var n := HopCount(q.pattern);
    ChainPrefix(q.pattern, n);
    forall vs, ps | Walks(t, q.pattern, vs, ps) ensures LabelsFit(t, q.pattern, n, vs) {
      WalkFits(t, parse, q, n, vs, ps);
      var x := RowOf(q.pattern, n, vs, ps);
      assert BuildsRow(t, parse, q, n, vs, ps, x);
      PlanRows(t, parse, q, x);
      RowOfFits(t, parse, q, n, vs, ps, x);
      PlanAgainstMeaning(t, parse, q, x);
    }
  }

  // ---------------------------------------------------------------- whole runs

  /** The run succeeds with exactly the rows the query means. */
  ghost predicate RunIsExact(w: World, q: Query)
    requires Plannable(q)
  {
    var steps := PlannedSteps(q);
    Denote(w, steps).Ok? && forall x :: x in Denote(w, steps).value <==> Means(w.t, w.parse, q, x)
  }

  lemma ExactRun(w: World, q: Query)
    requires SupportedOn(w.t, q) && IsValid(q, w.t.schema) && AllServed(w)
    ensures RunIsExact(w, q) <==> Exact(w.t, w.parse, q)
  {
    SupportedHasNoSelfComparison(q);
    ValidIsWellScopedIff(q, w.t.schema);
    WellScopedNeverFails(w, PlannedSteps(q));
    forall x ensures x in Denote(w, PlannedSteps(q)).value <==> InAnswer(w.t, w.parse, PlannedSteps(q), x) {
      DistributedIsGlobal(w, PlannedSteps(q), x);
    }
  }

  /** A supported query whose labels follow on the schema graph and whose start is declared
      runs exactly, on every served cluster over any tables of the schema. */
  lemma SchemaGraphSuffices(w: World, g: Tables, q: Query)
    requires Supported(q) && IsValid(q, w.t.schema) && AllServed(w) && TablesOf(w.t, w.t.schema)
    requires IsSchemaGraph(g, w.t.schema) && LabelsFollow(g, q.pattern) && StartDeclared(w.t.schema, FirstStep(q).value)
    ensures RunIsExact(w, q)
  {
    SchemaGraphDecides(w.t.schema, g, q.pattern);
    DeclaredStartIsUsable(w.t, FirstStep(q).value);
    FollowingIsExact(w.t, w.parse, q);
    ExactRun(w, q);
  }

  /** The exact condition for a pattern alone: every run on every served cluster over any
      tables of the schema is exact, if and only if labels follow on the schema graph. */
  lemma RunsAreExactIff(schema: Schema, g: Tables, q: Query, h: Hasher, parse: TsParser)
    requires Supported(q) && Bare(q) && IsValid(q, schema) && IsSchemaGraph(g, schema)
    ensures (forall w :: AllServed(w) && TablesOf(w.t, schema) ==> RunIsExact(w, q)) <==> LabelsFollow(g, q.pattern)
  {
    BareStart(q);
    if LabelsFollow(g, q.pattern) {
      forall w | AllServed(w) && TablesOf(w.t, schema) ensures RunIsExact(w, q) { SchemaGraphSuffices(w, g, q); }
    }
    if forall w :: AllServed(w) && TablesOf(w.t, schema) ==> RunIsExact(w, q) {
      var w := Served(g, h, parse);
      assert RunIsExact(w, q);
      ExactRun(w, q);
      ExactIsFollowing(g, parse, q);
    }
  }

  lemma BareStart(q: Query)
    requires Supported(q) && Bare(q)
    ensures FirstStep(q).value.ResolveAll?
  {
  }
}
