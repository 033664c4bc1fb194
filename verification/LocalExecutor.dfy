/** One partition's execution of a plan step against its generation (local_executor.rs):
    start resolution, the bounded breadth-first walk, index-backed WHERE and the NOT EXISTS
    check. Visiting orders are arbitrary throughout. */
module LocalExecutor {
  import opened Basics
  import opened GraphModel
  import opened FilterEval
  import opened PropertyIndexes
  import opened Plan
  import opened IndexBuilder

  /** A generation whose local and remote neighbours are told apart by ownership. */
  ghost predicate Coherent(g: IndexGeneration) {
    && ValidTopology(g.topology)
    && ValidIndex(g.properties)
    && forall v, dir, a :: a in Neighbors(g.topology, v, dir) ==> CoherentEntry(g, a)
  }

  ghost predicate CoherentEntry(g: IndexGeneration, a: AdjacencyEntry) {
    && (a.dstLocal.Some? ==> a.dstLocal.value in g.topology.idToLocal)
    && (a.dstLocal.None? && a.dstRemote.Some? ==> a.dstRemote.value.node !in g.topology.idToLocal)
  }

  // ---------------------------------------------------------------- start resolution

  function ResolveStartLocal(g: IndexGeneration, step: PlanStep): (r: Result<seq<Binding>, ExecutionError>)
    ensures r.Ok? <==> step.ResolveStart?
    ensures r.Ok? ==> |r.value| == |LookupEq(g.properties, step.labelOrType, step.property, step.key)|
  {
    if !step.ResolveStart? then Err(WrongStep)
    else
      var ids := LookupEq(g.properties, step.labelOrType, step.property, step.key);
      Ok(seq(|ids|, i requires 0 <= i < |ids| => FromNode(step.alias, ids[i])))
  }

  /** A label-wide scan of the records, in whatever order the hash map yields them. */
  method ResolveAllLocal(g: IndexGeneration, step: PlanStep) returns (r: Result<seq<Binding>, ExecutionError>)
    ensures r.Ok? <==> step.ResolveAll?
    ensures r.Ok? ==>
      && NoDup(r.value)
      && ToSet(r.value) == set v | v in g.nodeRecords && g.nodeRecords[v].labelName == step.labelName :: FromNode(step.alias, v)
  {
    if !step.ResolveAll? { return Err(WrongStep); }
    var found: seq<Binding> := [];
    var todo := g.nodeRecords.Keys;
    while todo != {}
      invariant todo <= g.nodeRecords.Keys
      invariant NoDup(found)
      invariant ToSet(found) ==
        set v | v in g.nodeRecords.Keys - todo && g.nodeRecords[v].labelName == step.labelName ::
          FromNode(step.alias, v)
      decreases todo
    {
      var v :| v in todo;
      todo := todo - {v};
      if g.nodeRecords[v].labelName == step.labelName {
        ToSetSnoc(found, FromNode(step.alias, v));
        forall u | u != v ensures FromNode(step.alias, u) != FromNode(step.alias, v) {
          assert FromNode(step.alias, u).nodes[step.alias] == u;
        }
        found := found + [FromNode(step.alias, v)];
      }
    }
    r := Ok(found);
  }

  // ---------------------------------------------------------------- what a bounded walk reaches

  function Usable(a: AdjacencyEntry, step: PlanStep): bool
    requires step.ExpandHop?
  {
    TypeMatches(a.edgeType, step.edgeType)
  }

  ghost function LocalEnds(entries: seq<AdjacencyEntry>, step: PlanStep): set<NodeId>
    requires step.ExpandHop?
  {
    set a | a in entries && Usable(a, step) && a.dstLocal.Some? :: a.dstLocal.value
  }

  ghost function LocalRows(entries: seq<AdjacencyEntry>, b: Binding, step: PlanStep): set<Binding>
    requires step.ExpandHop?
  {
    set a | a in entries && Usable(a, step) && a.dstLocal.Some? ::
      Extend(b, step.toAlias, a.dstLocal.value, step.edgeAlias, a.edgeId)
  }

  ghost function RemoteRows(entries: seq<AdjacencyEntry>, b: Binding, step: PlanStep): set<Binding>
    requires step.ExpandHop?
  {
    set a | a in entries && Usable(a, step) && a.dstLocal.None? && a.dstRemote.Some? ::
      Extend(b, step.toAlias, a.dstRemote.value.node, step.edgeAlias, a.edgeId)
  }

  ghost function AllLocalEnds(g: IndexGeneration, nodes: set<NodeId>, step: PlanStep): set<NodeId>
    requires ValidTopology(g.topology) && step.ExpandHop?
  {
    set n, u | n in nodes && u in LocalEnds(Neighbors(g.topology, n, step.direction), step) :: u
  }

  ghost function AllLocalRows(g: IndexGeneration, nodes: set<NodeId>, b: Binding, step: PlanStep): set<Binding>
    requires ValidTopology(g.topology) && step.ExpandHop?
  {
    set n, x | n in nodes && x in LocalRows(Neighbors(g.topology, n, step.direction), b, step) :: x
  }

  ghost function AllRemoteRows(g: IndexGeneration, nodes: set<NodeId>, b: Binding, step: PlanStep): set<Binding>
    requires ValidTopology(g.topology) && step.ExpandHop?
  {
    set n, x | n in nodes && x in RemoteRows(Neighbors(g.topology, n, step.direction), b, step) :: x
  }

  /** The local nodes exactly `d` local hops away. */
  ghost function Level(g: IndexGeneration, v: NodeId, step: PlanStep, d: nat): set<NodeId>
    requires ValidTopology(g.topology) && step.ExpandHop?
  {
    if d == 0 then {v} else AllLocalEnds(g, Level(g, v, step, d - 1), step)
  }

  ghost function RowsAt(g: IndexGeneration, b: Binding, v: NodeId, step: PlanStep, d: nat): set<Binding>
    requires ValidTopology(g.topology) && step.ExpandHop? && d > 0
  {
    if step.edgeAlias.Some? then AllLocalRows(g, Level(g, v, step, d - 1), b, step)
    else if d >= step.hops.min then set u | u in Level(g, v, step, d) :: MoveTo(b, step.toAlias, u)
    else {}
  }

  ghost function RowsUpTo(g: IndexGeneration, b: Binding, v: NodeId, step: PlanStep, d: nat): set<Binding>
    requires ValidTopology(g.topology) && step.ExpandHop?
  {
    if d == 0 then {} else RowsUpTo(g, b, v, step, d - 1) + RowsAt(g, b, v, step, d)
  }

  ghost function RemoteUpTo(g: IndexGeneration, b: Binding, v: NodeId, step: PlanStep, d: nat): set<Binding>
    requires ValidTopology(g.topology) && step.ExpandHop?
  {
    if d == 0 then {} else RemoteUpTo(g, b, v, step, d - 1) + AllRemoteRows(g, Level(g, v, step, d - 1), b, step)
  }

  lemma EmptyLevel(g: IndexGeneration, b: Binding, step: PlanStep)
    requires ValidTopology(g.topology) && step.ExpandHop?
    ensures AllLocalEnds(g, {}, step) == {} && AllLocalRows(g, {}, b, step) == {} && AllRemoteRows(g, {}, b, step) == {}
  {
  }

  lemma EmptyStep(g: IndexGeneration, b: Binding, v: NodeId, step: PlanStep, d: nat)
    requires ValidTopology(g.topology) && step.ExpandHop?
    requires Level(g, v, step, d) == {}
    ensures Level(g, v, step, d + 1) == {}
    ensures RowsUpTo(g, b, v, step, d + 1) == RowsUpTo(g, b, v, step, d)
    ensures RemoteUpTo(g, b, v, step, d + 1) == RemoteUpTo(g, b, v, step, d)
  {
    EmptyLevel(g, b, step);
    assert RowsAt(g, b, v, step, d + 1) == {};
  }

  lemma {:induction false} NothingBeyond(g: IndexGeneration, b: Binding, v: NodeId, step: PlanStep, d: nat, max: nat)
    requires ValidTopology(g.topology) && step.ExpandHop? && d <= max
    requires Level(g, v, step, d) == {}
    ensures RowsUpTo(g, b, v, step, max) == RowsUpTo(g, b, v, step, d)
    ensures RemoteUpTo(g, b, v, step, max) == RemoteUpTo(g, b, v, step, d)
    decreases max - d
  {
    if d < max {
      EmptyStep(g, b, v, step, d);
      NothingBeyond(g, b, v, step, d + 1, max);
    }
  }

  // ---------------------------------------------------------------- expand_hop

  ghost function RemoteSet(remote: seq<(RemoteRef, Binding)>): set<Binding> {
    set x | x in remote :: x.1
  }

  lemma RemoteSetSnoc(remote: seq<(RemoteRef, Binding)>, x: (RemoteRef, Binding))
    ensures RemoteSet(remote + [x]) == RemoteSet(remote) + {x.1}
  {
    forall y | y in RemoteSet(remote) ensures y in RemoteSet(remote + [x]) {
      var z :| z in remote && z.1 == y;
      assert z in remote + [x];
    }
    assert x in remote + [x];
  }

  datatype Progress = Progress(here: seq<Binding>, remote: seq<(RemoteRef, Binding)>, seen: set<(nat, NodeId)>)

  /** Every node marked seen for this binding already has its row. */
  ghost predicate SeenHaveRows(g: IndexGeneration, s: Progress, index: nat, b: Binding, toAlias: string) {
    && (forall m :: m in s.seen ==> m.0 <= index)
    && forall v :: (index, v) in s.seen ==>
         if v in g.topology.idToLocal then MoveTo(b, toAlias, v) in ToSet(s.here)
         else MoveTo(b, toAlias, v) in RemoteSet(s.remote)
  }

  /** What an unaliased walk keeps: its seen set tells the truth. An aliased one keeps none. */
  ghost predicate Open(g: IndexGeneration, step: PlanStep, b: Binding, index: nat, s: Progress)
    requires step.ExpandHop?
  {
    step.edgeAlias.None? ==> SeenHaveRows(g, s, index, b, step.toAlias)
  }

  /** The nodes this binding has reached. */
  ghost function SeenAt(seen: set<(nat, NodeId)>, index: nat): set<NodeId> {
    set m | m in seen && m.0 == index :: m.1
  }

  /** An unaliased walk adds one row for each node it newly reaches, and no other. */
  ghost predicate OneRowEach(step: PlanStep, index: nat, s: Progress, s': Progress)
    requires step.ExpandHop?
  {
    step.edgeAlias.None? ==>
      |s'.here| + |s'.remote| + |SeenAt(s.seen, index)| == |s.here| + |s.remote| + |SeenAt(s'.seen, index)|
  }

  lemma MarkSeen(seen: set<(nat, NodeId)>, index: nat, v: NodeId)
    ensures |SeenAt(seen + {(index, v)}, index)| == |SeenAt(seen, index)| + (if (index, v) in seen then 0 else 1)
  {
    if (index, v) in seen {
      assert seen + {(index, v)} == seen;
    } else {
      assert SeenAt(seen + {(index, v)}, index) == SeenAt(seen, index) + {v};
    }
  }

  /** Between `s` and `s'` exactly these rows were added; a level of an unaliased hop adds
      no local row, for those wait until the whole level is known. */
  ghost predicate Added(
      step: PlanStep, index: nat, s: Progress, s': Progress, here: set<Binding>, remote: set<Binding>)
    requires step.ExpandHop?
  {
    && OneRowEach(step, index, s, s')
    && (step.edgeAlias.None? ==> s'.here == s.here)
    && (step.edgeAlias.Some? ==> ToSet(s'.here) == ToSet(s.here) + here && s'.seen == s.seen)
    && RemoteSet(s'.remote) == RemoteSet(s.remote) + remote
  }

  lemma AddedNothing(step: PlanStep, index: nat, s: Progress)
    requires step.ExpandHop?
    ensures Added(step, index, s, s, {}, {})
  {
  }

  lemma AddedMore(
      step: PlanStep, index: nat, s: Progress, m: Progress, s': Progress, h1: set<Binding>, h2: set<Binding>,
      r1: set<Binding>, r2: set<Binding>)
    requires step.ExpandHop? && Added(step, index, s, m, h1, r1) && Added(step, index, m, s', h2, r2)
    ensures Added(step, index, s, s', h1 + h2, r1 + r2)
  {
  }

  /** One adjacency entry: the body of the innermost loop. */
  method VisitEntry(
      g: IndexGeneration, step: PlanStep, b: Binding, index: nat, a: AdjacencyEntry, next: set<NodeId>, s: Progress)
    returns (next': set<NodeId>, s': Progress)
    requires CoherentEntry(g, a) && step.ExpandHop?
    requires Open(g, step, b, index, s)
    ensures next' == next + LocalEnds([a], step)
    ensures Open(g, step, b, index, s')
    ensures Added(step, index, s, s', LocalRows([a], b, step), RemoteRows([a], b, step))
  {
    next', s' := next, s;
    assert a in [a];
    if !Usable(a, step) { return; }
    if a.dstLocal.Some? {
      next' := next + {a.dstLocal.value};
      if step.edgeAlias.Some? {
        var extended := Extend(b, step.toAlias, a.dstLocal.value, step.edgeAlias, a.edgeId);
        ToSetSnoc(s.here, extended);
        s' := s.(here := s.here + [extended]);
      }
    } else if a.dstRemote.Some? {
      var there := a.dstRemote.value;
      var shouldPush := step.edgeAlias.Some? || (index, there.node) !in s.seen;
      var extended := Extend(b, step.toAlias, there.node, step.edgeAlias, a.edgeId);
      RemoteSetSnoc(s.remote, (there, extended));
      if step.edgeAlias.None? {
        s' := s'.(seen := s'.seen + {(index, there.node)});
        MarkSeen(s.seen, index, there.node);
      }
      if shouldPush {
        s' := s'.(remote := s'.remote + [(there, extended)]);
      }
    }
  }

  lemma EntrySplit(entries: seq<AdjacencyEntry>, a: AdjacencyEntry, b: Binding, step: PlanStep)
    requires step.ExpandHop?
    ensures LocalEnds(entries + [a], step) == LocalEnds(entries, step) + LocalEnds([a], step)
    ensures LocalRows(entries + [a], b, step) == LocalRows(entries, b, step) + LocalRows([a], b, step)
    ensures RemoteRows(entries + [a], b, step) == RemoteRows(entries, b, step) + RemoteRows([a], b, step)
  {
    assert forall x :: x in entries + [a] <==> x in entries || x in [a];
  }

  /** The adjacency entries of one node. */
  method VisitNode(
      g: IndexGeneration, step: PlanStep, b: Binding, index: nat, entries: seq<AdjacencyEntry>, next: set<NodeId>, s: Progress)
    returns (next': set<NodeId>, s': Progress)
    requires step.ExpandHop? && forall a :: a in entries ==> CoherentEntry(g, a)
    requires Open(g, step, b, index, s)
    ensures next' == next + LocalEnds(entries, step)
    ensures Open(g, step, b, index, s')
    ensures Added(step, index, s, s', LocalRows(entries, b, step), RemoteRows(entries, b, step))
  {
    next', s' := next, s;
    AddedNothing(step, index, s);
    NoEntries(b, step);
    for k := 0 to |entries|
      invariant next' == next + LocalEnds(entries[..k], step)
      invariant Open(g, step, b, index, s')
      invariant Added(step, index, s, s', LocalRows(entries[..k], b, step), RemoteRows(entries[..k], b, step))
    {
      EntrySplit(entries[..k], entries[k], b, step);
      TakeNext(entries, k);
      ghost var before := s';
      next', s' := VisitEntry(g, step, b, index, entries[k], next', s');
      AddedMore(step, index, s, before, s', LocalRows(entries[..k], b, step), LocalRows([entries[k]], b, step),
                RemoteRows(entries[..k], b, step), RemoteRows([entries[k]], b, step));
    }
    assert entries[..|entries|] == entries;
  }

  lemma NoEntries(b: Binding, step: PlanStep)
    requires step.ExpandHop?
    ensures LocalEnds([], step) == {} && LocalRows([], b, step) == {} && RemoteRows([], b, step) == {}
  {
  }

  /** One breadth-first level: every node of `current`, in arbitrary order. */
  method VisitLevel(g: IndexGeneration, step: PlanStep, b: Binding, index: nat, current: set<NodeId>, s: Progress)
    returns (next: set<NodeId>, s': Progress)
    requires Coherent(g) && step.ExpandHop?
    requires Open(g, step, b, index, s)
    ensures next == AllLocalEnds(g, current, step)
    ensures Open(g, step, b, index, s')
    ensures Added(step, index, s, s', AllLocalRows(g, current, b, step), AllRemoteRows(g, current, b, step))
  {
    next, s' := {}, s;
    var todo := current;
    AddedNothing(step, index, s);
    EmptyLevel(g, b, step);
    assert current - todo == {};
    while todo != {}
      invariant todo <= current
      invariant next == AllLocalEnds(g, current - todo, step)
      invariant Open(g, step, b, index, s')
      invariant Added(step, index, s, s', AllLocalRows(g, current - todo, b, step), AllRemoteRows(g, current - todo, b, step))
      decreases todo
    {
      var n :| n in todo;
      NodeSplit(g, current - todo, n, b, step);
      assert current - (todo - {n}) == (current - todo) + {n};
      ghost var before := s';
      var entries := Neighbors(g.topology, n, step.direction);
      next, s' := VisitNode(g, step, b, index, entries, next, s');
      AddedMore(step, index, s, before, s', AllLocalRows(g, current - todo, b, step), LocalRows(entries, b, step),
                AllRemoteRows(g, current - todo, b, step), RemoteRows(entries, b, step));
      todo := todo - {n};
    }
    assert current - todo == current;
  }

  lemma NodeSplit(g: IndexGeneration, nodes: set<NodeId>, n: NodeId, b: Binding, step: PlanStep)
    requires ValidTopology(g.topology) && step.ExpandHop?
    ensures AllLocalEnds(g, nodes + {n}, step) == AllLocalEnds(g, nodes, step) + LocalEnds(Neighbors(g.topology, n, step.direction), step)
    ensures AllLocalRows(g, nodes + {n}, b, step) == AllLocalRows(g, nodes, b, step) + LocalRows(Neighbors(g.topology, n, step.direction), b, step)
    ensures AllRemoteRows(g, nodes + {n}, b, step) == AllRemoteRows(g, nodes, b, step) + RemoteRows(Neighbors(g.topology, n, step.direction), b, step)
  {
  }

  /** The pass over `next` that binds every newly reached node of an unaliased hop. */
  method BindReached(g: IndexGeneration, step: PlanStep, b: Binding, index: nat, next: set<NodeId>, s: Progress)
    returns (s': Progress)
    requires step.ExpandHop? && next <= g.topology.idToLocal.Keys
    requires SeenHaveRows(g, s, index, b, step.toAlias)
    ensures SeenHaveRows(g, s', index, b, step.toAlias)
    ensures ToSet(s'.here) == ToSet(s.here) + set u | u in next :: MoveTo(b, step.toAlias, u)
    ensures s'.remote == s.remote && OneRowEach(step, index, s, s')
  {
    s' := s;
    var todo := next;
    while todo != {}
      invariant todo <= next
      invariant SeenHaveRows(g, s', index, b, step.toAlias)
      invariant ToSet(s'.here) == ToSet(s.here) + set u | u in next - todo :: MoveTo(b, step.toAlias, u)
      invariant s'.remote == s.remote && OneRowEach(step, index, s, s')
      decreases todo
    {
      var u :| u in todo;
      todo := todo - {u};
      ToSetSnoc(s'.here, MoveTo(b, step.toAlias, u));
      if (index, u) !in s'.seen {
        MarkSeen(s'.seen, index, u);
        s' := Progress(s'.here + [MoveTo(b, step.toAlias, u)], s'.remote, s'.seen + {(index, u)});
      }
    }
  }

  ghost predicate SeenBefore(s: Progress, index: nat) {
    forall m :: m in s.seen ==> m.0 < index
  }

  /** One depth of the walk: the level, then the rows it contributes. */
  method ExpandDepth(
      g: IndexGeneration, step: PlanStep, b: Binding, index: nat, start: NodeId, depth: nat, current: set<NodeId>,
      s: Progress)
    returns (next: set<NodeId>, s': Progress)
    requires Coherent(g) && step.ExpandHop? && depth > 0
    requires current == Level(g, start, step, depth - 1)
    requires Open(g, step, b, index, s) && SeenBefore(s, index + 1)
    ensures next == Level(g, start, step, depth)
    ensures Open(g, step, b, index, s') && SeenBefore(s', index + 1)
    ensures ToSet(s'.here) == ToSet(s.here) + RowsAt(g, b, start, step, depth)
    ensures RemoteSet(s'.remote) == RemoteSet(s.remote) + AllRemoteRows(g, current, b, step)
    ensures OneRowEach(step, index, s, s')
  {
    next, s' := VisitLevel(g, step, b, index, current, s);
    LevelIsLocal(g, current, step);
    if step.edgeAlias.None? && depth >= step.hops.min {
      s' := BindReached(g, step, b, index, next, s');
    }
  }

  lemma LevelIsLocal(g: IndexGeneration, nodes: set<NodeId>, step: PlanStep)
    requires Coherent(g) && step.ExpandHop?
    ensures AllLocalEnds(g, nodes, step) <= g.topology.idToLocal.Keys
  {
    forall u | u in AllLocalEnds(g, nodes, step) ensures u in g.topology.idToLocal {
      var n, a :| n in nodes && a in Neighbors(g.topology, n, step.direction) && a.dstLocal == Some(u);
      assert CoherentEntry(g, a);
    }
  }

  /** Between `s` and `s'` exactly the rows of the first `d` depths were added. */
  ghost predicate WalkedTo(
      g: IndexGeneration, step: PlanStep, b: Binding, index: nat, start: NodeId, s: Progress, s': Progress, d: nat)
    requires ValidTopology(g.topology) && step.ExpandHop?
  {
    && Open(g, step, b, index, s')
    && SeenBefore(s', index + 1)
    && OneRowEach(step, index, s, s')
    && ToSet(s'.here) == ToSet(s.here) + RowsUpTo(g, b, start, step, d)
    && RemoteSet(s'.remote) == RemoteSet(s.remote) + RemoteUpTo(g, b, start, step, d)
  }

  lemma NotWalked(g: IndexGeneration, step: PlanStep, b: Binding, index: nat, start: NodeId, s: Progress)
    requires ValidTopology(g.topology) && step.ExpandHop? && SeenBefore(s, index)
    ensures WalkedTo(g, step, b, index, start, s, s, 0)
  {
  }

  lemma WalkedMore(
      g: IndexGeneration, step: PlanStep, b: Binding, index: nat, start: NodeId, current: set<NodeId>,
      s: Progress, m: Progress, s': Progress, d: nat)
    requires ValidTopology(g.topology) && step.ExpandHop? && d > 0
    requires WalkedTo(g, step, b, index, start, s, m, d - 1) && current == Level(g, start, step, d - 1)
    requires Open(g, step, b, index, s') && SeenBefore(s', index + 1) && OneRowEach(step, index, m, s')
    requires ToSet(s'.here) == ToSet(m.here) + RowsAt(g, b, start, step, d)
    requires RemoteSet(s'.remote) == RemoteSet(m.remote) + AllRemoteRows(g, current, b, step)
    ensures WalkedTo(g, step, b, index, start, s, s', d)
  {
  }

  lemma WalkEnds(
      g: IndexGeneration, step: PlanStep, b: Binding, index: nat, start: NodeId, s: Progress, s': Progress, d: nat, max: nat)
    requires ValidTopology(g.topology) && step.ExpandHop? && d <= max
    requires WalkedTo(g, step, b, index, start, s, s', d) && Level(g, start, step, d) == {}
    ensures WalkedTo(g, step, b, index, start, s, s', max)
  {
    NothingBeyond(g, b, start, step, d, max);
  }

  /** The rows of one more depth; an empty level adds none at any later depth. */
  method ExtendWalk(
      g: IndexGeneration, step: PlanStep, b: Binding, index: nat, start: NodeId, depth: nat, current: set<NodeId>,
      ghost s: Progress, s0: Progress)
    returns (next: set<NodeId>, s': Progress)
    requires Coherent(g) && step.ExpandHop? && 0 < depth <= step.hops.max
    requires current == Level(g, start, step, depth - 1)
    requires WalkedTo(g, step, b, index, start, s, s0, depth - 1)
    ensures next == Level(g, start, step, depth)
    ensures next != {} ==> WalkedTo(g, step, b, index, start, s, s', depth)
    ensures next == {} ==> WalkedTo(g, step, b, index, start, s, s', step.hops.max)
  {
    next, s' := ExpandDepth(g, step, b, index, start, depth, current, s0);
    WalkedMore(g, step, b, index, start, current, s, s0, s', depth);
    if next == {} { WalkEnds(g, step, b, index, start, s, s', depth, step.hops.max); }
  }

  /** The bounded walk from one binding. */
  method ExpandBinding(g: IndexGeneration, step: PlanStep, b: Binding, index: nat, s: Progress) returns (s': Progress)
    requires Coherent(g) && step.ExpandHop? && step.fromAlias in b.nodes
    requires SeenBefore(s, index)
    ensures SeenBefore(s', index + 1)
    ensures WalkedTo(g, step, b, index, b.nodes[step.fromAlias], s, s', step.hops.max)
  {
    var start := b.nodes[step.fromAlias];
    var current := {start};
    s' := s;
    var depth := 1;
    NotWalked(g, step, b, index, start, s);
    while depth <= step.hops.max
      invariant 1 <= depth <= step.hops.max + 1
      invariant current == Level(g, start, step, depth - 1)
      invariant WalkedTo(g, step, b, index, start, s, s', depth - 1)
    {
      var next;
      next, s' := ExtendWalk(g, step, b, index, start, depth, current, s, s');
      if next == {} { return; }
      current := next;
      depth := depth + 1;
    }
    assert depth - 1 == step.hops.max;
  }

  ghost function FrontierRows(g: IndexGeneration, frontier: seq<Binding>, step: PlanStep): set<Binding>
    requires ValidTopology(g.topology) && step.ExpandHop?
    requires forall b :: b in frontier ==> step.fromAlias in b.nodes
  {
    set b, x | b in frontier && x in RowsUpTo(g, b, b.nodes[step.fromAlias], step, step.hops.max) :: x
  }

  ghost function FrontierRemote(g: IndexGeneration, frontier: seq<Binding>, step: PlanStep): set<Binding>
    requires ValidTopology(g.topology) && step.ExpandHop?
    requires forall b :: b in frontier ==> step.fromAlias in b.nodes
  {
    set b, x | b in frontier && x in RemoteUpTo(g, b, b.nodes[step.fromAlias], step, step.hops.max) :: x
  }

  method WalkFrontier(g: IndexGeneration, step: PlanStep, frontier: seq<Binding>)
    returns (r: Result<Frontier, ExecutionError>)
    requires Coherent(g) && step.ExpandHop?
    ensures r.Ok? <==> forall b :: b in frontier ==> step.fromAlias in b.nodes
    ensures r.Err? ==> r.error == UnknownAlias(step.fromAlias)
    ensures r.Ok? ==>
      && ToSet(r.value.here) == FrontierRows(g, frontier, step)
      && RemoteSet(r.value.remote) == FrontierRemote(g, frontier, step)
  {
    var s := Progress([], [], {});
    for index := 0 to |frontier|
      invariant forall b :: b in frontier[..index] ==> step.fromAlias in b.nodes
      invariant SeenBefore(s, index)
      invariant ToSet(s.here) == FrontierRows(g, frontier[..index], step)
      invariant RemoteSet(s.remote) == FrontierRemote(g, frontier[..index], step)
    {
      var b := frontier[index];
      assert b in frontier;
      if step.fromAlias !in b.nodes { return Err(UnknownAlias(step.fromAlias)); }
      TakeNext(frontier, index);
      FrontierSplit(g, frontier[..index], b, step);
      s := ExpandBinding(g, step, b, index, s);
    }
    assert frontier[..|frontier|] == frontier;
    r := Ok(Frontier(s.here, s.remote));
  }

  lemma FrontierSplit(g: IndexGeneration, frontier: seq<Binding>, b: Binding, step: PlanStep)
    requires ValidTopology(g.topology) && step.ExpandHop?
    requires forall x :: x in frontier + [b] ==> step.fromAlias in x.nodes
    ensures forall x :: x in frontier ==> x in frontier + [b]
    ensures FrontierRows(g, frontier + [b], step) ==
            FrontierRows(g, frontier, step) + RowsUpTo(g, b, b.nodes[step.fromAlias], step, step.hops.max)
    ensures FrontierRemote(g, frontier + [b], step) ==
            FrontierRemote(g, frontier, step) + RemoteUpTo(g, b, b.nodes[step.fromAlias], step, step.hops.max)
  {
    assert forall x :: x in frontier + [b] <==> x in frontier || x == b;
  }

  // ---------------------------------------------------------------- index-backed WHERE

  /** `None` where the source panics: a float has no index key. */
  function LiteralToPropertyKey(literal: Literal): Option<PropertyKey> {
    match literal
    case IntLit(v) => Some(IntKey(v))
    case BoolLit(v) => Some(BoolKey(v))
    case StrLit(v) => Some(StrKey(v))
    case FloatLit(_) => None
  }

  function PropertyFilterMatches(
      index: PropertyIndex, labelName: string, filter: PropertyFilter): Result<seq<NodeId>, ExecutionError> {
    match LiteralToPropertyKey(filter.value)
    case None => Err(FloatKeyPanic)
    case Some(key) =>
      match filter.op
      case Eq => Ok(LookupEq(index, labelName, filter.property, key))
      case Gt => Ok(LookupRange(index, labelName, filter.property, Excluded(key), Unbounded))
      case Gte => Ok(LookupRange(index, labelName, filter.property, Included(key), Unbounded))
      case Lt => Ok(LookupRange(index, labelName, filter.property, Unbounded, Excluded(key)))
      case Lte => Ok(LookupRange(index, labelName, filter.property, Unbounded, Included(key)))
      case Ne => Err(UnsupportedNotEqual(filter.property))
  }

  /** A filter has no index form when it is `<>` or compares with a float. */
  lemma NoIndexFormIff(index: PropertyIndex, labelName: string, filter: PropertyFilter)
    ensures PropertyFilterMatches(index, labelName, filter).Err? <==> filter.op == Ne || filter.value.FloatLit?
    ensures filter.value.FloatLit? ==> PropertyFilterMatches(index, labelName, filter) == Err(FloatKeyPanic)
    ensures filter.op == Ne && !filter.value.FloatLit? ==>
      PropertyFilterMatches(index, labelName, filter) == Err(UnsupportedNotEqual(filter.property))
  {
  }

  ghost predicate IndexAllows(index: PropertyIndex, labelName: string, filters: seq<PropertyFilter>, v: NodeId) {
    forall i :: 0 <= i < |filters| ==>
      var m := PropertyFilterMatches(index, labelName, filters[i]);
      m.Ok? && v in m.value
  }

  ghost function AllowedOnly(
      index: PropertyIndex, labelName: string, filters: seq<PropertyFilter>, toAlias: string,
      bindings: seq<Binding>): seq<Binding>
    requires forall b :: b in bindings ==> toAlias in b.nodes
  {
    if bindings == [] then []
    else
      var last := bindings[|bindings| - 1];
      AllowedOnly(index, labelName, filters, toAlias, bindings[..|bindings| - 1])
      + (if IndexAllows(index, labelName, filters, last.nodes[toAlias]) then [last] else [])
  }

  /** Intersects the matches of all filters. */
  method AllowedNodes(index: PropertyIndex, labelName: string, filters: seq<PropertyFilter>)
    returns (r: Result<set<NodeId>, ExecutionError>)
    requires filters != []
    ensures r.Ok? <==> forall i :: 0 <= i < |filters| ==> PropertyFilterMatches(index, labelName, filters[i]).Ok?
    ensures r.Ok? ==> forall v :: v in r.value <==> IndexAllows(index, labelName, filters, v)
  {
    var allowed: set<NodeId> := {};
    for i := 0 to |filters|
      invariant forall j :: 0 <= j < i ==> PropertyFilterMatches(index, labelName, filters[j]).Ok?
      invariant i > 0 ==> forall v :: v in allowed <==> IndexAllows(index, labelName, filters[..i], v)
    {
      var m := PropertyFilterMatches(index, labelName, filters[i]);
      if m.Err? { return Err(m.error); }
      var matches := set x | x in m.value;
      ghost var before := allowed;
      allowed := if i == 0 then matches else allowed * matches;
      TakeNext(filters, i);
      forall v ensures v in allowed <==> IndexAllows(index, labelName, filters[..i + 1], v) {
        IndexAllowsSnoc(index, labelName, filters[..i], filters[i], v);
      }
    }
    assert filters[..|filters|] == filters;
    r := Ok(allowed);
  }

  lemma IndexAllowsSnoc(
      index: PropertyIndex, labelName: string, filters: seq<PropertyFilter>, f: PropertyFilter, v: NodeId)
    ensures IndexAllows(index, labelName, filters + [f], v) <==>
              && IndexAllows(index, labelName, filters, v)
              && PropertyFilterMatches(index, labelName, f).Ok?
              && v in PropertyFilterMatches(index, labelName, f).value
  {
    var all := filters + [f];
    assert all[|filters|] == f;
    if IndexAllows(index, labelName, all, v) {
      forall i | 0 <= i < |filters|
        ensures PropertyFilterMatches(index, labelName, filters[i]).Ok?
                && v in PropertyFilterMatches(index, labelName, filters[i]).value
      {
        assert all[i] == filters[i];
      }
    }
  }

  /** Keeps the bindings whose target is in the intersection. */
  method ApplyFilters(
      index: PropertyIndex, toLabel: Option<string>, toAlias: string, filters: seq<PropertyFilter>,
      bindings: seq<Binding>)
    returns (r: Result<seq<Binding>, ExecutionError>)
    requires forall b :: b in bindings ==> toAlias in b.nodes
    ensures filters == [] || toLabel.None? ==> r == Ok(bindings)
    ensures filters != [] && toLabel.Some? ==>
      && (r.Ok? <==> forall i :: 0 <= i < |filters| ==> PropertyFilterMatches(index, toLabel.value, filters[i]).Ok?)
      && (r.Ok? ==> r.value == AllowedOnly(index, toLabel.value, filters, toAlias, bindings))
  {
    if filters == [] || toLabel.None? { return Ok(bindings); }
    var allowed := AllowedNodes(index, toLabel.value, filters);
    if allowed.Err? { return Err(allowed.error); }
    var kept: seq<Binding> := [];
    for i := 0 to |bindings|
      invariant kept == AllowedOnly(index, toLabel.value, filters, toAlias, bindings[..i])
    {
      TakeNext(bindings, i);
      if bindings[i].nodes[toAlias] in allowed.value {
        kept := kept + [bindings[i]];
      }
    }
    assert bindings[..|bindings|] == bindings;
    r := Ok(kept);
  }

  lemma {:induction false} RowsBindTarget(g: IndexGeneration, b: Binding, v: NodeId, step: PlanStep, d: nat)
    requires ValidTopology(g.topology) && step.ExpandHop?
    ensures forall x :: x in RowsUpTo(g, b, v, step, d) ==> step.toAlias in x.nodes
  {
    if d > 0 { RowsBindTarget(g, b, v, step, d - 1); }
  }

  ghost predicate AllBound(frontier: seq<Binding>, alias: string) {
    forall b :: b in frontier ==> alias in b.nodes
  }

  /** What `expand_hop` answers: the rows of the bounded walk, the local ones filtered
      through the index when there are filters and a label to route them by. */
  ghost predicate IsExpansion(
      g: IndexGeneration, step: PlanStep, frontier: seq<Binding>, r: Result<Frontier, ExecutionError>)
    requires ValidTopology(g.topology)
  {
    if !step.ExpandHop? then r == Err(WrongStep)
    else if !AllBound(frontier, step.fromAlias) then r == Err(UnknownAlias(step.fromAlias))
    else if step.filters == [] || step.toLabel.None? then
      && r.Ok?
      && ToSet(r.value.here) == FrontierRows(g, frontier, step)
      && RemoteSet(r.value.remote) == FrontierRemote(g, frontier, step)
    else
      && (r.Ok? <==> forall i :: 0 <= i < |step.filters| ==> PropertyFilterMatches(g.properties, step.toLabel.value, step.filters[i]).Ok?)
      && (r.Ok? ==>
            && (forall x :: x in r.value.here <==>
                  && x in FrontierRows(g, frontier, step)
                  && step.toAlias in x.nodes
                  && IndexAllows(g.properties, step.toLabel.value, step.filters, x.nodes[step.toAlias]))
            && RemoteSet(r.value.remote) == FrontierRemote(g, frontier, step))
  }

  /** Walks, then filters the local rows; remote hand-offs pass unfiltered. */
  method ExpandHopLocal(g: IndexGeneration, step: PlanStep, frontier: seq<Binding>)
    returns (r: Result<Frontier, ExecutionError>)
    requires Coherent(g)
    ensures IsExpansion(g, step, frontier, r)
  {
    if !step.ExpandHop? { return Err(WrongStep); }
    var walked := WalkFrontier(g, step, frontier);
    if walked.Err? { return walked; }
    forall x | x in walked.value.here ensures step.toAlias in x.nodes {
      assert x in FrontierRows(g, frontier, step);
      var b :| b in frontier && x in RowsUpTo(g, b, b.nodes[step.fromAlias], step, step.hops.max);
      RowsBindTarget(g, b, b.nodes[step.fromAlias], step, step.hops.max);
    }
    var filtered := ApplyFilters(g.properties, step.toLabel, step.toAlias, step.filters, walked.value.here);
    if filtered.Err? { return Err(filtered.error); }
    if step.filters != [] && step.toLabel.Some? {
      AllowedOnlyMembers(g.properties, step.toLabel.value, step.filters, step.toAlias, walked.value.here);
      assert forall x :: x in walked.value.here <==> x in ToSet(walked.value.here);
    }
    r := Ok(Frontier(filtered.value, walked.value.remote));
  }

  lemma {:induction false} AllowedOnlyMembers(
      index: PropertyIndex, labelName: string, filters: seq<PropertyFilter>, toAlias: string, bindings: seq<Binding>)
    requires forall b :: b in bindings ==> toAlias in b.nodes
    ensures forall x :: x in AllowedOnly(index, labelName, filters, toAlias, bindings) <==>
              x in bindings && IndexAllows(index, labelName, filters, x.nodes[toAlias])
  {
    if bindings != [] {
      AllowedOnlyMembers(index, labelName, filters, toAlias, bindings[..|bindings| - 1]);
      FrontAndLast(bindings);
    }
  }

  // ---------------------------------------------------------------- check_anti_join

  /** The entry leads to `to`, has the type, and its record satisfies every condition. */
  predicate EntryBlocks(
      g: IndexGeneration, parse: TsParser, step: AntiJoinStep, conditions: seq<PropertyFilter>, to: NodeId,
      a: AdjacencyEntry)
  {
    && TypeMatches(a.edgeType, step.edgeType)
    && (a.dstLocal == Some(to) || (a.dstRemote.Some? && a.dstRemote.value.node == to))
    && a.edgeId in g.edgeRecords
    && AllHold(parse, g.edgeRecords[a.edgeId].properties, conditions)
  }

  predicate CandidateExists(
      g: IndexGeneration, parse: TsParser, step: AntiJoinStep, conditions: seq<PropertyFilter>, from: NodeId,
      to: NodeId)
    requires ValidTopology(g.topology)
  {
    var entries := Neighbors(g.topology, from, step.direction);
    exists i :: 0 <= i < |entries| && EntryBlocks(g, parse, step, conditions, to, entries[i])
  }

  ghost predicate AnchorsBound(step: AntiJoinStep, frontier: seq<Binding>) {
    forall b :: b in frontier ==> step.fromAlias in b.nodes && step.toAlias in b.nodes
  }

  /** The first row that lacks an anchor. */
  ghost predicate FirstUnbound(step: AntiJoinStep, frontier: seq<Binding>, i: nat) {
    i < |frontier| && AnchorsBound(step, frontier[..i]) && !AnchorsBound(step, [frontier[i]])
  }

  /** The from-alias is looked up before the to-alias. */
  function UnboundAnchor(step: AntiJoinStep, b: Binding): ExecutionError {
    UnknownAlias(if step.fromAlias !in b.nodes then step.fromAlias else step.toAlias)
  }

  /** The error names the anchor the first row without one lacks. */
  ghost predicate NamesUnbound(step: AntiJoinStep, frontier: seq<Binding>, error: ExecutionError) {
    exists i: nat :: FirstUnbound(step, frontier, i) && error == UnboundAnchor(step, frontier[i])
  }

  lemma OnlyTargetUnbound(step: AntiJoinStep, frontier: seq<Binding>, error: ExecutionError)
    requires AllBound(frontier, step.fromAlias) && NamesUnbound(step, frontier, error)
    ensures error == UnknownAlias(step.toAlias)
  {
    var i: nat :| FirstUnbound(step, frontier, i) && error == UnboundAnchor(step, frontier[i]);
    assert frontier[i] in frontier;
  }

  ghost function Survivors(
      g: IndexGeneration, parse: TsParser, step: AntiJoinStep, conditions: seq<PropertyFilter>,
      frontier: seq<Binding>): seq<Binding>
    requires ValidTopology(g.topology) && AnchorsBound(step, frontier)
  {
    if frontier == [] then []
    else
      var last := frontier[|frontier| - 1];
      Survivors(g, parse, step, conditions, frontier[..|frontier| - 1])
      + (if CandidateExists(g, parse, step, conditions, last.nodes[step.fromAlias], last.nodes[step.toAlias]) then [] else [last])
  }

  method CheckAntiJoinLocal(
      g: IndexGeneration, parse: TsParser, step: AntiJoinStep, conditions: seq<PropertyFilter>, frontier: seq<Binding>)
    returns (r: Result<seq<Binding>, ExecutionError>)
    requires Coherent(g)
    ensures r.Ok? <==> AnchorsBound(step, frontier)
    ensures r.Ok? ==> r.value == Survivors(g, parse, step, conditions, frontier)
    ensures r.Err? ==> NamesUnbound(step, frontier, r.error)
  {
    var survivors: seq<Binding> := [];
    for i := 0 to |frontier|
      invariant AnchorsBound(step, frontier[..i])
      invariant survivors == Survivors(g, parse, step, conditions, frontier[..i])
    {
      var b := frontier[i];
      assert b in frontier;
      assert b in [b];
      assert !AnchorsBound(step, [b]) ==> FirstUnbound(step, frontier, i);
      if step.fromAlias !in b.nodes { return Err(UnknownAlias(step.fromAlias)); }
      if step.toAlias !in b.nodes { return Err(UnknownAlias(step.toAlias)); }
      TakeNext(frontier, i);
      if !CandidateExists(g, parse, step, conditions, b.nodes[step.fromAlias], b.nodes[step.toAlias]) {
        survivors := survivors + [b];
      }
    }
    assert frontier[..|frontier|] == frontier;
    r := Ok(survivors);
  }
}
