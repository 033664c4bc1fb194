# Distributed graph queries: model and proofs

A Dafny model of the query engine in `graph-engine`: a coordinator plans a query, runs it by
scatter-gather over hash partitions, and each partition serves a CSR adjacency index, node and
edge records and an ordered property index built from the same scanned tables.

The central result is in `Coordinator.dfy` and `QuerySoundness.dfy`. For every graph, every
partition count, every hash function, every order in which hash maps yield their entries and
every membership under which the replica asked about each node holds that node's share: an
accepted query of the supported fragment never fails and returns, without duplicates, exactly
the rows of its declarative meaning on the unpartitioned tables (`QueryMeaning.Means`), ordered
and cut as ORDER BY and LIMIT ask and projected as RETURN asks. The conditions in that sentence
have exact forms of their own: `DistributionLaws.RoutingExactIff` for the membership, `PlannerGaps`,
`SchemaExactness` and `SchemaGraph` for the query, `OrderExactness` for the order. The result is
put together from these layers, each with its own reference:

| layer | file | compared with |
|---|---|---|
| index construction | `IndexBuilder`, `PropertyIndexes`, `IndexLaws` | plain scans of the tables |
| one partition | `LocalExecutor` | breadth-first levels over the adjacency |
| transport | `Wire` | calling the partition directly |
| routing and scatter-gather | `Membership`, `ClusterAccess`, `ScatterGather`, `AntiJoinExecution`, `Dedup` | `Denotation.Denote`, set semantics over tables, hash and the share that answers for each partition |
| unpartitioned reading of a plan | `GlobalAnswer` | `InAnswer`: paths of table edges, no rounds, partitions or replicas |
| planning and validation | `Planning`, `Validation`, `QueryMeaning`, `QuerySoundness` | `Means`: match the pattern, then apply every WHERE condition; `Acceptance`: what a schema asks of a query |
| values | `FilterEval`, `FilterMeaning`, `OrderLimit` | how stored values stand to each other, variant by variant |
| what the planner does not read | `PlannerGaps`, `PlannerExamples` | `Enforced`: the query without it; concrete accepted queries |
| exactness before the run | `SchemaExactness`, `SchemaGraph`, `OrderExactness` | all tables that conform to a schema |
| whole-system laws | `DistributionLaws` | runs with fewer replicas, another partitioning, or misrouted replicas |
| placement | `Rebalance` | rank counting over machine sets |
| schema changes | `Evolution` | validity of all queries |
| order and projection | `OrderLimit`, `Projection`, `Coordinator` | a total preorder, a stable sorted permutation, the records of the tables |

`Basics`, `Sorting`, `GraphModel`, `Plan` and `QueryAst` hold the shared vocabulary. The functions that
program and reference share, because both evaluate values, have meanings of their own that call
neither: `FilterMeaning` for WHERE, `OrderLimit.SortedByValue` for ORDER BY, `Acceptance` for validation,
`Planning.PlannableIff` for planning, `GlobalAnswer.PathIff` for paths.

Code that loops over mutable state is a method with loops (builders, walks, rounds, grouping,
validation, planning, classification, rebalancing); hash-map iteration is a loop that takes any
remaining entry. The CSR buckets are an array filled in place, the validator's error list is a
class. Ghost parameters `t` and `sc` carry the scanned tables and the alias scope a run is
compared with; they do not influence the run.

Left abstract: the node hash, the rendezvous score, the RFC 3339 timestamp parser, and double
arithmetic (a double is NaN or a rank in the numeric order). Integers are unbounded except in
the CSR, where every 32-bit cast is written out and shown harmless below 2^32 nodes and edges.

## What the proofs found

Where documentation and code disagree the model follows the code. `PlannerExamples` holds a
concrete accepted query on clean tables for each of the first five points.

- The planner reads less than the validator accepts. Not read, although accepted: WHERE conditions
  on a typed edge (`EdgeConditionIsDropped`) or beside an inline filter of the start node
  (`ConditionBesideFilterIsDropped`), comparisons outside NOT EXISTS (`ComparisonIsDropped`), inline
  filters of later nodes (`LaterFilterIsDropped`), inline filters of the start node after the first
  (`SecondFilterIsDropped`). These admit rows the query excludes. The module comment in `planner.rs`
  lists only the comparisons. Conditions on an unlabelled node or an untyped edge are rejected
  (`QuerySoundness.UndeclaredIsRejected`).
- A NOT EXISTS condition that does not name the subquery's own edge is not read either; that loses
  rows (`OtherAliasInsideIsDropped`). `PlannerGaps.AnswerIsEnforced` is the exact answer of every such
  query, and `PlannerGaps.SuperfluousAndMissingRows` says which rows are too many and which too few.
- A start filter on a property that is not `@indexed`, or on a timestamp, finds nothing
  (`UnindexedStartFindsNothing`); `SchemaExactness.LookupUsableIff` is the exact condition on the schema.
- Target labels are checked by no step (`TargetLabelIsDropped`). Edge types make up for it exactly where
  the labels follow on the schema graph, one node per label and one edge per edge type
  (`SchemaGraph.RunsAreExactIff`).
- `NOT EXISTS { ... WHERE a.x = a.y }` over the subquery's own edge is accepted and fails with
  `UnknownAlias` at run time (`AcceptedSelfComparisonFails`); such a query never returns a row
  (`QuerySoundness.SelfComparisonNeverAnswers`), and `QuerySoundness.ValidIsWellScopedIff` is the exact condition.
- Discovery lists one replica under every partition its annotation names, but a replica serves one
  generation and a call names no partition. A replica listed where its share is not hides the edges
  of that partition's nodes and lets their rows pass NOT EXISTS (`DistributionLaws.MisroutedNode`);
  answers are right on all tables iff the replica asked about each node holds its share
  (`DistributionLaws.RoutingExactIff`).
- NOT EXISTS drops a row whose outer value is missing, null, a list, a timestamp or bytes.
- A lower hop bound of zero still takes one edge.
- An edge with only one endpoint in the tables makes the partitioning visible;
  `DistributionLaws.PartitioningInvisibleIff` shows it is the only thing that does.
- Index-backed and hydrated WHERE disagree on a column of mixed variants under `<`, `<=`, `>` and `>=`, and on
  timestamps beside text; `IndexLaws.WherePathsAgreeIff` is the exact condition.
- Evolution: dropping `@indexed`, adding a required property or changing an edge type's endpoints
  is classified compatible, although `evolution.rs` speaks of new optional properties only.
- ORDER BY ... DESC puts rows without a value first; `TASKS.md:672-676` promises them last.

## Model

Paths are relative to the root of the repository.

| member | source | states |
|---|---|---|
| Coordinator.ExecuteQuery | graph-engine/bin/graph-coordinator/src/service.rs:90-333 | each failure in its turn and for exactly its reason: syntax, validation, planner panic, discovery, execution; otherwise one message per kept row, projected from the records of the tables, where the rows are the plan's denotation without duplicates, ordered by the stored keys and cut at LIMIT; for accepted supported queries on a served cluster never an execution error, and exactly the rows the query means |
| Projection.ProjectRow | graph-engine/bin/graph-coordinator/src/service.rs:254-325 | the message of a row holds under each key the value of the last RETURN item that has one, and the hydrated record of every bare alias |
| Projection.EveryItemIsAnswered | graph-engine/bin/graph-coordinator/src/service.rs:254-325 | since aliases hold no dot, every RETURN item is found under its own key with its own value, and is absent exactly when it has none |
| Projection.ClientReadsRow | graph-engine/bin/graph-coordinator/src/service.rs:254-325 | a bare alias shows the id as a signed integer, the node's own label and exactly its properties that are neither lists nor null, each under its own variant; `alias.property` carries the stored value, or nothing when it is absent, a list or null |
| Projection.ClientReadsEdge | graph-engine/bin/graph-coordinator/src/service.rs:254-325 | the same for an edge |
| Coordinator.SortAgrees | graph-engine/bin/graph-coordinator/src/service.rs:441-489 | sorting by hydrated records equals sorting by the tables: only the comparator's verdicts on the rows at hand matter |
| QuerySoundness.ValidQueryIsAnswered | graph-engine/crates/graph-query/src/distributed_executor.rs:156-197 | an accepted supported query over any partitioning with all partitions served succeeds with exactly the rows it means on the unpartitioned tables |
| AntiJoinExecution.Execute | graph-engine/crates/graph-query/src/distributed_executor.rs:156-197 | over any membership, partitions without a replica and replicas listed under other partitions included: a duplicate-free sequence whose set is the denotation of the plan as it arrives through the wire, or exactly the denotation's error |
| GlobalAnswer.DistributedIsGlobal | graph-engine/crates/graph-query/src/distributed_executor.rs:883-893 | with unique ids, endpoints present and the replica asked about each node holding its share, a row is answered iff it is in the plan's answer on the unpartitioned graph |
| ScatterGather.BroadcastResolve | graph-engine/crates/graph-query/src/distributed_executor.rs:202-236 | asking every partition in any order yields each matching node of every share that answers exactly once, also when one share answers for several partitions |
| ScatterGather.OneRound | graph-engine/crates/graph-query/src/distributed_executor.rs:317-343 | one network round steps every binding over exactly the table edges at its cursor, where the share asked for the cursor holds it, in any partition order; the only error is an unbound cursor |
| ScatterGather.ScatterGatherHop | graph-engine/crates/graph-query/src/distributed_executor.rs:240-311 | the accepted rows are the union of the rounds from min to max, each row once; fails iff a nonempty frontier lacks the from-alias and a round is due |
| GlobalAnswer.RoundsAreWalks | graph-engine/crates/graph-query/src/distributed_executor.rs:261-305 | after round d the frontier holds exactly the rows of walks of length d |
| GlobalAnswer.AcceptedAreWalks | graph-engine/crates/graph-query/src/distributed_executor.rs:261-305 | accepted is the union of walk rows for lengths max(1, min) to max |
| GlobalAnswer.PathIff | graph-engine/crates/graph-query/src/local_executor.rs:115-209 | the paths of the reference are sequences of table edges of the named type, if one is named, that follow each other along sources and targets, or against them for an incoming hop |
| GlobalAnswer.HopIsGlobal | graph-engine/crates/graph-query/src/distributed_executor.rs:240-397 | a hop with its WHERE filters equals all typed paths of the allowed lengths in the edge table whose target passes |
| ScatterGather.FilterFrontier | graph-engine/crates/graph-query/src/distributed_executor.rs:352-397 | keeps, in order, exactly the rows whose target's record is reachable and passes every filter |
| AntiJoinExecution.CandidateIsRefutation | graph-engine/crates/graph-query/src/local_executor.rs:233-297 | the from-node's partition finds a blocking entry iff the global table has an edge that refutes NOT EXISTS |
| AntiJoinExecution.ResolveAndGroupByCondition | graph-engine/crates/graph-query/src/distributed_executor.rs:449-532 | the condition groups partition the resolvable frontier, nothing lost or duplicated, each member under conditions equal to its own; otherwise the first unbound outer alias |
| AntiJoinExecution.CheckGroup | graph-engine/crates/graph-query/src/distributed_executor.rs:405-447 | one condition group keeps exactly the rows the share asked for them does not refute, whatever the partition order |
| AntiJoinExecution.ExecuteAntiJoin | graph-engine/crates/graph-query/src/distributed_executor.rs:405-532 | the whole step equals the per-row denotation, errors included |
| GlobalAnswer.SurvivalIsNotExists | graph-engine/crates/graph-query/src/distributed_executor.rs:405-532 | a row survives iff every outer value is stored as an integer, double, boolean or text and no edge of the global table satisfies the conditions with those values substituted |
| GlobalAnswer.AntiJoinIsGlobal | graph-engine/crates/graph-query/src/distributed_executor.rs:405-532 | the step's result is the rows of the prefix for which that holds |
| FilterEval.EqualConditionsAgree | graph-engine/crates/graph-query/src/distributed_executor.rs:505-532 | condition lists the grouping calls equal judge every record alike, signed zeros included |
| FilterMeaning.LiteralMatchesIff | graph-engine/crates/graph-query/src/filter_eval.rs:23-64 | for every stored value, operator and literal: evaluation holds iff the two have one variant and stand to each other as the operator says (integers, double ranks, false before true, text by first differing character), or a time stamp stands so to the instant the text names; across types, with a NaN or unreadable text never |
| FilterMeaning.AllHoldIff | graph-engine/crates/graph-query/src/filter_eval.rs:13-21 | a list of filters holds of a record iff it has every named property with a value that stands so |
| FilterMeaning.LiteralOfValue | graph-engine/crates/graph-query/src/distributed_executor.rs:643-654 | a stored value resolves iff it is an integer, double, boolean or text, and then to the literal that writes it |
| Basics.CompareStrMeans | graph-engine/crates/graph-query/src/filter_eval.rs:23-64 | text compares less iff at the first difference it ends or has the smaller character; only equal text ties |
| ClusterAccess.GroupByOwningNodePartition | graph-engine/crates/graph-query/src/distributed_executor.rs:616-638 | each partition gets exactly its own rows in frontier order; fails iff some row lacks the alias |
| ClusterAccess.GetNodeProperties | graph-engine/crates/graph-query/src/distributed_executor.rs:541-566 | a record is returned iff the replica asked about the node holds it, and it is the table's row with its label, less lists and nulls |
| ClusterAccess.GetEdgeProperties | graph-engine/crates/graph-query/src/distributed_executor.rs:568-592 | the early-exit broadcast equals a lookup over all shares that answer, in any partition order |
| ClusterAccess.ListedWhereHeldIsRight | graph-engine/crates/graph-cluster/src/discovery.rs:80-104 | where every replica is listed only under the partition it serves, exactly the partitions with a healthy replica answer, each with its own share |
| Membership.FirstHealthyLaws | graph-engine/crates/graph-query/src/distributed_executor.rs:598-600 | the replica asked is the first healthy one listed, and there is one iff some is healthy |
| Coordinator.MembershipServes | graph-engine/crates/graph-cluster/src/discovery.rs:80-104 | such a membership with a healthy replica for every partition serves every node |
| DistributionLaws.MisroutedNode | graph-engine/bin/graph-partition-node/src/service.rs:42-53 | a replica listed under a partition it does not hold hides the records and edges of that partition's nodes, and their rows survive every NOT EXISTS whose outer values resolve |
| DistributionLaws.RoutingExactIff | graph-engine/crates/graph-cluster/src/discovery.rs:80-104 | the membership answers every plan on all clean tables as a fully served cluster iff the replica asked about each node holds that node's share |
| Dedup.KeyIsInjective | graph-engine/crates/graph-query/src/distributed_executor.rs:666-680 | two bindings with the same key are equal |
| Dedup.DedupBindings | graph-engine/crates/graph-query/src/distributed_executor.rs:682-688 | keeps first occurrences in order, and is the identity on a duplicate-free sequence |
| Denotation.DenoteFitsScope | graph-engine/crates/graph-query/src/distributed_executor.rs:156-197 | every row of every frontier binds exactly the aliases fixed by the executed plan prefix |
| DistributionLaws.LosingReplicasLosesRows | graph-engine/crates/graph-query/src/distributed_executor.rs:332-340 | fewer live partitions answer a subset of the rows over whole plans, through NOT EXISTS too, and never turn success into an error |
| DistributionLaws.DegradedRowsAreAnswers | graph-engine/crates/graph-query/src/distributed_executor.rs:332-340 | on clean tables a degraded cluster returns only rows of the full answer |
| DistributionLaws.PartitioningInvisible | graph-engine/crates/graph-query/src/distributed_executor.rs:883-893 | any two partitionings of the same tables give the same rows or the same error |
| DistributionLaws.HalfEdgeShows | graph-engine/crates/graph-index/src/builder.rs:240-257 | for every edge with one missing endpoint, a plan and two hash functions that answer differently |
| DistributionLaws.PartitioningInvisibleIff | graph-engine/crates/graph-index/src/builder.rs:240-257 | the partitioning is invisible to all plans iff no edge has exactly one endpoint in the tables |
| DistributionLaws.IncomingNotExistsLeaks | graph-engine/crates/graph-dsl/src/validator.rs:165-216 | why NOT EXISTS must be outgoing: on any table an incoming check passes iff no satisfying edge has both endpoints on one partition |
| DistributionLaws.WellScopedNeverFails | graph-engine/crates/graph-query/src/distributed_executor.rs:156-197 | a plan whose steps read bound aliases only never fails, whatever the tables, hash and replicas |
| DistributionLaws.AliasedHopCountsEdges | graph-engine/crates/graph-query/src/local_executor.rs:129-203 | a fresh aliased single hop yields one row per binding and matching edge, parallel and cross-partition edges included |
| LocalExecutor.ExpandBinding | graph-engine/crates/graph-query/src/local_executor.rs:115-209 | one binding's walk, in any visiting order, collects exactly the rows and remote hand-offs of levels min to max, without an edge alias one for each node reached |
| LocalExecutor.ExpandHopLocal | graph-engine/crates/graph-query/src/local_executor.rs:88-231 | the local half of a hop over a whole frontier, with index-backed filters and its three errors |
| LocalExecutor.ApplyFilters | graph-engine/crates/graph-query/src/local_executor.rs:299-329 | keeps exactly the rows every index lookup allows, and fails iff some filter has no index form |
| LocalExecutor.NoIndexFormIff | graph-engine/crates/graph-query/src/local_executor.rs:331-372 | a filter has no index form iff it is `<>` or compares with a double, each with its own error |
| LocalExecutor.CheckAntiJoinLocal | graph-engine/crates/graph-query/src/local_executor.rs:233-297 | keeps, in order and with repetitions, the bindings without a blocking entry; fails iff some binding lacks an anchor, naming the one the first such binding lacks, the from-alias before the to-alias |
| IndexLaws.OneShotWalkIsScatter | graph-engine/crates/graph-query/src/local_executor.rs:115-209 | on one partition the one-shot walk, or the single hop an edge alias allows, reaches exactly what the round-by-round scatter accepts, with no remote hand-off |
| IndexLaws.WherePathsAgreeIff | graph-engine/crates/graph-query/src/local_executor.rs:331-372 | for any stored value of an indexed property, index lookup and hydrated evaluation agree iff value and literal share a variant, the value has no key, or the operator excludes the variant (a timestamp: lies on the operator's side of the parsed text) |
| IndexLaws.TwoWherePathsAgree | graph-engine/crates/graph-query/src/local_executor.rs:299-372 | where they agree filter by filter, intersecting index lookups selects a node iff hydrating its record and evaluating all filters does |
| IndexLaws.TimestampPaths | graph-engine/crates/graph-query/src/local_executor.rs:331-372 | where the two WHERE paths part: what each answers for a timestamp beside a text literal |
| IndexLaws.EdgeOccursOnce | graph-engine/crates/graph-index/src/builder.rs:62-172 | an edge is listed once in the adjacency of its near endpoint on that endpoint's partition and nowhere else, in each direction, and once in the edge records of its source's partition |
| IndexLaws.PartitionShareOfScan | graph-engine/crates/graph-index/src/builder.rs:279-305 | a partition's equality lookup is the global one restricted to its own nodes |
| IndexLaws.PartitionShareOfRange | graph-engine/crates/graph-index/src/builder.rs:279-305 | the same for range lookups |
| IndexBuilder.FillBuckets | graph-engine/crates/graph-index/src/builder.rs:214-262 | the buckets, filled in place, hold the scan-order edges at each local node |
| IndexBuilder.BuildCsr | graph-engine/crates/graph-index/src/builder.rs:214-277 | offsets rise from 0 to the number of entries and each row slices out the scan of its node; no cast truncates below 2^32 edges |
| IndexBuilder.BuildTopology | graph-engine/crates/graph-index/src/builder.rs:174-212 | both directions are such scans over exactly the owned nodes |
| IndexBuilder.Build | graph-engine/crates/graph-index/src/builder.rs:62-172 | the generation is the partition's exact share of the tables: adjacency, node records, edge records and property index |
| ClusterAccess.NeighborMembers | graph-engine/crates/graph-index/src/lib.rs:73-89 | the neighbours of a node are exactly its table edges, local, remote or dangling, and none for foreign nodes |
| PropertyIndexes.BuildPropertyIndex | graph-engine/crates/graph-index/src/builder.rs:279-305 | every equality lookup of the built index equals a scan of the rows in scan order |
| PropertyIndexes.ScanEqNoDup | graph-engine/crates/graph-index/src/builder.rs:279-305 | with unique ids and property names each node is listed once |
| PropertyIndexes.RangeLookupIsScan | graph-engine/crates/graph-index/src/lib.rs:133-147 | a range lookup holds exactly the nodes with a key in bounds, once each and ascending by key |
| PropertyIndexes.CompareKeyLaws | graph-engine/crates/graph-index/src/lib.rs:110-116 | the derived key order is antisymmetric, and equal keys are identical |
| PropertyIndexes.KeyOrderIff | graph-engine/crates/graph-index/src/lib.rs:110-116 | integers come before booleans, text and time stamps in this order, and within a variant the smaller value first |
| PropertyIndexes.KeyOfValueIff | graph-engine/crates/graph-index/src/builder.rs:307-318 | integers, booleans, text and time stamps are indexed under their own value, other values not at all |
| Wire.RpcExpandHop | graph-engine/bin/graph-coordinator/src/grpc_partition_rpc.rs:152-205 | the hop through both codecs is the local hop of the step as it arrives (an empty name arrives as no name), with remote rows flattened in |
| Wire.RpcCheckAntiJoin | graph-engine/bin/graph-coordinator/src/grpc_partition_rpc.rs:207-235 | sending indices of survivors and picking them is exact for the step as it arrives, also for frontiers with duplicates; the error is that of the first binding without an anchor |
| Wire.MembersAreSurvivors | graph-engine/bin/graph-partition-node/src/service.rs:176-225 | recomputing survivors by membership loses and adds nothing, duplicates included |
| Wire.RpcResolveStart | graph-engine/bin/graph-coordinator/src/grpc_partition_rpc.rs:95-126 | the lookup through the codecs is the local lookup |
| Wire.FiltersRoundTrip | graph-engine/bin/graph-partition-node/src/service.rs:385-434 | decoding encoded filters gives them back |
| Wire.BindingsRoundTrip | graph-engine/bin/graph-coordinator/src/grpc_partition_rpc.rs:332-364 | decoding encoded bindings gives them back |
| Wire.OptionRoundTrip | graph-engine/bin/graph-partition-node/src/service.rs:108-150 | an optional name survives the wire iff it is not the empty text |
| Wire.TransportKeepsAll | graph-engine/bin/graph-partition-node/src/service.rs:310-347 | losing lists and nulls never changes a WHERE verdict |
| Wire.TransportKeepsLiterals | graph-engine/crates/graph-query/src/distributed_executor.rs:643-652 | nor the value an outer condition resolves to |
| Planning.PlanQuery | graph-engine/crates/graph-query/src/planner.rs:31-125 | plans exactly the plannable queries: start step, one hop per edge with its pushed-down filters, one trailing anti-join per NOT EXISTS; every other query panics, for the reason met first |
| Planning.PlannableIff | graph-engine/crates/graph-query/src/planner.rs:31-178 | plannable iff the pattern is a chain from a labelled node, every NOT EXISTS is one hop, and the start has either no filter or condition, or a first inline filter, or for want of one a single condition, that is an equality with a literal other than a double; the plan then starts with all nodes of the label or the lookup of that filter's value |
| Planning.StartStepFails | graph-engine/crates/graph-query/src/planner.rs:127-178 | which panic each start gives that cannot start a plan: no label, two conditions, another operator, a double |
| Planning.CompileAntiJoin | graph-engine/crates/graph-query/src/planner.rs:193-236 | sorts the subquery's conditions into literal and outer ones, flipping those with the inner alias on the right; fails iff the subquery is not one hop |
| Planning.FlipUndoesSwap | graph-engine/crates/graph-query/src/planner.rs:238-247 | the flipped operator on swapped sides means the same, and flipping twice is the identity |
| QueryMeaning.LookupIsFilter | graph-engine/crates/graph-query/src/planner.rs:127-178 | the index lookup finds a row iff the filter accepts it, the property is indexed and its value is no timestamp |
| QueryMeaning.ComparisonIsCondition | graph-engine/crates/graph-query/src/planner.rs:193-236 | a comparison with the candidate edge on either side means what the compiled outer condition says with the outer value substituted |
| QueryMeaning.PropertyHoldsIff | graph-engine/crates/graph-query/src/filter_eval.rs:13-64 | a property condition of the reference holds of a row iff the record bound to its alias stores a value that stands to the literal as the operator says |
| QueryMeaning.ValuesSatisfyIff | graph-engine/crates/graph-query/src/filter_eval.rs:23-64 | so does a comparison of two stored values, a time stamp beside text included |
| QueryMeaning.AntiJoinIsNotExists | graph-engine/crates/graph-query/src/planner.rs:193-236 | the compiled anti-join keeps a row iff its NOT EXISTS holds |
| QueryMeaning.ChainIsMatch | graph-engine/crates/graph-query/src/planner.rs:31-95 | the planned chain answers the rows of pattern matches that pass the routed filters |
| QueryMeaning.PlanAgainstMeaning | graph-engine/crates/graph-query/src/planner.rs:31-247 | for every supported query the plan differs from the meaning only in unchecked target labels and start nodes the index does not hold |
| QueryMeaning.PlanMeansQuery | graph-engine/crates/graph-query/src/planner.rs:31-247 | they agree where edge types imply target labels and the start property is indexed without timestamps |
| SchemaExactness.LabelsImpliedIff | graph-engine/crates/graph-schema/src/parser.rs:66-85 | edges imply the target labels on all tables of a schema iff every edge type a hop to a labelled target may take is declared to end in that label |
| SchemaExactness.LookupUsableIff | graph-engine/crates/graph-query/src/planner.rs:127-178 | the index serves the start filter on all tables of a schema iff the property is declared `@indexed` and not only as a timestamp |
| SchemaExactness.SchemaDecides | graph-engine/crates/graph-query/src/planner.rs:31-247 | from query and schema alone: an accepted query with distinct aliases, no self comparison and declared targets and start succeeds on every served cluster over tables of the schema with exactly the rows of what the planner reads |
| SchemaExactness.SchemaDecidesMeaning | graph-engine/crates/graph-query/src/planner.rs:31-247 | and with exactly the rows it means, if the planner reads all of it |
| SchemaGraph.SchemaGraphExists | graph-engine/crates/graph-schema/src/parser.rs:66-85 | every schema the parser lets through has a schema graph: conforming tables with one node per label and an edge per edge type |
| SchemaGraph.SchemaGraphDecides | graph-engine/crates/graph-query/src/planner.rs:56-93 | wherever a pattern can be walked its targets carry their labels, on all tables of a schema iff on the schema graph |
| SchemaGraph.SchemaGraphSuffices | graph-engine/crates/graph-query/src/planner.rs:31-247 | then every accepted supported query with a declared start succeeds with exactly the rows it means, on every served cluster over any tables of the schema |
| SchemaGraph.RunsAreExactIff | graph-engine/crates/graph-query/src/planner.rs:56-93 | for a pattern alone both directions: all runs on all served clusters over all tables of the schema are exact iff labels follow on the schema graph |
| PlannerGaps.UnreadLeavesNoTrace | graph-engine/crates/graph-query/src/planner.rs:42-236 | removing the inline filters, WHERE conditions and NOT EXISTS conditions the planner does not read does not change the plan |
| PlannerGaps.UnroutedKinds | graph-engine/crates/graph-query/src/planner.rs:42-86 | the WHERE conditions of an accepted query that are not read are exactly its comparisons, its conditions on typed edges and those on a start node with an inline filter |
| PlannerGaps.EnforcedIsSupported | graph-engine/crates/graph-query/src/planner.rs:31-247 | what is left of any accepted plannable query with distinct aliases is in the supported fragment, unless a NOT EXISTS compares its own edge with itself |
| PlannerGaps.MeaningAgainstEnforced | graph-engine/crates/graph-query/src/planner.rs:31-247 | query and what is left of it, row by row: what is left admits the rows that fail something unread and loses those a NOT EXISTS spares only by an unread condition |
| PlannerGaps.AnswerIsEnforced | graph-engine/crates/graph-query/src/planner.rs:31-247 | the exact answer of every such query: the meaning of what is left of it, up to target labels and what the index holds |
| PlannerGaps.SuperfluousAndMissingRows | graph-engine/crates/graph-query/src/planner.rs:31-247 | where labels are implied and the lookup is usable, the superfluous rows are exactly the answers that fail something unread outside NOT EXISTS, the missing ones exactly the meant rows that meet an edge only unread conditions would excuse |
| PlannerExamples.EdgeConditionIsDropped | graph-engine/crates/graph-query/src/planner.rs:42-86 | a concrete accepted query whose plan returns a row its condition on a typed edge excludes |
| PlannerExamples.ConditionBesideFilterIsDropped | graph-engine/crates/graph-query/src/planner.rs:140-160 | the same for a condition on a start node with an inline filter |
| PlannerExamples.ComparisonIsDropped | graph-engine/crates/graph-query/src/planner.rs:42-86 | the same for a comparison outside NOT EXISTS |
| PlannerExamples.LaterFilterIsDropped | graph-engine/crates/graph-query/src/planner.rs:56-93 | the same for an inline filter of a later node |
| PlannerExamples.SecondFilterIsDropped | graph-engine/crates/graph-query/src/planner.rs:140-160 | the same for a second inline filter of the start node |
| PlannerExamples.TargetLabelIsDropped | graph-engine/crates/graph-query/src/local_executor.rs:115-209 | the same for the label of a target |
| PlannerExamples.UnindexedStartFindsNothing | graph-engine/crates/graph-query/src/planner.rs:127-178 | a concrete accepted query that misses the row it means, for want of an index |
| PlannerExamples.OtherAliasInsideIsDropped | graph-engine/crates/graph-query/src/planner.rs:205-226 | a concrete accepted query that misses a row, for a NOT EXISTS condition that does not name the subquery's edge |
| PlannerExamples.AcceptedSelfComparisonFails | graph-engine/crates/graph-query/src/planner.rs:205-226 | a concrete accepted query that fails on every served cluster, however partitioned |
| Validation.Validate | graph-engine/crates/graph-dsl/src/validator.rs:33-73 | accepts exactly the queries a schema admits (`Acceptance.Acceptable`), and otherwise returns all violations in order |
| Validation.AcceptedIff | graph-engine/crates/graph-dsl/src/validator.rs:33-384 | accepted iff every label and edge type is declared, every property read is declared under the last label or type its alias was given with a type its operator fits, aliases are bound, named edges are single hops, and every NOT EXISTS is one outgoing single hop between bare bound nodes with conditions that meet the same |
| Validation.OperatorsFit | graph-engine/crates/graph-dsl/src/validator.rs:368-384 | `=` and `<>` fit every type but lists and vectors, the orders fit integers, doubles and time stamps |
| Validation.FindsFirst | graph-engine/crates/graph-dsl/src/validator.rs:318-366 | a property is looked up as its first declaration |
| Validation.ValidateConditions | graph-engine/crates/graph-dsl/src/validator.rs:110-163 | pushes the violations of each condition, through NOT EXISTS with its own scope |
| Validation.ValidateNotExists | graph-engine/crates/graph-dsl/src/validator.rs:165-216 | pushes shape, anchor and direction violations and those of the inner conditions |
| Validation.ErrorList.Push | graph-engine/crates/graph-dsl/src/validator.rs:33-73 | appends one violation |
| QuerySoundness.ValidIsWellScopedIff | graph-engine/crates/graph-dsl/src/validator.rs:33-301 | the plan of an accepted query reads bound aliases only, iff no NOT EXISTS compares its own edge with itself under an alias the pattern lacks |
| QuerySoundness.SelfComparisonFails | graph-engine/crates/graph-query/src/distributed_executor.rs:455-466 | such a comparison fails with an unknown alias as soon as one row reaches it |
| QuerySoundness.SelfComparisonNeverAnswers | graph-engine/crates/graph-query/src/distributed_executor.rs:455-466 | a query with one never returns a row: a run fails or had none to begin with |
| QuerySoundness.UndeclaredIsRejected | graph-engine/crates/graph-dsl/src/validator.rs:279-306 | with distinct aliases, a WHERE condition on an unlabelled node or an untyped edge does not pass validation |
| QuerySoundness.ProjectedAliasesBound | graph-engine/crates/graph-dsl/src/validator.rs:218-301 | every RETURN and ORDER BY alias is bound in every row of every run |
| Evolution.Diff | graph-engine/crates/graph-schema/src/evolution.rs:19-70 | compatible iff every label, edge type and typed property is kept; otherwise the reasons are exactly the removed owners, the declared properties no longer declared, and the retyped ones with their old type and the type of the first new declaration |
| Evolution.CompatibleKeepsQueriesValid | graph-engine/crates/graph-schema/src/evolution.rs:19-70 | every query valid before a compatible change is valid after it, through NOT EXISTS |
| Evolution.CompatibleIsTransitive | graph-engine/crates/graph-schema/src/evolution.rs:19-70 | compatible changes chain |
| Evolution.CompatibleWithSelfIff | graph-engine/crates/graph-schema/src/evolution.rs:54-70 | a schema is compatible with itself iff no name is declared twice with different types |
| Evolution.CompatibleMayDropIndexes | graph-engine/crates/graph-schema/src/evolution.rs:54-70 | dropping all indexes of a label is compatible |
| Rebalance.PlanMoves | graph-engine/crates/graph-cluster/src/rebalance.rs:42-91 | for every partition, missing targets by name, each taking over from the next host that is no target |
| Rebalance.ChosenIff | graph-engine/crates/graph-cluster/src/rebalance.rs:98-116 | a machine is a target iff fewer than the factor outrank it |
| Rebalance.ChosenScoreHighest | graph-engine/crates/graph-cluster/src/rebalance.rs:98-116 | a chosen machine outscores every machine left out, or ties with it and has the smaller name |
| Rebalance.NamesAscend | graph-engine/crates/graph-cluster/src/rebalance.rs:70-75 | additions and removals are paired in dictionary order of their names |
| Rebalance.TargetCount | graph-engine/crates/graph-cluster/src/rebalance.rs:98-116 | as many distinct targets as factor and machines allow |
| Rebalance.TargetsIgnoreOrder | graph-engine/crates/graph-cluster/src/rebalance.rs:98-116 | the order of the machine list does not matter |
| Rebalance.GrowingKeepsTargets | graph-engine/crates/graph-cluster/src/rebalance.rs:98-116 | growing the cluster makes no old machine a target that was none |
| Rebalance.ShrinkingTouchesOnlyLosers | graph-engine/crates/graph-cluster/src/rebalance.rs:98-116 | shrinking leaves untouched every partition that hosted no removed machine |
| Rebalance.AnyMovesAreSafe | graph-engine/crates/graph-cluster/src/rebalance.rs:42-91 | any planned moves in any order never lower a replica count, never remove a target host and add targets only |
| Rebalance.AllMovesReachTargets | graph-engine/crates/graph-cluster/src/rebalance.rs:42-91 | after all moves in any order every partition is hosted by all its targets |
| Rebalance.NothingToMoveIff | graph-engine/crates/graph-cluster/src/rebalance.rs:42-91 | planning yields no moves iff all targets host, leftover hosts or not |
| Rebalance.ReplanningYieldsNothing | graph-engine/crates/graph-cluster/src/rebalance.rs:42-91 | planning again on a map whose hosts are those left by carrying out all moves, in any order, yields none |
| OrderLimit.TotalPreorderIff | graph-engine/bin/graph-coordinator/src/service.rs:498-520 | the comparator is a total preorder on a set of keys iff, once two keys differ, all concrete keys are of their kind |
| OrderLimit.HomogeneousIsSortable | graph-engine/bin/graph-coordinator/src/service.rs:491-520 | keys of one declared scalar type without NaN are such a set |
| OrderExactness.AcceptedOrderIsTotal | graph-engine/crates/graph-dsl/src/validator.rs:218-306 | the validator's check on ORDER BY is enough: on tables of the schema without NaN the comparator is a total preorder on the keys of any rows that match the pattern |
| OrderExactness.AnswersAreOrdered | graph-engine/bin/graph-coordinator/src/service.rs:441-489 | so every answer of a supported declared query is the one stable arrangement of exactly the rows it means |
| OrderLimit.SortedRowsLaws | graph-engine/bin/graph-coordinator/src/service.rs:441-489 | the sorted rows are a stable sorted permutation |
| OrderLimit.SortedByValue | graph-engine/bin/graph-coordinator/src/service.rs:441-520 | of two sorted rows the earlier has at most the later one's value under ASC and at least it under DESC, in the order of the variant: integers, double ranks, false before true, text and bytes by first difference, time stamps |
| OrderLimit.KeyLeqIff | graph-engine/bin/graph-coordinator/src/service.rs:469-520 | the comparator lets one key stand before another unless their values stand the wrong way round or only the second is present, nulls behind values and missing keys last |
| OrderLimit.DroppedComeLater | graph-engine/bin/graph-coordinator/src/service.rs:250-252 | no row LIMIT keeps has a value that should come after that of a row it drops |
| OrderLimit.TruncatedMeans | graph-engine/bin/graph-coordinator/src/service.rs:250-252 | without a limit, or with one no smaller than the rows, all are kept; otherwise that many from the front |
| OrderLimit.RowsWithoutValue | graph-engine/bin/graph-coordinator/src/service.rs:469-489 | rows without a value come last under ASC and first under DESC |
| OrderLimit.LimitKeepsTheFirst | graph-engine/bin/graph-coordinator/src/service.rs:250-252 | LIMIT n keeps min(n, all) rows, none of which comes after a dropped one |
| OrderLimit.ResolveKinds | graph-engine/bin/graph-coordinator/src/service.rs:152-172 | each alias is classified by the first row that binds it |
| OrderLimit.KindIsThePlans | graph-engine/bin/graph-coordinator/src/service.rs:152-172 | that classification is the plan's, so one row is enough |
| Sorting.SortStable | graph-engine/bin/graph-coordinator/src/service.rs:469-489 | elements that tie keep their relative order |
| Sorting.SortedUnique | graph-engine/crates/graph-cluster/src/rebalance.rs:70-75 | under a total order sorting forgets the order a hash map produced |

## Left out

- ScatterGather.OneRound: does not model transport failures of a reachable replica; a call either answers or its partition has no healthy replica.
- Wire.RpcCheckAntiJoin: does not model the 32-bit cast of survivor positions, so frontiers stay below 2^32 rows.
- Wire.RpcExpandHop: an optional name that is the empty text arrives as no name; runs are compared with the plan as it arrives, which is the plan as sent iff no name is empty (`Wire.OptionRoundTrip`).
- OrderLimit.SortedRowsLaws: does not say what the library sort does with an inconsistent comparator beyond returning a permutation; `OrderLimit.TotalPreorderIff` says when that arises.
- PlannerGaps.AnswerIsEnforced: does not cover repeated aliases in a pattern, which the plan overwrites, nor a NOT EXISTS that compares its own edge with itself; `QuerySoundness.SelfComparisonNeverAnswers` covers the latter unless the pattern binds the same alias.
- SchemaExactness.SchemaDecidesMeaning: goes one way; `SchemaGraph.RunsAreExactIff` has both directions for patterns without WHERE. With WHERE a query no table can satisfy is exact for any targets, and `QueryMeaning.PlanAgainstMeaning` has both directions row by row.
- QueryMeaning.LookupIsFilter: does not cover float start filters, on which the planner panics.
- Coordinator.ExecuteQuery: takes the parsed query and the discovered membership as parameters; the grammar and the discovery backends are not modelled.
- Property index ranges whose lower bound exceeds the upper: no caller passes two bounds at once.
- Scanning and writing Iceberg tables, catalogs, Arrow and Parquet conversion: the scanned rows are the input.
- Generation swap and the rebuild timer: one generation per replica is assumed for the length of a query.
- The quality of the hashes, timestamp syntax, and rounding of doubles.
- Client caches, health and status endpoints, tracing, metrics and configuration.
- Schema and query grammars, the viewer, example data and the older code at the repository root.
