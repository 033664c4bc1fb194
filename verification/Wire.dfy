/** The gRPC boundary: both codecs, the partition-side handlers and the client calls. */
module Wire {
  import opened Basics
  import opened GraphModel
  import opened FilterEval
  import opened PropertyIndexes
  import opened Plan
  import opened IndexBuilder
  import opened LocalExecutor

  // ---------------------------------------------------------------- messages

  datatype Kind =
    | Int64Value(i: int)
    | Float64Value(f: F64)
    | BoolValue(b: bool)
    | StringValue(s: string)
    | TimestampValue(micros: int)
    | BytesValue(bytes: seq<byte>)

  datatype ProtoValue = ProtoValue(kind: Option<Kind>)

  datatype ProtoBinding = ProtoBinding(nodeIdsByAlias: map<string, nat>, edgeIdsByAlias: map<string, nat>)

  datatype ProtoFilter = ProtoFilter(property: string, op: int, value: Option<ProtoValue>)

  datatype ProtoRecord = ProtoRecord(name: string, fields: map<string, ProtoValue>)

  datatype ResolveStartRequest = ResolveStartRequest(alias: string, labelOrType: string, property: string, key: Option<ProtoValue>)

  datatype ResolveAllRequest = ResolveAllRequest(alias: string, labelName: string)

  datatype ExpandHopRequest = ExpandHopRequest(
    frontier: seq<ProtoBinding>, fromAlias: string, toAlias: string, toLabel: string, edgeType: string,
    incoming: bool, hopMin: nat, hopMax: nat, filters: seq<ProtoFilter>, edgeAlias: string)

  datatype CheckAntiJoinRequest = CheckAntiJoinRequest(
    frontier: seq<ProtoBinding>, fromAlias: string, toAlias: string, edgeAlias: string, edgeType: string,
    incoming: bool, conditions: seq<ProtoFilter>)

  datatype Status = InvalidArgument | Internal(cause: ExecutionError)

  /** How the client reports a failed call. */
  function StatusToError(s: Status): ExecutionError {
    match s
    case InvalidArgument => Rpc(WrongStep)
    case Internal(cause) => Rpc(cause)
  }

  // ---------------------------------------------------------------- codecs

  function PropertyKeyToProto(key: PropertyKey): ProtoValue {
    match key
    case IntKey(v) => ProtoValue(Some(Int64Value(v)))
    case BoolKey(v) => ProtoValue(Some(BoolValue(v)))
    case StrKey(v) => ProtoValue(Some(StringValue(v)))
    case TimestampKey(v) => ProtoValue(Some(TimestampValue(v)))
  }

  function ProtoToPropertyKey(value: ProtoValue): Result<PropertyKey, Status> {
    match value.kind
    case Some(Int64Value(v)) => Ok(IntKey(v))
    case Some(BoolValue(v)) => Ok(BoolKey(v))
    case Some(StringValue(v)) => Ok(StrKey(v))
    case Some(TimestampValue(v)) => Ok(TimestampKey(v))
    case _ => Err(InvalidArgument)
  }

  function LiteralToProto(literal: Literal): ProtoValue {
    match literal
    case IntLit(v) => ProtoValue(Some(Int64Value(v)))
    case FloatLit(v) => ProtoValue(Some(Float64Value(v)))
    case BoolLit(v) => ProtoValue(Some(BoolValue(v)))
    case StrLit(v) => ProtoValue(Some(StringValue(v)))
  }

  function ProtoToLiteral(value: ProtoValue): Result<Literal, Status> {
    match value.kind
    case Some(Int64Value(v)) => Ok(IntLit(v))
    case Some(Float64Value(v)) => Ok(FloatLit(v))
    case Some(BoolValue(v)) => Ok(BoolLit(v))
    case Some(StringValue(v)) => Ok(StrLit(v))
    case _ => Err(InvalidArgument)
  }

  function OpToProto(op: ComparisonOp): int {
    match op
    case Eq => 0
    case Ne => 1
    case Lt => 2
    case Lte => 3
    case Gt => 4
    case Gte => 5
  }

  function ProtoToOp(op: int): Result<ComparisonOp, Status> {
    if op == 0 then Ok(Eq)
    else if op == 1 then Ok(Ne)
    else if op == 2 then Ok(Lt)
    else if op == 3 then Ok(Lte)
    else if op == 4 then Ok(Gt)
    else if op == 5 then Ok(Gte)
    else Err(InvalidArgument)
  }

  function FilterToProto(f: PropertyFilter): ProtoFilter {
    ProtoFilter(f.property, OpToProto(f.op), Some(LiteralToProto(f.value)))
  }

  function ProtoToFilter(f: ProtoFilter): Result<PropertyFilter, Status> {
    match ProtoToOp(f.op)
    case Err(e) => Err(e)
    case Ok(op) =>
      if f.value.None? then Err(InvalidArgument)
      else
        match ProtoToLiteral(f.value.value)
        case Err(e) => Err(e)
        case Ok(literal) => Ok(PropertyFilter(f.property, op, literal))
  }

  function FiltersToProto(fs: seq<PropertyFilter>): seq<ProtoFilter> {
    seq(|fs|, i requires 0 <= i < |fs| => FilterToProto(fs[i]))
  }

  /** `collect::<Result<Vec<_>, _>>()` */
  function ProtoToFilters(fs: seq<ProtoFilter>): Result<seq<PropertyFilter>, Status> {
    if fs == [] then Ok([])
    else
      match ProtoToFilter(fs[0])
      case Err(e) => Err(e)
      case Ok(f) =>
        match ProtoToFilters(fs[1..])
        case Err(e) => Err(e)
        case Ok(rest) => Ok([f] + rest)
  }

  lemma {:induction false} FiltersRoundTrip(fs: seq<PropertyFilter>)
    ensures ProtoToFilters(FiltersToProto(fs)) == Ok(fs)
  {
    if fs != [] {
      FiltersRoundTrip(fs[1..]);
      assert FiltersToProto(fs)[1..] == FiltersToProto(fs[1..]);
      assert ProtoToFilter(FilterToProto(fs[0])) == Ok(fs[0]);
      assert [fs[0]] + fs[1..] == fs;
    }
  }

  function BindingToProto(b: Binding): ProtoBinding {
    ProtoBinding(map a | a in b.nodes :: b.nodes[a].raw, map a | a in b.edges :: b.edges[a].raw)
  }

  function ProtoToBinding(p: ProtoBinding): Binding {
    Binding(map a | a in p.nodeIdsByAlias :: NodeId(p.nodeIdsByAlias[a]), map a | a in p.edgeIdsByAlias :: EdgeId(p.edgeIdsByAlias[a]))
  }

  function BindingsToProto(bs: seq<Binding>): seq<ProtoBinding> {
    seq(|bs|, i requires 0 <= i < |bs| => BindingToProto(bs[i]))
  }

  function ProtoToBindings(ps: seq<ProtoBinding>): seq<Binding> {
    seq(|ps|, i requires 0 <= i < |ps| => ProtoToBinding(ps[i]))
  }

  lemma BindingRoundTrip(b: Binding)
    ensures ProtoToBinding(BindingToProto(b)) == b
  {
    assert ProtoToBinding(BindingToProto(b)).nodes == b.nodes;
    assert ProtoToBinding(BindingToProto(b)).edges == b.edges;
  }

  lemma BindingsRoundTrip(bs: seq<Binding>)
    ensures ProtoToBindings(BindingsToProto(bs)) == bs
  {
    forall i | 0 <= i < |bs| ensures ProtoToBindings(BindingsToProto(bs))[i] == bs[i] { BindingRoundTrip(bs[i]); }
  }

  /** `unwrap_or_default()` on one side, `(!s.is_empty()).then_some(s)` on the other. */
  function OptionToText(o: Option<string>): string {
    if o.Some? then o.value else ""
  }

  function TextToOption(s: string): Option<string> {
    if s == "" then None else Some(s)
  }

  /** An optional name survives the wire exactly when it is not the empty string. */
  lemma OptionRoundTrip(o: Option<string>)
    ensures TextToOption(OptionToText(o)) == o <==> o != Some("")
  {
  }

  function DirectionOf(incoming: bool): Direction {
    if incoming then Incoming else Outgoing
  }

  function ValueToProto(v: PropertyValue): Option<ProtoValue> {
    match v
    case Int64(x) => Some(ProtoValue(Some(Int64Value(x))))
    case Float64(x) => Some(ProtoValue(Some(Float64Value(x))))
    case Bool(x) => Some(ProtoValue(Some(BoolValue(x))))
    case Str(x) => Some(ProtoValue(Some(StringValue(x))))
    case Timestamp(x) => Some(ProtoValue(Some(TimestampValue(x))))
    case Bytes(x) => Some(ProtoValue(Some(BytesValue(x))))
    case List(_) => None
    case Null => None
  }

  /** The message carries the value, under its own variant; lists and nulls have none. */
  predicate CarriesValue(p: ProtoValue, v: PropertyValue) {
    || (v.Int64? && p.kind == Some(Int64Value(v.i)))
    || (v.Float64? && p.kind == Some(Float64Value(v.f)))
    || (v.Bool? && p.kind == Some(BoolValue(v.b)))
    || (v.Str? && p.kind == Some(StringValue(v.s)))
    || (v.Timestamp? && p.kind == Some(TimestampValue(v.micros)))
    || (v.Bytes? && p.kind == Some(BytesValue(v.bytes)))
  }

  lemma ValueToProtoIff(v: PropertyValue, p: ProtoValue)
    ensures ValueToProto(v) == Some(p) <==> CarriesValue(p, v)
    ensures ValueToProto(v).None? <==> v.List? || v.Null?
  {
  }

  function ProtoToValue(p: ProtoValue): Option<PropertyValue> {
    match p.kind
    case Some(Int64Value(x)) => Some(Int64(x))
    case Some(Float64Value(x)) => Some(Float64(x))
    case Some(BoolValue(x)) => Some(Bool(x))
    case Some(StringValue(x)) => Some(Str(x))
    case Some(TimestampValue(x)) => Some(Timestamp(x))
    case Some(BytesValue(x)) => Some(Bytes(x))
    case None => None
  }

  function PropertiesToProto(ps: Properties): map<string, ProtoValue> {
    map n | n in ps && ValueToProto(ps[n]).Some? :: ValueToProto(ps[n]).value
  }

  function ProtoToProperties(fields: map<string, ProtoValue>): Properties {
    map n | n in fields && ProtoToValue(fields[n]).Some? :: ProtoToValue(fields[n]).value
  }

  /** A property map as it arrives on the other side. */
  function Transported(ps: Properties): Properties {
    ProtoToProperties(PropertiesToProto(ps))
  }

  lemma TransportedLaws(ps: Properties)
    ensures forall n :: n in Transported(ps) <==> n in ps && !ps[n].List? && !ps[n].Null?
    ensures forall n :: n in Transported(ps) ==> Transported(ps)[n] == ps[n]
  {
  }

  /** The codec drops `List` and `Null` values, and no filter can tell. */
  lemma TransportKeepsFilters(parse: TsParser, ps: Properties, filter: PropertyFilter)
    ensures EvaluateFilter(parse, Transported(ps), filter) == EvaluateFilter(parse, ps, filter)
  {
    TransportedLaws(ps);
  }

  lemma TransportKeepsAll(parse: TsParser, ps: Properties, filters: seq<PropertyFilter>)
    ensures AllHold(parse, Transported(ps), filters) == AllHold(parse, ps, filters)
  {
    forall i | 0 <= i < |filters|
      ensures EvaluateFilter(parse, Transported(ps), filters[i]) == EvaluateFilter(parse, ps, filters[i])
    {
      TransportKeepsFilters(parse, ps, filters[i]);
    }
  }

  /** The value an outer reference resolves to, if it can be written as a literal. */
  function LiteralOf(ps: Properties, property: string): Option<Literal> {
    if property in ps then PropertyValueToLiteral(ps[property]) else None
  }

  lemma TransportKeepsLiterals(ps: Properties, property: string)
    ensures LiteralOf(Transported(ps), property) == LiteralOf(ps, property)
  {
    TransportedLaws(ps);
  }

  // ---------------------------------------------------------------- calls

  /** How an optional name arrives: the wire cannot tell an empty one from none. */
  function DeliveredName(name: Option<string>): Option<string> {
    if name == Some("") then None else name
  }

  function DeliveredCheck(step: AntiJoinStep): AntiJoinStep {
    step.(edgeAlias := DeliveredName(step.edgeAlias), edgeType := DeliveredName(step.edgeType))
  }

  /** The step the partitions carry out. */
  function Delivered(step: PlanStep): PlanStep {
    match step
    case ExpandHop(_, _, toLabel, edgeType, _, _, _, edgeAlias) =>
      step.(toLabel := DeliveredName(toLabel), edgeType := DeliveredName(edgeType), edgeAlias := DeliveredName(edgeAlias))
    case AntiJoin(a) => AntiJoin(DeliveredCheck(a))
    case _ => step
  }

  /** Names an `Option` carries over the wire are never empty. */
  predicate WireSafe(step: PlanStep) {
    match step
    case ExpandHop(_, _, toLabel, edgeType, _, _, _, edgeAlias) =>
      toLabel != Some("") && edgeType != Some("") && edgeAlias != Some("")
    case AntiJoin(a) => a.edgeType != Some("") && a.edgeAlias != Some("")
    case _ => true
  }

  function ServeResolveStart(g: IndexGeneration, req: ResolveStartRequest): Result<seq<ProtoBinding>, Status> {
    if req.key.None? then Err(InvalidArgument)
    else
      match ProtoToPropertyKey(req.key.value)
      case Err(e) => Err(e)
      case Ok(key) =>
        match ResolveStartLocal(g, ResolveStart(req.alias, req.labelOrType, req.property, key))
        case Err(e) => Err(Internal(e))
        case Ok(bindings) => Ok(BindingsToProto(bindings))
  }

  /** The remote call gives what the local executor gives. */
  function RpcResolveStart(g: IndexGeneration, step: PlanStep): (r: Result<seq<Binding>, ExecutionError>)
    ensures step.ResolveStart? ==> r == ResolveStartLocal(g, step)
    ensures !step.ResolveStart? ==> r == Err(Rpc(WrongStep))
  {
    if !step.ResolveStart? then Err(Rpc(WrongStep))
    else
      var request := ResolveStartRequest(
        step.alias, step.labelOrType, step.property, Some(PropertyKeyToProto(step.key)));
      match ServeResolveStart(g, request)
      case Err(status) => Err(StatusToError(status))
      case Ok(stream) =>
        BindingsRoundTrip(ResolveStartLocal(g, step).value);
        Ok(ProtoToBindings(stream))
  }

  method ServeResolveAll(g: IndexGeneration, req: ResolveAllRequest)
    returns (r: Result<seq<ProtoBinding>, Status>, ghost bindings: seq<Binding>)
    ensures r == Ok(BindingsToProto(bindings))
    ensures NoDup(bindings)
    ensures ToSet(bindings) == set v | v in g.nodeRecords && g.nodeRecords[v].labelName == req.labelName :: FromNode(req.alias, v)
  {
    var found := ResolveAllLocal(g, ResolveAll(req.alias, req.labelName));
    r, bindings := Ok(BindingsToProto(found.value)), found.value;
  }

  method RpcResolveAll(g: IndexGeneration, step: PlanStep) returns (r: Result<seq<Binding>, ExecutionError>)
    ensures !step.ResolveAll? ==> r == Err(Rpc(WrongStep))
    ensures step.ResolveAll? ==>
      && r.Ok? && NoDup(r.value)
      && ToSet(r.value) == set v | v in g.nodeRecords && g.nodeRecords[v].labelName == step.labelName :: FromNode(step.alias, v)
  {
    if !step.ResolveAll? { return Err(Rpc(WrongStep)); }
    var response, bindings := ServeResolveAll(g, ResolveAllRequest(step.alias, step.labelName));
    BindingsRoundTrip(bindings);
    r := Ok(ProtoToBindings(response.value));
  }

  /** Local rows first, then the rows handed off to other partitions. */
  function FlattenFrontier(f: Frontier): seq<Binding> {
    f.here + seq(|f.remote|, i requires 0 <= i < |f.remote| => f.remote[i].1)
  }

  lemma FlattenFrontierSet(f: Frontier)
    ensures ToSet(FlattenFrontier(f)) == ToSet(f.here) + RemoteSet(f.remote)
  {
    var away := seq(|f.remote|, i requires 0 <= i < |f.remote| => f.remote[i].1);
    ToSetConcat(f.here, away);
    forall x ensures x in away <==> x in RemoteSet(f.remote) {
      if x in RemoteSet(f.remote) {
        var y :| y in f.remote && y.1 == x;
        var i :| 0 <= i < |f.remote| && f.remote[i] == y;
        assert away[i] == x;
      }
      if x in away {
        var i :| 0 <= i < |away| && away[i] == x;
        assert f.remote[i] in f.remote;
      }
    }
  }

  function DecodeExpandHop(req: ExpandHopRequest, filters: seq<PropertyFilter>): PlanStep {
    ExpandHop(req.fromAlias, req.toAlias, TextToOption(req.toLabel), TextToOption(req.edgeType), DirectionOf(req.incoming),
              HopRange(req.hopMin, req.hopMax), filters, TextToOption(req.edgeAlias))
  }

  method ServeExpandHop(g: IndexGeneration, req: ExpandHopRequest)
    returns (r: Result<seq<ProtoBinding>, Status>, ghost answer: Result<Frontier, ExecutionError>)
    requires Coherent(g)
    ensures ProtoToFilters(req.filters).Err? ==> r == Err(ProtoToFilters(req.filters).error)
    ensures ProtoToFilters(req.filters).Ok? ==>
      && IsExpansion(g, DecodeExpandHop(req, ProtoToFilters(req.filters).value), ProtoToBindings(req.frontier), answer)
      && r == (if answer.Ok? then Ok(BindingsToProto(FlattenFrontier(answer.value))) else Err(Internal(answer.error)))
  {
    answer := Err(WrongStep);
    var filters := ProtoToFilters(req.filters);
    if filters.Err? { return Err(filters.error), answer; }
    var result := ExpandHopLocal(g, DecodeExpandHop(req, filters.value), ProtoToBindings(req.frontier));
    answer := result;
    r := if result.Ok? then Ok(BindingsToProto(FlattenFrontier(result.value))) else Err(Internal(result.error));
  }

  /** `answer` is a legitimate local answer to the delivered step and the frontier; the caller
      receives it with the remote rows folded into the local ones. */
  method RpcExpandHop(g: IndexGeneration, step: PlanStep, frontier: seq<Binding>)
    returns (r: Result<Frontier, ExecutionError>, ghost answer: Result<Frontier, ExecutionError>)
    requires Coherent(g)
    ensures !step.ExpandHop? ==> r == Err(Rpc(WrongStep))
    ensures step.ExpandHop? ==> IsExpansion(g, Delivered(step), frontier, answer)
    ensures step.ExpandHop? ==>
      r == (if answer.Ok? then Ok(Frontier(FlattenFrontier(answer.value), [])) else Err(Rpc(answer.error)))
  {
    answer := Err(WrongStep);
    if !step.ExpandHop? { return Err(Rpc(WrongStep)), answer; }
    var request := ExpandHopRequest(
      BindingsToProto(frontier), step.fromAlias, step.toAlias, OptionToText(step.toLabel), OptionToText(step.edgeType),
      step.direction.Incoming?, step.hops.min, step.hops.max, FiltersToProto(step.filters), OptionToText(step.edgeAlias));
    FiltersRoundTrip(step.filters);
    BindingsRoundTrip(frontier);
    assert DecodeExpandHop(request, step.filters) == Delivered(step);
    var response;
    response, answer := ServeExpandHop(g, request);
    if response.Err? { return Err(StatusToError(response.error)), answer; }
    BindingsRoundTrip(FlattenFrontier(answer.value));
    r := Ok(Frontier(ProtoToBindings(response.value), []));
  }

  function DecodeAntiJoin(req: CheckAntiJoinRequest): AntiJoinStep {
    AntiJoinStep(req.fromAlias, req.toAlias, DirectionOf(req.incoming), TextToOption(req.edgeAlias), TextToOption(req.edgeType), [], [])
  }

  /** The positions of `frontier` whose binding occurs among `survivors`. */
  function SurvivingIndices(frontier: seq<Binding>, survivors: seq<Binding>): seq<nat> {
    if frontier == [] then []
    else
      var n := |frontier| - 1;
      SurvivingIndices(frontier[..n], survivors) + (if frontier[n] in survivors then [n] else [])
  }

  /** `filter_map(|i| frontier.get(i).cloned())` */
  function PickIndices(frontier: seq<Binding>, indices: seq<nat>): seq<Binding> {
    if indices == [] then []
    else
      var n := |indices| - 1;
      PickIndices(frontier, indices[..n]) + (if indices[n] < |frontier| then [frontier[indices[n]]] else [])
  }

  lemma {:induction false} PickFromPrefix(frontier: seq<Binding>, more: seq<Binding>, indices: seq<nat>)
    requires forall k :: 0 <= k < |indices| ==> indices[k] < |frontier|
    ensures PickIndices(frontier + more, indices) == PickIndices(frontier, indices)
  {
    if indices != [] {
      PickFromPrefix(frontier, more, indices[..|indices| - 1]);
    }
  }

  lemma {:induction false} IndicesInRange(frontier: seq<Binding>, survivors: seq<Binding>)
    ensures forall k ::
              0 <= k < |SurvivingIndices(frontier, survivors)| ==> SurvivingIndices(frontier, survivors)[k] < |frontier|
  {
    if frontier != [] { IndicesInRange(frontier[..|frontier| - 1], survivors); }
  }

  ghost function MembersOf(frontier: seq<Binding>, survivors: seq<Binding>): seq<Binding> {
    if frontier == [] then []
    else
      var n := |frontier| - 1;
      MembersOf(frontier[..n], survivors) + (if frontier[n] in survivors then [frontier[n]] else [])
  }

  lemma {:induction false} PickSurviving(frontier: seq<Binding>, survivors: seq<Binding>)
    ensures PickIndices(frontier, SurvivingIndices(frontier, survivors)) == MembersOf(frontier, survivors)
  {
    if frontier != [] {
      var n := |frontier| - 1;
      var front := frontier[..n];
      PickSurviving(front, survivors);
      IndicesInRange(front, survivors);
      assert frontier == front + [frontier[n]];
      PickFromPrefix(front, [frontier[n]], SurvivingIndices(front, survivors));
      var before, indices := SurvivingIndices(front, survivors), SurvivingIndices(frontier, survivors);
      if frontier[n] in survivors {
        assert indices == before + [n];
        assert indices[..|indices| - 1] == before && indices[|indices| - 1] == n;
      } else {
        assert indices == before;
      }
    }
  }

  /** Whether a binding survives depends on its value alone, so mapping survivors back
      to positions by equality is exact even when the frontier repeats a binding. */
  lemma {:induction false} MembersAreSurvivors(
    g: IndexGeneration, parse: TsParser, step: AntiJoinStep, conditions: seq<PropertyFilter>, frontier: seq<Binding>, all: seq<Binding>)
    requires ValidTopology(g.topology) && AnchorsBound(step, all)
    requires forall b :: b in frontier ==> b in all
    ensures MembersOf(frontier, Survivors(g, parse, step, conditions, all)) == Survivors(g, parse, step, conditions, frontier)
  {
    if frontier != [] {
      var n := |frontier| - 1;
      assert frontier[n] in frontier;
      MembersAreSurvivors(g, parse, step, conditions, frontier[..n], all);
      SurvivorsMembers(g, parse, step, conditions, all);
    }
  }

  lemma {:induction false} SurvivorsMembers(
    g: IndexGeneration, parse: TsParser, step: AntiJoinStep, conditions: seq<PropertyFilter>, frontier: seq<Binding>)
    requires ValidTopology(g.topology) && AnchorsBound(step, frontier)
    ensures forall b :: b in Survivors(g, parse, step, conditions, frontier) <==>
              b in frontier
              && !CandidateExists(g, parse, step, conditions, b.nodes[step.fromAlias], b.nodes[step.toAlias])
    ensures NoDup(frontier) ==> NoDup(Survivors(g, parse, step, conditions, frontier))
  {
    if frontier != [] {
      var front, last := frontier[..|frontier| - 1], frontier[|frontier| - 1];
      SurvivorsMembers(g, parse, step, conditions, front);
      FrontAndLast(frontier);
      if NoDup(frontier) {
        assert last !in front;
      }
    }
  }

  method ServeCheckAntiJoin(g: IndexGeneration, parse: TsParser, req: CheckAntiJoinRequest)
    returns (r: Result<seq<nat>, Status>)
    requires Coherent(g)
    ensures ProtoToFilters(req.conditions).Err? ==> r == Err(ProtoToFilters(req.conditions).error)
    ensures ProtoToFilters(req.conditions).Ok? ==>
      var step, frontier := DecodeAntiJoin(req), ProtoToBindings(req.frontier);
      && (r.Ok? <==> AnchorsBound(step, frontier))
      && (r.Ok? ==> r.value == SurvivingIndices(frontier, Survivors(g, parse, step, ProtoToFilters(req.conditions).value, frontier)))
      && (r.Err? ==> r.error.Internal? && NamesUnbound(step, frontier, r.error.cause))
  {
    var conditions := ProtoToFilters(req.conditions);
    if conditions.Err? { return Err(conditions.error); }
    var frontier := ProtoToBindings(req.frontier);
    var survivors := CheckAntiJoinLocal(g, parse, DecodeAntiJoin(req), conditions.value, frontier);
    if survivors.Err? { return Err(Internal(survivors.error)); }
    r := Ok(SurvivingIndices(frontier, survivors.value));
  }

  /** Two steps that agree on the fields the partition reads. */
  predicate SameRouting(a: AntiJoinStep, b: AntiJoinStep) {
    a.fromAlias == b.fromAlias && a.toAlias == b.toAlias && a.direction == b.direction && a.edgeType == b.edgeType
  }

  lemma UnboundByAnchors(a: AntiJoinStep, b: AntiJoinStep, frontier: seq<Binding>, error: ExecutionError)
    requires a.fromAlias == b.fromAlias && a.toAlias == b.toAlias && NamesUnbound(b, frontier, error)
    ensures NamesUnbound(a, frontier, error)
  {
    var i: nat :| FirstUnbound(b, frontier, i) && error == UnboundAnchor(b, frontier[i]);
    assert FirstUnbound(a, frontier, i) && UnboundAnchor(a, frontier[i]) == UnboundAnchor(b, frontier[i]);
  }

  lemma {:induction false} SurvivorsByRouting(
    g: IndexGeneration, parse: TsParser, a: AntiJoinStep, b: AntiJoinStep, conditions: seq<PropertyFilter>, frontier: seq<Binding>)
    requires ValidTopology(g.topology) && AnchorsBound(a, frontier) && SameRouting(a, b)
    ensures Survivors(g, parse, a, conditions, frontier) == Survivors(g, parse, b, conditions, frontier)
  {
    if frontier != [] {
      SurvivorsByRouting(g, parse, a, b, conditions, frontier[..|frontier| - 1]);
      var last := frontier[|frontier| - 1];
      var from, to := last.nodes[a.fromAlias], last.nodes[a.toAlias];
      forall x ensures EntryBlocks(g, parse, a, conditions, to, x) == EntryBlocks(g, parse, b, conditions, to, x) {}
    }
  }

  /** The survivors, in frontier order, as the local check would give them. */
  method RpcCheckAntiJoin(
      g: IndexGeneration, parse: TsParser, step: AntiJoinStep, conditions: seq<PropertyFilter>, frontier: seq<Binding>)
    returns (r: Result<seq<Binding>, ExecutionError>)
    requires Coherent(g)
    ensures r.Ok? <==> AnchorsBound(step, frontier)
    ensures r.Ok? ==> r.value == Survivors(g, parse, DeliveredCheck(step), conditions, frontier)
    ensures r.Err? ==> r.error.Rpc? && NamesUnbound(step, frontier, r.error.cause)
  {
    var request := CheckAntiJoinRequest(
      BindingsToProto(frontier), step.fromAlias, step.toAlias, OptionToText(step.edgeAlias), OptionToText(step.edgeType),
      step.direction.Incoming?, FiltersToProto(conditions));
    FiltersRoundTrip(conditions);
    BindingsRoundTrip(frontier);
    var decoded := DecodeAntiJoin(request);
    assert SameRouting(DeliveredCheck(step), decoded);
    var response := ServeCheckAntiJoin(g, parse, request);
    if response.Err? {
      UnboundByAnchors(step, decoded, frontier, response.error.cause);
      return Err(StatusToError(response.error));
    }
    r := Ok(PickIndices(frontier, response.value));
    SurvivorsByRouting(g, parse, DeliveredCheck(step), decoded, conditions, frontier);
    PickSurviving(frontier, Survivors(g, parse, DeliveredCheck(step), conditions, frontier));
    MembersAreSurvivors(g, parse, DeliveredCheck(step), conditions, frontier, frontier);
  }

  function NodeRecordToProto(r: NodeRecord): ProtoRecord {
    ProtoRecord(r.labelName, PropertiesToProto(r.properties))
  }

  function EdgeRecordToProto(r: EdgeRecord): ProtoRecord {
    ProtoRecord(r.edgeType, PropertiesToProto(r.properties))
  }

  /** The point lookup, unknown ids skipped, there and back. */
  function RpcGetNodeProperties(g: IndexGeneration, ids: seq<NodeId>): (r: map<NodeId, NodeRecord>)
    ensures r == map id | id in ids && id in g.nodeRecords ::
                   NodeRecord(g.nodeRecords[id].labelName, Transported(g.nodeRecords[id].properties))
  {
    var response := map id | id in ids && id in g.nodeRecords :: NodeRecordToProto(g.nodeRecords[id]);
    map id | id in response :: NodeRecord(response[id].name, ProtoToProperties(response[id].fields))
  }

  function RpcGetEdgeProperties(g: IndexGeneration, ids: seq<EdgeId>): (r: map<EdgeId, EdgeRecord>)
    ensures r == map id | id in ids && id in g.edgeRecords ::
                   EdgeRecord(g.edgeRecords[id].edgeType, Transported(g.edgeRecords[id].properties))
  {
    var response := map id | id in ids && id in g.edgeRecords :: EdgeRecordToProto(g.edgeRecords[id]);
    map id | id in response :: EdgeRecord(response[id].name, ProtoToProperties(response[id].fields))
  }
}
