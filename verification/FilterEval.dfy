/** Comparison of hydrated values with literals; across types, with a NaN or with text
    that is no time stamp it holds for no operator, `<>` included. */
module FilterEval {
  import opened Basics
  import opened GraphModel

  datatype ComparisonOp = Eq | Ne | Lt | Lte | Gt | Gte

  datatype Literal = IntLit(i: int) | FloatLit(f: F64) | BoolLit(b: bool) | StrLit(s: string)

  datatype PropertyFilter = PropertyFilter(property: string, op: ComparisonOp, value: Literal)

  /** `None` on a type mismatch, a NaN or a timestamp literal that does not parse. */
  function CompareValue(parse: TsParser, value: PropertyValue, literal: Literal): Option<Ordering> {
    match (value, literal)
    case (Int64(v), IntLit(l)) => Some(CompareInt(v, l))
    case (Float64(v), FloatLit(l)) => PartialCompare(v, l)
    case (Bool(v), BoolLit(l)) => Some(CompareBool(v, l))
    case (Str(v), StrLit(l)) => Some(CompareStr(v, l))
    case (Timestamp(v), StrLit(l)) =>
      (match parse(l)
       case Some(parsed) => Some(CompareInt(v, parsed))
       case None => None)
    case _ => None
  }

  predicate OpHolds(op: ComparisonOp, o: Ordering) {
    match op
    case Eq => o == Equal
    case Ne => o != Equal
    case Lt => o == Less
    case Lte => o != Greater
    case Gt => o == Greater
    case Gte => o != Less
  }

  predicate LiteralMatches(parse: TsParser, value: PropertyValue, op: ComparisonOp, literal: Literal) {
    var o := CompareValue(parse, value, literal);
    o.Some? && OpHolds(op, o.value)
  }

  predicate EvaluateFilter(parse: TsParser, properties: Properties, filter: PropertyFilter) {
    filter.property in properties && LiteralMatches(parse, properties[filter.property], filter.op, filter.value)
  }

  predicate AllHold(parse: TsParser, properties: Properties, filters: seq<PropertyFilter>) {
    forall i :: 0 <= i < |filters| ==> EvaluateFilter(parse, properties, filters[i])
  }

  /** Only four kinds of value can be written back as a literal. */
  function PropertyValueToLiteral(value: PropertyValue): Option<Literal> {
    match value
    case Int64(v) => Some(IntLit(v))
    case Float64(v) => Some(FloatLit(v))
    case Bool(v) => Some(BoolLit(v))
    case Str(v) => Some(StrLit(v))
    case _ => None
  }

  /** Rust's derived `==` on literals: a NaN equals nothing, the two zeros are equal. */
  predicate LiteralEq(a: Literal, b: Literal) {
    if a.FloatLit? && b.FloatLit? then PartialCompare(a.f, b.f) == Some(Equal) else a == b
  }

  predicate FilterEq(a: PropertyFilter, b: PropertyFilter) {
    a.property == b.property && a.op == b.op && LiteralEq(a.value, b.value)
  }

  predicate ConditionsEq(a: seq<PropertyFilter>, b: seq<PropertyFilter>) {
    |a| == |b| && forall i :: 0 <= i < |a| ==> FilterEq(a[i], b[i])
  }

  /** Bindings bucketed under one condition list are judged as they would be under
      their own, even when the two lists differ in the sign of a zero. */
  lemma EqualConditionsAgree(parse: TsParser, properties: Properties, a: seq<PropertyFilter>, b: seq<PropertyFilter>)
    requires ConditionsEq(a, b)
    ensures AllHold(parse, properties, a) == AllHold(parse, properties, b)
  {
    forall i | 0 <= i < |a|
      ensures EvaluateFilter(parse, properties, a[i]) == EvaluateFilter(parse, properties, b[i])
    {
      assert FilterEq(a[i], b[i]);
    }
  }
}
