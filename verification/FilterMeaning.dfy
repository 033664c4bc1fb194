/** What WHERE means of a stored value, in terms of the values themselves. */
module FilterMeaning {
  import opened Basics
  import opened GraphModel
  import opened FilterEval

  // ---------------------------------------------------------------- how two values stand

  predicate IntStands(op: ComparisonOp, x: int, y: int) {
    match op
    case Eq => x == y
    case Ne => x != y
    case Lt => x < y
    case Lte => x <= y
    case Gt => x > y
    case Gte => x >= y
  }

  /** Of two truth values only `false` comes before `true`. */
  predicate BoolStands(op: ComparisonOp, x: bool, y: bool) {
    match op
    case Eq => x == y
    case Ne => x != y
    case Lt => !x && y
    case Lte => !x || y
    case Gt => x && !y
    case Gte => x || !y
  }

  ghost predicate TextStands(op: ComparisonOp, x: string, y: string) {
    match op
    case Eq => x == y
    case Ne => x != y
    case Lt => TextBefore(x, y)
    case Lte => x == y || TextBefore(x, y)
    case Gt => TextBefore(y, x)
    case Gte => x == y || TextBefore(y, x)
  }

  /** The stored value satisfies "op literal": values of one variant as they stand to each
      other, a time stamp beside the instant the text names, nothing else and no NaN. */
  ghost predicate Satisfies(parse: TsParser, value: PropertyValue, op: ComparisonOp, literal: Literal) {
    || (value.Int64? && literal.IntLit? && IntStands(op, value.i, literal.i))
    || (value.Float64? && literal.FloatLit? && value.f.Num? && literal.f.Num? && IntStands(op, value.f.rank, literal.f.rank))
    || (value.Bool? && literal.BoolLit? && BoolStands(op, value.b, literal.b))
    || (value.Str? && literal.StrLit? && TextStands(op, value.s, literal.s))
    || (value.Timestamp? && literal.StrLit? && parse(literal.s).Some? && IntStands(op, value.micros, parse(literal.s).value))
  }

  /** For every value, operator and literal the evaluation is this relation. */
  lemma LiteralMatchesIff(parse: TsParser, value: PropertyValue, op: ComparisonOp, literal: Literal)
    ensures LiteralMatches(parse, value, op, literal) <==> Satisfies(parse, value, op, literal)
  {
    if value.Str? && literal.StrLit? { TextDecides(op, value.s, literal.s); }
  }

  lemma TextDecides(op: ComparisonOp, x: string, y: string)
    ensures OpHolds(op, CompareStr(x, y)) <==> TextStands(op, x, y)
  {
    CompareStrMeans(x, y);
  }

  /** A filter holds of a record that has the property with a value that satisfies it. */
  lemma FilterIff(parse: TsParser, properties: Properties, filter: PropertyFilter)
    ensures EvaluateFilter(parse, properties, filter) <==>
              filter.property in properties && Satisfies(parse, properties[filter.property], filter.op, filter.value)
  {
    if filter.property in properties { LiteralMatchesIff(parse, properties[filter.property], filter.op, filter.value); }
  }

  lemma AllHoldIff(parse: TsParser, properties: Properties, filters: seq<PropertyFilter>)
    ensures AllHold(parse, properties, filters) <==>
              forall f :: f in filters ==> f.property in properties && Satisfies(parse, properties[f.property], f.op, f.value)
  {
    forall f | f in filters
      ensures EvaluateFilter(parse, properties, f) <==>
                f.property in properties && Satisfies(parse, properties[f.property], f.op, f.value)
    {
      FilterIff(parse, properties, f);
    }
  }

  // ---------------------------------------------------------------- values as literals

  /** The value can be written in a query. */
  predicate IsWritable(value: PropertyValue) {
    value.Int64? || value.Float64? || value.Bool? || value.Str?
  }

  /** The literal writes the value. */
  predicate Writes(literal: Literal, value: PropertyValue) {
    || (value.Int64? && literal == IntLit(value.i))
    || (value.Float64? && literal == FloatLit(value.f))
    || (value.Bool? && literal == BoolLit(value.b))
    || (value.Str? && literal == StrLit(value.s))
  }

  /** A stored value resolves exactly when it has one of four variants, and then to the
      literal of that variant with that value. */
  lemma LiteralOfValue(value: PropertyValue, literal: Literal)
    ensures PropertyValueToLiteral(value).Some? <==> IsWritable(value)
    ensures PropertyValueToLiteral(value) == Some(literal) <==> Writes(literal, value)
  {
  }

  lemma WritableIsWritten(value: PropertyValue) returns (literal: Literal)
    requires IsWritable(value)
    ensures Writes(literal, value)
  {
    literal := PropertyValueToLiteral(value).value;
  }
}
