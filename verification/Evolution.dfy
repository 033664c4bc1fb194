/** Classification of schema changes, and what a compatible one guarantees. */
module Evolution {
  import opened Basics
  import opened GraphModel
  import opened FilterEval
  import opened IndexLaws
  import opened QueryAst
  import opened Validation
  import opened QuerySoundness

  datatype Owner = NodeLabel(labelName: string) | EdgeType(edgeType: string)

  datatype Reason =
    | OwnerRemoved(owner: Owner)
    | PropertyRemoved(owner: Owner, property: string)
    | TypeChanged(owner: Owner, property: string, before: ScalarType, after: ScalarType)

  datatype EvolutionKind = Compatible | Incompatible(reasons: seq<Reason>)

  // ---------------------------------------------------------------- specification

  /** Why the new declarations `to` do not keep property `p`. */
  function ReasonOf(owner: Owner, to: seq<PropertyDef>, p: PropertyDef): Option<Reason> {
    match FindProperty(to, p.name)
    case None => Some(PropertyRemoved(owner, p.name))
    case Some(d) => if d.ty != p.ty then Some(TypeChanged(owner, p.name, p.ty, d.ty)) else None
  }

  ghost predicate SomePropertyReason(owner: Owner, from: seq<PropertyDef>, to: seq<PropertyDef>, reason: Reason) {
    exists p :: p in from && ReasonOf(owner, to, p) == Some(reason)
  }

  ghost predicate NodeReason(from: Schema, to: Schema, labelName: string, reason: Reason) {
    && labelName in from.nodes
    && if labelName in to.nodes then SomePropertyReason(NodeLabel(labelName), from.nodes[labelName].properties, to.nodes[labelName].properties, reason)
       else reason == OwnerRemoved(NodeLabel(labelName))
  }

  ghost predicate EdgeReason(from: Schema, to: Schema, edgeType: string, reason: Reason) {
    && edgeType in from.edges
    && if edgeType in to.edges then SomePropertyReason(EdgeType(edgeType), from.edges[edgeType].properties, to.edges[edgeType].properties, reason)
       else reason == OwnerRemoved(EdgeType(edgeType))
  }

  ghost predicate IsReason(from: Schema, to: Schema, reason: Reason) {
    (exists l :: NodeReason(from, to, l, reason)) || exists e :: EdgeReason(from, to, e, reason)
  }

  /** Every property is still found under its name, with its type. */
  ghost predicate PropertiesKept(from: seq<PropertyDef>, to: seq<PropertyDef>) {
    forall p :: p in from ==> FindProperty(to, p.name).Some? && FindProperty(to, p.name).value.ty == p.ty
  }

  ghost predicate CompatibleSchemas(from: Schema, to: Schema) {
    && (forall l :: l in from.nodes ==> l in to.nodes && PropertiesKept(from.nodes[l].properties, to.nodes[l].properties))
    && (forall e :: e in from.edges ==> e in to.edges && PropertiesKept(from.edges[e].properties, to.edges[e].properties))
  }

  lemma KeptMeansNoReason(owner: Owner, from: seq<PropertyDef>, to: seq<PropertyDef>)
    ensures PropertiesKept(from, to) <==> forall reason :: !SomePropertyReason(owner, from, to, reason)
  {
    if !PropertiesKept(from, to) {
      var p :| p in from && !(FindProperty(to, p.name).Some? && FindProperty(to, p.name).value.ty == p.ty);
      assert SomePropertyReason(owner, from, to, ReasonOf(owner, to, p).value);
    }
    if reason :| SomePropertyReason(owner, from, to, reason) {
      var p :| p in from && ReasonOf(owner, to, p) == Some(reason);
    }
  }

  /** Compatible is the absence of reasons. */
  lemma CompatibleMeansNoReason(from: Schema, to: Schema)
    ensures CompatibleSchemas(from, to) <==> forall reason :: !IsReason(from, to, reason)
  {
    forall l | l in from.nodes && l in to.nodes
      ensures PropertiesKept(from.nodes[l].properties, to.nodes[l].properties) <==>
                forall reason :: !NodeReason(from, to, l, reason)
    {
      KeptMeansNoReason(NodeLabel(l), from.nodes[l].properties, to.nodes[l].properties);
      forall r
        ensures NodeReason(from, to, l, r) == SomePropertyReason(NodeLabel(l), from.nodes[l].properties, to.nodes[l].properties, r)
      {
      }
    }
    forall e | e in from.edges && e in to.edges
      ensures PropertiesKept(from.edges[e].properties, to.edges[e].properties) <==>
                forall reason :: !EdgeReason(from, to, e, reason)
    {
      KeptMeansNoReason(EdgeType(e), from.edges[e].properties, to.edges[e].properties);
      forall r
        ensures EdgeReason(from, to, e, r) == SomePropertyReason(EdgeType(e), from.edges[e].properties, to.edges[e].properties, r)
      {
      }
    }
    forall l | l in from.nodes && l !in to.nodes ensures NodeReason(from, to, l, OwnerRemoved(NodeLabel(l))) {}
    forall e | e in from.edges && e !in to.edges ensures EdgeReason(from, to, e, OwnerRemoved(EdgeType(e))) {}
    if forall reason :: !IsReason(from, to, reason) {
      forall l, reason ensures !NodeReason(from, to, l, reason) { assert !IsReason(from, to, reason); }
      forall e, reason ensures !EdgeReason(from, to, e, reason) { assert !IsReason(from, to, reason); }
    }
  }

  // ---------------------------------------------------------------- the reasons, by the declarations

  /** The first declaration under the name has that type. */
  ghost predicate DeclaresAs(defs: seq<PropertyDef>, name: string, ty: ScalarType) {
    exists i :: 0 <= i < |defs| && defs[i].name == name && defs[i].ty == ty
                && forall j :: 0 <= j < i ==> defs[j].name != name
  }

  ghost predicate IsDeclared(defs: seq<PropertyDef>, name: string) {
    exists i :: 0 <= i < |defs| && defs[i].name == name
  }

  /** The reason reports what happened to one old declaration of its owner. */
  ghost predicate Happened(owner: Owner, from: seq<PropertyDef>, to: seq<PropertyDef>, reason: Reason) {
    match reason
    case OwnerRemoved(_) => false
    case PropertyRemoved(o, name) => o == owner && IsDeclared(from, name) && !IsDeclared(to, name)
    case TypeChanged(o, name, before, after) =>
      && o == owner && before != after && DeclaresAs(to, name, after)
      && exists i :: 0 <= i < |from| && from[i].name == name && from[i].ty == before
  }

  /** Everything a schema change reports. */
  ghost predicate Reported(from: Schema, to: Schema, reason: Reason) {
    || (exists l :: l in from.nodes && l in to.nodes
                    && Happened(NodeLabel(l), from.nodes[l].properties, to.nodes[l].properties, reason))
    || (exists ty :: ty in from.edges && ty in to.edges
                     && Happened(EdgeType(ty), from.edges[ty].properties, to.edges[ty].properties, reason))
    || (reason.OwnerRemoved? && reason.owner.NodeLabel?
        && reason.owner.labelName in from.nodes && reason.owner.labelName !in to.nodes)
    || (reason.OwnerRemoved? && reason.owner.EdgeType?
        && reason.owner.edgeType in from.edges && reason.owner.edgeType !in to.edges)
  }

  lemma FoundAs(defs: seq<PropertyDef>, name: string, ty: ScalarType)
    ensures FindProperty(defs, name).Some? <==> IsDeclared(defs, name)
    ensures FindProperty(defs, name).Some? && FindProperty(defs, name).value.ty == ty <==> DeclaresAs(defs, name, ty)
  {
    FindsFirst(defs, name);
    var found := FindProperty(defs, name);
    if found.Some? {
      var i :| 0 <= i < |defs| && defs[i] == found.value && defs[i].name == name
               && forall j :: 0 <= j < i ==> defs[j].name != name;
      if k :| 0 <= k < |defs| && defs[k].name == name && defs[k].ty == ty && forall j :: 0 <= j < k ==> defs[j].name != name {
        assert k == i;
      }
    } else {
      forall k | 0 <= k < |defs| ensures defs[k].name != name { assert defs[k] in defs; }
    }
  }

  lemma ReasonHappened(owner: Owner, from: seq<PropertyDef>, to: seq<PropertyDef>, reason: Reason)
    ensures SomePropertyReason(owner, from, to, reason) <==> Happened(owner, from, to, reason)
  {
    if p :| p in from && ReasonOf(owner, to, p) == Some(reason) {
      FoundAs(to, p.name, if FindProperty(to, p.name).Some? then FindProperty(to, p.name).value.ty else p.ty);
      var i :| 0 <= i < |from| && from[i] == p;
    }
    if Happened(owner, from, to, reason) {
      var name := reason.property;
      FoundAs(to, name, if reason.TypeChanged? then reason.after else BoolType);
      var i :| 0 <= i < |from| && from[i].name == name && (reason.TypeChanged? ==> from[i].ty == reason.before);
      assert ReasonOf(owner, to, from[i]) == Some(reason);
    }
  }

  lemma ReasonIsReported(from: Schema, to: Schema, reason: Reason)
    ensures IsReason(from, to, reason) <==> Reported(from, to, reason)
  {
    forall l | l in from.nodes && l in to.nodes
      ensures NodeReason(from, to, l, reason) <==>
                Happened(NodeLabel(l), from.nodes[l].properties, to.nodes[l].properties, reason)
    {
      ReasonHappened(NodeLabel(l), from.nodes[l].properties, to.nodes[l].properties, reason);
    }
    forall ty | ty in from.edges && ty in to.edges
      ensures EdgeReason(from, to, ty, reason) <==>
                Happened(EdgeType(ty), from.edges[ty].properties, to.edges[ty].properties, reason)
    {
      ReasonHappened(EdgeType(ty), from.edges[ty].properties, to.edges[ty].properties, reason);
    }
    if reason.OwnerRemoved? && Reported(from, to, reason) {
      match reason.owner
      case NodeLabel(l) => assert NodeReason(from, to, l, reason);
      case EdgeType(ty) => assert EdgeReason(from, to, ty, reason);
    }
  }

  // ---------------------------------------------------------------- the classifier

  method DiffProperties(owner: Owner, from: seq<PropertyDef>, to: seq<PropertyDef>) returns (reasons: seq<Reason>)
    ensures forall r :: r in reasons <==> SomePropertyReason(owner, from, to, r)
  {
    reasons := [];
    for i := 0 to |from|
      invariant forall r :: r in reasons <==> SomePropertyReason(owner, from[..i], to, r)
    {
      var p := from[i];
      PropertyReasonSnoc(owner, from, to, i);
      ghost var before := reasons;
      match FindProperty(to, p.name) {
        case Some(d) => if d.ty != p.ty { reasons := reasons + [TypeChanged(owner, p.name, p.ty, d.ty)]; }
        case None => reasons := reasons + [PropertyRemoved(owner, p.name)];
      }
      assert forall r :: r in reasons <==> r in before || ReasonOf(owner, to, p) == Some(r);
    }
    assert from[..|from|] == from;
  }

  lemma PropertyReasonSnoc(owner: Owner, from: seq<PropertyDef>, to: seq<PropertyDef>, i: nat)
    requires i < |from|
    ensures forall r :: SomePropertyReason(owner, from[..i + 1], to, r) <==>
              SomePropertyReason(owner, from[..i], to, r) || ReasonOf(owner, to, from[i]) == Some(r)
  {
    var upto := from[..i + 1];
    assert upto == from[..i] + [from[i]];
    forall r | ReasonOf(owner, to, from[i]) == Some(r) ensures SomePropertyReason(owner, upto, to, r) {
      assert from[i] in upto;
    }
    forall r | SomePropertyReason(owner, from[..i], to, r) ensures SomePropertyReason(owner, upto, to, r) {
      var p :| p in from[..i] && ReasonOf(owner, to, p) == Some(r);
      assert p in upto;
    }
    forall r | SomePropertyReason(owner, upto, to, r)
      ensures SomePropertyReason(owner, from[..i], to, r) || ReasonOf(owner, to, from[i]) == Some(r)
    {
      var p :| p in upto && ReasonOf(owner, to, p) == Some(r);
      assert p in from[..i] || p == from[i];
    }
  }

  /** Visits labels and edge types one by one; the order is left open. */
  method Diff(from: Schema, to: Schema) returns (kind: EvolutionKind)
    ensures kind.Compatible? <==> CompatibleSchemas(from, to)
    ensures kind.Incompatible? ==> forall r :: r in kind.reasons <==> Reported(from, to, r)
    ensures kind.Compatible? <==> forall r :: !Reported(from, to, r)
  {
    var reasons: seq<Reason> := [];
    var labels := from.nodes.Keys;
    while labels != {}
      invariant labels <= from.nodes.Keys
      invariant forall r :: r in reasons <==> exists l :: l !in labels && NodeReason(from, to, l, r)
      decreases |labels|
    {
      var l :| l in labels;
      var found := [OwnerRemoved(NodeLabel(l))];
      if l in to.nodes { found := DiffProperties(NodeLabel(l), from.nodes[l].properties, to.nodes[l].properties); }
      assert forall r :: r in found <==> NodeReason(from, to, l, r);
      reasons := reasons + found;
      labels := labels - {l};
    }
    ghost var nodeReasons := reasons;
    var types := from.edges.Keys;
    while types != {}
      invariant types <= from.edges.Keys
      invariant forall r :: r in reasons <==> r in nodeReasons || exists e :: e !in types && EdgeReason(from, to, e, r)
      decreases |types|
    {
      var e :| e in types;
      var found := [OwnerRemoved(EdgeType(e))];
      if e in to.edges { found := DiffProperties(EdgeType(e), from.edges[e].properties, to.edges[e].properties); }
      assert forall r :: r in found <==> EdgeReason(from, to, e, r);
      reasons := reasons + found;
      types := types - {e};
    }
    assert forall r :: r in reasons <==> IsReason(from, to, r);
    CompatibleMeansNoReason(from, to);
    forall r ensures IsReason(from, to, r) <==> Reported(from, to, r) { ReasonIsReported(from, to, r); }
    if reasons == [] {
      kind := Compatible;
    } else {
      assert IsReason(from, to, reasons[0]);
      kind := Incompatible(reasons);
    }
  }

  // ---------------------------------------------------------------- compatible changes keep queries valid

  lemma PropertyStaysValid(
      owner: string, from: seq<PropertyDef>, to: seq<PropertyDef>, property: string, op: ComparisonOp)
    requires PropertiesKept(from, to) && PropertyErrors(owner, from, property, op) == []
    ensures PropertyErrors(owner, to, property, op) == []
  {
    FindsFirst(from, property);
  }

  /** The scope speaks of labels and edge types the schema declares. */
  ghost predicate ScopeKnown(scope: TypeScope, schema: Schema) {
    && (forall a :: a in scope.nodeLabels ==> scope.nodeLabels[a] in schema.nodes)
    && (forall a :: a in scope.edgeTypes ==> scope.edgeTypes[a] in schema.edges)
  }

  lemma ReferenceStaysValid(a: Schema, b: Schema, scope: TypeScope, alias: string, property: string, op: ComparisonOp)
    requires CompatibleSchemas(a, b) && ScopeKnown(scope, a) && PropertyRefErrors(scope, a, alias, property, op) == []
    ensures PropertyRefErrors(scope, b, alias, property, op) == []
  {
    if alias in scope.nodeLabels {
      var l := scope.nodeLabels[alias];
      PropertyStaysValid(l, a.nodes[l].properties, b.nodes[l].properties, property, op);
    } else if alias in scope.edgeTypes {
      var e := scope.edgeTypes[alias];
      PropertyStaysValid(e, a.edges[e].properties, b.edges[e].properties, property, op);
    }
  }

  lemma {:induction false} InlineStaysValid(a: Schema, b: Schema, l: string, filters: seq<PropertyFilter>)
    requires CompatibleSchemas(a, b) && l in a.nodes && InlineErrors(l, filters, a) == []
    ensures InlineErrors(l, filters, b) == []
  {
    if filters != [] {
      var n := |filters| - 1;
      InlineStaysValid(a, b, l, filters[..n]);
      PropertyStaysValid(l, a.nodes[l].properties, b.nodes[l].properties, filters[n].property, filters[n].op);
    }
  }

  lemma {:induction false} PatternStaysValid(a: Schema, b: Schema, pattern: seq<PatternStep>)
    requires CompatibleSchemas(a, b) && PatternErrors(pattern, a) == []
    ensures PatternErrors(pattern, b) == [] && ScopeKnown(PatternScope(pattern), a)
  {
    if pattern != [] {
      var n := |pattern| - 1;
      PatternStaysValid(a, b, pattern[..n]);
      match pattern[n]
      case NodeStep(node) =>
        if node.labelName.Some? { InlineStaysValid(a, b, node.labelName.value, node.propertyFilters); }
      case EdgeStep(_) =>
    }
  }

  lemma {:induction false} ConditionStaysValid(
      a: Schema, b: Schema, scope: TypeScope, c: WhereCondition, allowNotExists: bool)
    requires CompatibleSchemas(a, b) && ScopeKnown(scope, a) && ConditionErrors(c, a, scope, allowNotExists) == []
    ensures ConditionErrors(c, b, scope, allowNotExists) == []
    decreases allowNotExists
  {
    match c
    case PropertyCondition(alias, filter) =>
      ReferenceStaysValid(a, b, scope, alias, filter.property, filter.op);
    case PropertyComparison(left, op, right) =>
      ReferenceStaysValid(a, b, scope, left.alias, left.property, op);
      ReferenceStaysValid(a, b, scope, right.alias, right.property, Eq);
    case AliasComparison(_, _, _) =>
    case NotExists(s) =>
      var inner := BindEdge(scope, s.pattern[1].edge);
      NestedIsAll(s.whereConditions, a, inner);
      NestedIsAll(s.whereConditions, b, inner);
      NoConditionErrors(s.whereConditions, a, inner, false);
      NoConditionErrors(s.whereConditions, b, inner, false);
      forall d | d in s.whereConditions ensures ConditionErrors(d, b, inner, false) == [] {
        ConditionStaysValid(a, b, inner, d, false);
      }
  }

  /** A query that validates before a compatible change validates after it. */
  lemma CompatibleKeepsQueriesValid(a: Schema, b: Schema, q: Query)
    requires CompatibleSchemas(a, b) && IsValid(q, a)
    ensures IsValid(q, b)
  {
    var scope := PatternScope(q.pattern);
    PatternStaysValid(a, b, q.pattern);
    NoConditionErrors(q.whereConditions, a, scope, true);
    NoConditionErrors(q.whereConditions, b, scope, true);
    forall c | c in q.whereConditions ensures ConditionErrors(c, b, scope, true) == [] {
      ConditionStaysValid(a, b, scope, c, true);
    }
    NoReturnErrors(q.projection, a, scope);
    NoReturnErrors(q.projection, b, scope);
    forall r | r in q.projection ensures ReturnItemErrors(r, b, scope) == [] {
      assert ReturnItemErrors(r, a, scope) == [];
      if r.property.Some? { ReferenceStaysValid(a, b, scope, r.alias, r.property.value, Eq); }
    }
    if q.orderBy.Some? { ReferenceStaysValid(a, b, scope, q.orderBy.value.alias, q.orderBy.value.property, Eq); }
  }

  // ---------------------------------------------------------------- the relation itself

  lemma KeptTransitive(a: seq<PropertyDef>, b: seq<PropertyDef>, c: seq<PropertyDef>)
    requires PropertiesKept(a, b) && PropertiesKept(b, c)
    ensures PropertiesKept(a, c)
  {
    forall p | p in a ensures FindProperty(c, p.name).Some? && FindProperty(c, p.name).value.ty == p.ty {
      FindsFirst(b, p.name);
      var d := FindProperty(b, p.name).value;
      assert d in b;
    }
  }

  /** Compatible steps chain. */
  lemma CompatibleIsTransitive(a: Schema, b: Schema, c: Schema)
    requires CompatibleSchemas(a, b) && CompatibleSchemas(b, c)
    ensures CompatibleSchemas(a, c)
  {
    forall l | l in a.nodes ensures l in c.nodes && PropertiesKept(a.nodes[l].properties, c.nodes[l].properties) {
      KeptTransitive(a.nodes[l].properties, b.nodes[l].properties, c.nodes[l].properties);
    }
    forall e | e in a.edges ensures e in c.edges && PropertiesKept(a.edges[e].properties, c.edges[e].properties) {
      KeptTransitive(a.edges[e].properties, b.edges[e].properties, c.edges[e].properties);
    }
  }

  /** Two declarations of one name agree on the type. */
  ghost predicate NamesConsistent(defs: seq<PropertyDef>) {
    forall p, d :: p in defs && d in defs && p.name == d.name ==> p.ty == d.ty
  }

  lemma KeptBySelfIff(defs: seq<PropertyDef>)
    ensures PropertiesKept(defs, defs) <==> NamesConsistent(defs)
  {
    forall p | p in defs
      ensures FindProperty(defs, p.name).Some? && FindProperty(defs, p.name).value in defs
              && FindProperty(defs, p.name).value.name == p.name
    {
      FindsFirst(defs, p.name);
    }
  }

  /** A schema is compatible with itself exactly when no name is declared twice with two types. */
  lemma CompatibleWithSelfIff(a: Schema)
    ensures CompatibleSchemas(a, a) <==>
              && (forall l :: l in a.nodes ==> NamesConsistent(a.nodes[l].properties))
              && (forall e :: e in a.edges ==> NamesConsistent(a.edges[e].properties))
  {
    forall l | l in a.nodes
      ensures PropertiesKept(a.nodes[l].properties, a.nodes[l].properties) <==> NamesConsistent(a.nodes[l].properties)
    {
      KeptBySelfIff(a.nodes[l].properties);
    }
    forall e | e in a.edges
      ensures PropertiesKept(a.edges[e].properties, a.edges[e].properties) <==> NamesConsistent(a.edges[e].properties)
    {
      KeptBySelfIff(a.edges[e].properties);
    }
  }

  // ---------------------------------------------------------------- what it does not protect

  function Unindexed(defs: seq<PropertyDef>): seq<PropertyDef> {
    seq(|defs|, i requires 0 <= i < |defs| => defs[i].(indexed := false))
  }

  lemma {:induction false} FoundUnindexed(defs: seq<PropertyDef>, name: string)
    ensures FindProperty(Unindexed(defs), name).Some? <==> FindProperty(defs, name).Some?
    ensures FindProperty(defs, name).Some? ==>
      FindProperty(Unindexed(defs), name).value.ty == FindProperty(defs, name).value.ty
  {
    if defs != [] {
      assert Unindexed(defs)[1..] == Unindexed(defs[1..]);
      FoundUnindexed(defs[1..], name);
    }
  }

  /** Dropping every index of a label counts as compatible, although no start lookup on
      that label can find anything afterwards. */
  lemma CompatibleMayDropIndexes(a: Schema, l: string, property: string)
    requires CompatibleSchemas(a, a) && l in a.nodes
    ensures var b := a.(nodes := a.nodes[l := a.nodes[l].(properties := Unindexed(a.nodes[l].properties))]);
            CompatibleSchemas(a, b) && !IsIndexed(b, l, property)
  {
    var defs := a.nodes[l].properties;
    forall p | p in defs
      ensures FindProperty(Unindexed(defs), p.name).Some? && FindProperty(Unindexed(defs), p.name).value.ty == p.ty
    {
      FoundUnindexed(defs, p.name);
      assert PropertiesKept(defs, defs);
    }
  }
}
