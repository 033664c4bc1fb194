/** The canonical key of a binding and duplicate elimination (distributed_executor.rs). */
module Dedup {
  import opened Basics
  import opened Sorting
  import opened Plan

  /** `(kind, alias, id)`: kind 0 for a node alias, 1 for an edge alias. */
  datatype KeyPart = KeyPart(kind: nat, alias: string, id: nat)

  type BindingKey = seq<KeyPart>

  predicate PartLeq(a: KeyPart, b: KeyPart) {
    if a.kind != b.kind then a.kind < b.kind
    else match CompareStr(a.alias, b.alias)
         case Less => true
         case Greater => false
         case Equal => a.id <= b.id
  }

  lemma PartLeqLaws(s: set<KeyPart>)
    ensures OrdersAll(PartLeq, s) && Antisymmetric(PartLeq, s)
  {
    forall x, y ensures PartLeq(x, y) || PartLeq(y, x)
      ensures PartLeq(x, y) && PartLeq(y, x) ==> x == y
    {
      CompareSeqFlip(x.alias, y.alias, CHAR_RANK);
      CompareStrEqual(x.alias, y.alias);
    }
    forall x, y, z | PartLeq(x, y) && PartLeq(y, z) ensures PartLeq(x, z) {
      if x.kind == y.kind == z.kind {
        CompareSeqTransitive(x.alias, y.alias, z.alias, CHAR_RANK);
        CompareStrEqual(x.alias, y.alias);
        CompareStrEqual(y.alias, z.alias);
        CompareStrEqual(x.alias, z.alias);
        CompareSeqFlip(x.alias, z.alias, CHAR_RANK);
        if CompareStr(x.alias, z.alias) == Equal && x.alias != y.alias {
          CompareSeqFlip(x.alias, y.alias, CHAR_RANK);
          assert false;
        }
      }
    }
  }

  ghost function NodeParts(b: Binding): set<KeyPart> {
    set a | a in b.nodes :: KeyPart(0, a, b.nodes[a].raw)
  }

  ghost function EdgeParts(b: Binding): set<KeyPart> {
    set a | a in b.edges :: KeyPart(1, a, b.edges[a].raw)
  }

  ghost function Parts(b: Binding): set<KeyPart> {
    NodeParts(b) + EdgeParts(b)
  }

  lemma PartMember(b: Binding, part: KeyPart)
    ensures part in Parts(b) <==>
              || (part.kind == 0 && part.alias in b.nodes && b.nodes[part.alias].raw == part.id)
              || (part.kind == 1 && part.alias in b.edges && b.edges[part.alias].raw == part.id)
  {
  }

  ghost function Listed(s: set<KeyPart>): seq<KeyPart> {
    if s == {} then [] else var x :| x in s; [x] + Listed(s - {x})
  }

  lemma {:induction false} ListedLaws(s: set<KeyPart>)
    ensures NoDup(Listed(s)) && ToSet(Listed(s)) == s
  {
    if s != {} {
      var x :| x in s && Listed(s) == [x] + Listed(s - {x});
      ListedLaws(s - {x});
      ToSetConcat([x], Listed(s - {x}));
      NoDupConcat([x], Listed(s - {x}));
    }
  }

  /** The sorted arrangement of the binding's entries, each once. */
  ghost function KeyOf(b: Binding): BindingKey {
    Sort(Listed(Parts(b)), PartLeq)
  }

  /** Whatever order a hash map yields its entries in, sorting them gives the one key. */
  lemma SortedPartsAreKey(parts: seq<KeyPart>, b: Binding)
    requires NoDup(parts) && ToSet(parts) == Parts(b)
    ensures Sort(parts, PartLeq) == KeyOf(b)
  {
    var other := Listed(Parts(b));
    ListedLaws(Parts(b));
    NoDupMultiset(parts);
    NoDupMultiset(other);
    PartLeqLaws(Parts(b));
    SortPermutes(parts, PartLeq);
    SortPermutes(other, PartLeq);
    SortSorted(parts, PartLeq);
    SortSorted(other, PartLeq);
    PermutationFacts(Sort(parts, PartLeq), parts);
    SortedUnique(Sort(parts, PartLeq), Sort(other, PartLeq), PartLeq);
  }

  lemma KeyHoldsParts(b: Binding)
    ensures ToSet(KeyOf(b)) == Parts(b)
  {
    ListedLaws(Parts(b));
    SortPermutes(Listed(Parts(b)), PartLeq);
    PermutationFacts(KeyOf(b), Listed(Parts(b)));
  }

  lemma SamePartsWithin(b1: Binding, b2: Binding)
    requires Parts(b1) == Parts(b2)
    ensures b1.nodes.Keys <= b2.nodes.Keys && forall a :: a in b1.nodes ==> b1.nodes[a] == b2.nodes[a]
    ensures b1.edges.Keys <= b2.edges.Keys && forall a :: a in b1.edges ==> b1.edges[a] == b2.edges[a]
  {
    forall a | a in b1.nodes ensures a in b2.nodes && b1.nodes[a] == b2.nodes[a] {
      PartMember(b1, KeyPart(0, a, b1.nodes[a].raw));
      PartMember(b2, KeyPart(0, a, b1.nodes[a].raw));
    }
    forall a | a in b1.edges ensures a in b2.edges && b1.edges[a] == b2.edges[a] {
      PartMember(b1, KeyPart(1, a, b1.edges[a].raw));
      PartMember(b2, KeyPart(1, a, b1.edges[a].raw));
    }
  }

  /** Two bindings with the same key are the same binding. */
  lemma KeyIsInjective(b1: Binding, b2: Binding)
    requires KeyOf(b1) == KeyOf(b2)
    ensures b1 == b2
  {
    KeyHoldsParts(b1);
    KeyHoldsParts(b2);
    SamePartsWithin(b1, b2);
    SamePartsWithin(b2, b1);
    assert b1.nodes == b2.nodes && b1.edges == b2.edges;
  }

  /** Collects the entries of both maps in whatever order they come, then sorts. */
  method ComputeKey(b: Binding) returns (key: BindingKey)
    ensures key == KeyOf(b)
  {
    var parts: seq<KeyPart> := [];
    var aliases := b.nodes.Keys;
    while aliases != {}
      invariant aliases <= b.nodes.Keys
      invariant NoDup(parts)
      invariant ToSet(parts) == set a | a in b.nodes.Keys - aliases :: KeyPart(0, a, b.nodes[a].raw)
      decreases aliases
    {
      var alias :| alias in aliases;
      var part := KeyPart(0, alias, b.nodes[alias].raw);
      ToSetSnoc(parts, part);
      assert part !in ToSet(parts);
      parts := parts + [part];
      aliases := aliases - {alias};
    }
    assert ToSet(parts) == NodeParts(b);
    aliases := b.edges.Keys;
    while aliases != {}
      invariant aliases <= b.edges.Keys
      invariant NoDup(parts)
      invariant ToSet(parts) == NodeParts(b) + set a | a in b.edges.Keys - aliases :: KeyPart(1, a, b.edges[a].raw)
      decreases aliases
    {
      var alias :| alias in aliases;
      var part := KeyPart(1, alias, b.edges[alias].raw);
      ToSetSnoc(parts, part);
      assert part !in ToSet(parts);
      parts := parts + [part];
      aliases := aliases - {alias};
    }
    assert ToSet(parts) == Parts(b);
    key := Sort(parts, PartLeq);
    SortedPartsAreKey(parts, b);
  }

  ghost function KeysOf(met: set<Binding>): set<BindingKey> {
    set b | b in met :: KeyOf(b)
  }

  /** `seen.insert(binding_key(b))`: new exactly when the binding itself is. */
  method InsertKey(seen: set<BindingKey>, b: Binding, ghost met: set<Binding>)
    returns (isNew: bool, seen': set<BindingKey>)
    requires seen == KeysOf(met)
    ensures isNew <==> b !in met
    ensures seen' == KeysOf(met + {b})
  {
    var key := ComputeKey(b);
    isNew := key !in seen;
    seen' := seen + {key};
    if key in seen {
      ghost var b' :| b' in met && KeyOf(b') == key;
      KeyIsInjective(b, b');
    }
    assert KeysOf(met + {b}) == KeysOf(met) + {KeyOf(b)};
  }

  /** First occurrences, in order. */
  ghost function FirstOccurrences(s: seq<Binding>): seq<Binding> {
    if s == [] then []
    else
      var front, last := FirstOccurrences(s[..|s| - 1]), s[|s| - 1];
      if last in front then front else front + [last]
  }

  /** Order-preserving; removes exact duplicates and nothing else. */
  method DedupBindings(bindings: seq<Binding>) returns (kept: seq<Binding>)
    ensures kept == FirstOccurrences(bindings)
    ensures NoDup(kept) && ToSet(kept) == ToSet(bindings)
    ensures NoDup(bindings) ==> kept == bindings
  {
    kept := [];
    var seen: set<BindingKey> := {};
    for i := 0 to |bindings|
      invariant kept == FirstOccurrences(bindings[..i])
      invariant NoDup(kept) && ToSet(kept) == ToSet(bindings[..i])
      invariant seen == KeysOf(ToSet(kept))
      invariant NoDup(bindings) ==> kept == bindings[..i]
    {
      TakeNext(bindings, i);
      ToSetSnoc(bindings[..i], bindings[i]);
      ToSetSnoc(kept, bindings[i]);
      var isNew;
      isNew, seen := InsertKey(seen, bindings[i], ToSet(kept));
      if isNew {
        kept := kept + [bindings[i]];
      } else {
        assert ToSet(kept) + {bindings[i]} == ToSet(kept);
      }
    }
    assert bindings[..|bindings|] == bindings;
  }

  /** Appends the bindings not met before: the merge step of a broadcast and of a hop. */
  method MergeNew(merged: seq<Binding>, seen: set<BindingKey>, incoming: seq<Binding>)
    returns (merged': seq<Binding>, seen': set<BindingKey>)
    requires NoDup(merged) && seen == KeysOf(ToSet(merged))
    ensures merged <= merged'
    ensures NoDup(merged') && seen' == KeysOf(ToSet(merged'))
    ensures ToSet(merged') == ToSet(merged) + ToSet(incoming)
  {
    merged', seen' := merged, seen;
    for i := 0 to |incoming|
      invariant merged <= merged'
      invariant NoDup(merged') && seen' == KeysOf(ToSet(merged'))
      invariant ToSet(merged') == ToSet(merged) + ToSet(incoming[..i])
    {
      TakeNext(incoming, i);
      ToSetSnoc(incoming[..i], incoming[i]);
      ToSetSnoc(merged', incoming[i]);
      var isNew;
      isNew, seen' := InsertKey(seen', incoming[i], ToSet(merged'));
      if isNew {
        merged' := merged' + [incoming[i]];
      } else {
        assert ToSet(merged') + {incoming[i]} == ToSet(merged');
      }
    }
    assert incoming[..|incoming|] == incoming;
  }
}
