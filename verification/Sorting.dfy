/** The stable library sort the engine calls in four places, and the laws about it that
    do not mention how it works: a permutation, sorted, stable, and the only sorted
    arrangement when the order is total. */
module Sorting {
  import opened Basics

  /** `leq` orders the members of `s`: any two are comparable and it is transitive. */
  ghost predicate OrdersAll<T(!new)>(leq: (T, T) -> bool, s: set<T>) {
    && (forall x, y :: x in s && y in s ==> leq(x, y) || leq(y, x))
    && (forall x, y, z :: x in s && y in s && z in s && leq(x, y) && leq(y, z) ==> leq(x, z))
  }

  ghost predicate Antisymmetric<T(!new)>(leq: (T, T) -> bool, s: set<T>) {
    forall x, y :: x in s && y in s && leq(x, y) && leq(y, x) ==> x == y
  }

  ghost predicate SortedBy<T>(s: seq<T>, leq: (T, T) -> bool) {
    forall i, j :: 0 <= i < j < |s| ==> leq(s[i], s[j])
  }

  function Insert<T>(x: T, s: seq<T>, leq: (T, T) -> bool): seq<T> {
    if s == [] || leq(x, s[0]) then [x] + s else [s[0]] + Insert(x, s[1..], leq)
  }

  /** A stable sort: an element goes in front of the later ones it does not exceed. */
  function Sort<T>(s: seq<T>, leq: (T, T) -> bool): seq<T> {
    if s == [] then [] else Insert(s[0], Sort(s[1..], leq), leq)
  }

  lemma {:induction false} InsertPermutes<T>(x: T, s: seq<T>, leq: (T, T) -> bool)
    ensures multiset(Insert(x, s, leq)) == multiset([x] + s)
  {
    if s != [] && !leq(x, s[0]) {
      InsertPermutes(x, s[1..], leq);
      assert [s[0]] + s[1..] == s;
      calc {
        multiset(Insert(x, s, leq));
        multiset{s[0]} + multiset([x] + s[1..]);
        multiset{x} + multiset([s[0]] + s[1..]);
      }
    }
  }

  lemma {:induction false} SortPermutes<T>(s: seq<T>, leq: (T, T) -> bool)
    ensures multiset(Sort(s, leq)) == multiset(s)
  {
    if s != [] {
      SortPermutes(s[1..], leq);
      InsertPermutes(s[0], Sort(s[1..], leq), leq);
      assert s == [s[0]] + s[1..];
    }
  }

  lemma PermutationFacts<T>(a: seq<T>, b: seq<T>)
    requires multiset(a) == multiset(b)
    ensures ToSet(a) == ToSet(b) && |a| == |b|
  {
    assert |multiset(a)| == |a| && |multiset(b)| == |b|;
    forall x ensures x in a <==> x in b {
      assert x in a <==> multiset(a)[x] > 0;
      assert x in b <==> multiset(b)[x] > 0;
    }
  }

  lemma {:induction false} NoDupMultiset<T>(s: seq<T>)
    ensures NoDup(s) <==> multiset(s) == multiset(ToSet(s))
  {
    forall x ensures x in s <==> multiset(s)[x] > 0 {}
    if s != [] {
      var a, x := s[..|s| - 1], s[|s| - 1];
      assert s == a + [x];
      NoDupMultiset(a);
      ToSetSnoc(a, x);
      assert multiset(s) == multiset(a) + multiset{x};
      if x in a {
        assert multiset(a)[x] >= 1 && multiset(s)[x] >= 2;
        assert multiset(ToSet(s))[x] == 1;
      } else {
        assert multiset(ToSet(s)) == multiset(ToSet(a)) + multiset{x};
        if multiset(s) == multiset(ToSet(s)) {
          assert multiset(a) == multiset(s) - multiset{x};
        }
      }
    }
  }

  lemma {:induction false} InsertSorted<T(!new)>(x: T, s: seq<T>, leq: (T, T) -> bool)
    requires SortedBy(s, leq) && OrdersAll(leq, ToSet([x] + s))
    ensures SortedBy(Insert(x, s, leq), leq)
  {
    if s != [] {
      assert x in ToSet([x] + s);
      forall k | 0 <= k < |s| ensures s[k] in ToSet([x] + s) { assert ([x] + s)[k + 1] == s[k]; }
      if !leq(x, s[0]) {
        assert ToSet([x] + s[1..]) <= ToSet([x] + s);
        InsertSorted(x, s[1..], leq);
        InsertPermutes(x, s[1..], leq);
        PermutationFacts(Insert(x, s[1..], leq), [x] + s[1..]);
        forall y | y in Insert(x, s[1..], leq) ensures leq(s[0], y) {
          assert y in ToSet([x] + s[1..]);
        }
      }
    }
  }

  lemma {:induction false} SortSorted<T(!new)>(s: seq<T>, leq: (T, T) -> bool)
    requires OrdersAll(leq, ToSet(s))
    ensures SortedBy(Sort(s, leq), leq)
  {
    if s != [] {
      assert s == [s[0]] + s[1..];
      assert ToSet(s[1..]) <= ToSet(s);
      SortSorted(s[1..], leq);
      SortPermutes(s[1..], leq);
      PermutationFacts(Sort(s[1..], leq), s[1..]);
      ToSetConcat([s[0]], Sort(s[1..], leq));
      ToSetConcat([s[0]], s[1..]);
      InsertSorted(s[0], Sort(s[1..], leq), leq);
    }
  }

  lemma SameFirst<T(!new)>(a: seq<T>, b: seq<T>, leq: (T, T) -> bool)
    requires multiset(a) == multiset(b) && a != [] && b != []
    requires SortedBy(a, leq) && SortedBy(b, leq)
    requires OrdersAll(leq, ToSet(a)) && Antisymmetric(leq, ToSet(a))
    ensures a[0] == b[0]
  {
    PermutationFacts(a, b);
    assert a[0] in ToSet(b) && b[0] in ToSet(a);
    var i :| 0 <= i < |b| && b[i] == a[0];
    var j :| 0 <= j < |a| && a[j] == b[0];
  }

  lemma RestOf<T>(a: seq<T>)
    requires a != []
    ensures multiset(a[1..]) == multiset(a) - multiset{a[0]} && ToSet(a[1..]) <= ToSet(a)
  {
    assert a == [a[0]] + a[1..];
  }

  /** Under a total order there is only one sorted arrangement, so sorting forgets
      the order in which a hash map produced its entries. */
  lemma {:induction false} SortedUnique<T(!new)>(a: seq<T>, b: seq<T>, leq: (T, T) -> bool)
    requires multiset(a) == multiset(b)
    requires SortedBy(a, leq) && SortedBy(b, leq)
    requires OrdersAll(leq, ToSet(a)) && Antisymmetric(leq, ToSet(a))
    ensures a == b
  {
    PermutationFacts(a, b);
    if a != [] {
      SameFirst(a, b, leq);
      RestOf(a);
      RestOf(b);
      SortedUnique(a[1..], b[1..], leq);
      assert a == [a[0]] + a[1..] && b == [b[0]] + b[1..];
    }
  }

  /** The members of `s` that tie with `x`, in order. */
  ghost function Ties<T>(s: seq<T>, x: T, leq: (T, T) -> bool): seq<T> {
    if s == [] then []
    else (if leq(x, s[0]) && leq(s[0], x) then [s[0]] else []) + Ties(s[1..], x, leq)
  }

  ghost function TieOf<T>(y: T, x: T, leq: (T, T) -> bool): seq<T> {
    if leq(x, y) && leq(y, x) then [y] else []
  }

  lemma TiesCons<T>(y: T, s: seq<T>, x: T, leq: (T, T) -> bool)
    ensures Ties([y] + s, x, leq) == TieOf(y, x, leq) + Ties(s, x, leq)
  {
    assert ([y] + s)[1..] == s;
  }

  /** Two elements that do not tie with each other do not both tie with `x`. */
  lemma NotBothTie<T(!new)>(y: T, z: T, x: T, leq: (T, T) -> bool, s: set<T>)
    requires OrdersAll(leq, s) && x in s && y in s && z in s && !leq(y, z)
    ensures TieOf(y, x, leq) + TieOf(z, x, leq) == TieOf(z, x, leq) + TieOf(y, x, leq)
  {
    assert leq(y, x) && leq(x, z) ==> leq(y, z);
  }

  lemma {:induction false} InsertStable<T(!new)>(y: T, s: seq<T>, x: T, leq: (T, T) -> bool)
    requires SortedBy(s, leq) && OrdersAll(leq, ToSet([x, y] + s))
    ensures Ties(Insert(y, s, leq), x, leq) == Ties([y] + s, x, leq)
  {
    if s != [] && !leq(y, s[0]) {
      var z, rest := s[0], s[1..];
      assert y in ToSet([x, y] + s) && x in ToSet([x, y] + s) && z in ToSet([x, y] + s) by {
        assert ([x, y] + s)[0] == x && ([x, y] + s)[1] == y && ([x, y] + s)[2] == z;
      }
      assert ToSet([x, y] + rest) <= ToSet([x, y] + s);
      InsertStable(y, rest, x, leq);
      NotBothTie(y, z, x, leq, ToSet([x, y] + s));
      TiesCons(y, rest, x, leq);
      TiesCons(y, s, x, leq);
      SwapFront(TieOf(z, x, leq), TieOf(y, x, leq), Ties(rest, x, leq));
      assert Insert(y, s, leq)[1..] == Insert(y, rest, leq);
    }
  }

  lemma SwapFront<T>(a: seq<T>, b: seq<T>, c: seq<T>)
    requires a + b == b + a
    ensures a + (b + c) == b + (a + c)
  {
    assert a + (b + c) == (a + b) + c;
    assert b + (a + c) == (b + a) + c;
  }

  /** Rows that compare equal keep their relative order. */
  lemma {:induction false} SortStable<T(!new)>(s: seq<T>, x: T, leq: (T, T) -> bool)
    requires OrdersAll(leq, ToSet([x] + s))
    ensures Ties(Sort(s, leq), x, leq) == Ties(s, x, leq)
  {
    if s != [] {
      assert ToSet([x] + s[1..]) <= ToSet([x] + s);
      assert ToSet(s[1..]) <= ToSet([x] + s);
      SortStable(s[1..], x, leq);
      var rest := Sort(s[1..], leq);
      SortSorted(s[1..], leq);
      SortPermutes(s[1..], leq);
      PermutationFacts(rest, s[1..]);
      assert ToSet([x, s[0]] + rest) <= ToSet([x] + s) by {
        assert forall z :: z in rest ==> z in ToSet(s[1..]);
        assert s[0] == ([x] + s)[1];
      }
      InsertStable(s[0], rest, x, leq);
      assert ([s[0]] + rest)[1..] == rest;
    }
  }
}
