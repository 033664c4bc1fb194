/** Small vocabulary shared by every other module: options and results, the orders the
    source derives on integers, booleans, text and doubles, and facts about sequences
    read as sets. Nothing here is particular to graphs or queries. */
module Basics {

  datatype Option<+T> = None | Some(value: T)

  datatype Result<+T, +E> = Ok(value: T) | Err(error: E)

  datatype Ordering = Less | Equal | Greater

  function Reverse(o: Ordering): Ordering {
    match o
    case Less => Greater
    case Equal => Equal
    case Greater => Less
  }

  function CompareInt(a: int, b: int): Ordering {
    if a < b then Less else if a == b then Equal else Greater
  }

  function CompareBool(a: bool, b: bool): Ordering {
    CompareInt(if a then 1 else 0, if b then 1 else 0)
  }

  /** An IEEE double, seen only through comparison. `rank` is the position of a
      non-NaN value in the numeric order; `variant` separates the values that
      share a rank (the two zeros). */
  datatype F64 = NaN | Num(rank: int, variant: nat)

  /** `partial_cmp` on doubles: NaN is comparable to nothing. */
  function PartialCompare(a: F64, b: F64): Option<Ordering> {
    if a.Num? && b.Num? then Some(CompareInt(a.rank, b.rank)) else None
  }

  /** Lexicographic comparison, as on Rust strings and byte vectors. */
  function CompareSeq<T>(a: seq<T>, b: seq<T>, rank: T -> int): Ordering {
    if a == [] then (if b == [] then Equal else Less)
    else if b == [] then Greater
    else
      match CompareInt(rank(a[0]), rank(b[0]))
      case Less => Less
      case Greater => Greater
      case Equal => CompareSeq(a[1..], b[1..], rank)
  }

  const CHAR_RANK: char -> int := (c: char) => c as int

  function CompareStr(a: string, b: string): Ordering {
    CompareSeq(a, b, CHAR_RANK)
  }

  lemma {:induction false} CompareSeqFlip<T>(a: seq<T>, b: seq<T>, rank: T -> int)
    ensures CompareSeq(b, a, rank) == Reverse(CompareSeq(a, b, rank))
  {
    if a != [] && b != [] {
      CompareSeqFlip(a[1..], b[1..], rank);
    }
  }

  lemma {:induction false} CompareSeqTransitive<T>(a: seq<T>, b: seq<T>, c: seq<T>, rank: T -> int)
    requires CompareSeq(a, b, rank) != Greater && CompareSeq(b, c, rank) != Greater
    ensures CompareSeq(a, c, rank) != Greater
  {
    if a != [] && b != [] && c != [] && rank(a[0]) == rank(b[0]) == rank(c[0]) {
      CompareSeqTransitive(a[1..], b[1..], c[1..], rank);
    }
  }

  /** `a` and `b` part at position `k`, where `a` ends or has the smaller element. */
  predicate PartAt<T(==)>(a: seq<T>, b: seq<T>, rank: T -> int, k: nat) {
    k <= |a| && k < |b| && a[..k] == b[..k] && (k < |a| ==> rank(a[k]) < rank(b[k]))
  }

  /** Lexicographic order, by the first position at which the two differ. */
  ghost predicate SeqBefore<T>(a: seq<T>, b: seq<T>, rank: T -> int) {
    exists k: nat :: PartAt(a, b, rank, k)
  }

  ghost predicate Injective<T(!new)>(rank: T -> int) {
    forall x, y :: rank(x) == rank(y) ==> x == y
  }

  lemma PartsLater<T>(a: seq<T>, b: seq<T>, rank: T -> int)
    requires a != [] && b != [] && a[0] == b[0]
    ensures SeqBefore(a, b, rank) <==> SeqBefore(a[1..], b[1..], rank)
  {
    if k: nat :| PartAt(a, b, rank, k) {
      assert k > 0;
      assert a[1..][..k - 1] == a[..k][1..] && b[1..][..k - 1] == b[..k][1..];
      assert PartAt(a[1..], b[1..], rank, k - 1);
    }
    if k: nat :| PartAt(a[1..], b[1..], rank, k) {
      assert a[..k + 1] == [a[0]] + a[1..][..k] && b[..k + 1] == [b[0]] + b[1..][..k];
      assert PartAt(a, b, rank, k + 1);
    }
  }

  lemma PartsFirst<T>(a: seq<T>, b: seq<T>, rank: T -> int)
    requires a != [] && b != [] && rank(a[0]) != rank(b[0])
    ensures SeqBefore(a, b, rank) <==> rank(a[0]) < rank(b[0])
  {
    forall k: nat | 0 < k <= |a| && k < |b| ensures a[..k] != b[..k] { assert a[..k][0] == a[0] && b[..k][0] == b[0]; }
    if rank(a[0]) < rank(b[0]) { assert PartAt(a, b, rank, 0); }
  }

  /** The comparison says which of the two comes first, and that only equals tie. */
  lemma {:induction false} CompareSeqMeans<T(!new)>(a: seq<T>, b: seq<T>, rank: T -> int)
    requires Injective(rank)
    ensures CompareSeq(a, b, rank) == Less <==> SeqBefore(a, b, rank)
    ensures CompareSeq(a, b, rank) == Greater <==> SeqBefore(b, a, rank)
    ensures CompareSeq(a, b, rank) == Equal <==> a == b
  {
    if a == [] || b == [] {
      if a == [] && b != [] { assert PartAt(a, b, rank, 0); }
      if b == [] && a != [] { assert PartAt(b, a, rank, 0); }
    } else if rank(a[0]) == rank(b[0]) {
      CompareSeqMeans(a[1..], b[1..], rank);
      PartsLater(a, b, rank);
      PartsLater(b, a, rank);
      assert a == [a[0]] + a[1..] && b == [b[0]] + b[1..];
    } else {
      PartsFirst(a, b, rank);
      PartsFirst(b, a, rank);
    }
  }

  /** Dictionary order on text, by code point. */
  ghost predicate TextBefore(a: string, b: string) {
    exists k: nat :: k <= |a| && k < |b| && a[..k] == b[..k] && (k < |a| ==> a[k] < b[k])
  }

  lemma CompareStrMeans(a: string, b: string)
    ensures CompareStr(a, b) == Less <==> TextBefore(a, b)
    ensures CompareStr(a, b) == Greater <==> TextBefore(b, a)
    ensures CompareStr(a, b) == Equal <==> a == b
  {
    CompareSeqMeans(a, b, CHAR_RANK);
    TextIsSeq(a, b);
    TextIsSeq(b, a);
  }

  lemma TextIsSeq(a: string, b: string)
    ensures TextBefore(a, b) <==> SeqBefore(a, b, CHAR_RANK)
  {
    if k: nat :| k <= |a| && k < |b| && a[..k] == b[..k] && (k < |a| ==> a[k] < b[k]) {
      assert PartAt(a, b, CHAR_RANK, k);
    }
    if k: nat :| PartAt(a, b, CHAR_RANK, k) {
      assert k <= |a| && k < |b| && a[..k] == b[..k] && (k < |a| ==> a[k] < b[k]);
    }
  }

  lemma {:induction false} CompareStrEqual(a: string, b: string)
    ensures CompareStr(a, b) == Equal <==> a == b
  {
    if a != [] && b != [] {
      CompareStrEqual(a[1..], b[1..]);
      assert a == [a[0]] + a[1..] && b == [b[0]] + b[1..];
    }
  }

  ghost function ToSet<T>(s: seq<T>): set<T> {
    set x | x in s
  }

  ghost predicate NoDup<T>(s: seq<T>) {
    forall i, j :: 0 <= i < j < |s| ==> s[i] != s[j]
  }

  lemma LastSplits<T>(s: seq<T>)
    requires s != []
    ensures forall x :: x in s <==> x in s[..|s| - 1] || x == s[|s| - 1]
  {
    assert s == s[..|s| - 1] + [s[|s| - 1]];
  }

  lemma FrontAndLast<T>(s: seq<T>)
    requires s != []
    ensures s == s[..|s| - 1] + [s[|s| - 1]]
  {
  }

  lemma SnocIndexes<T>(front: seq<T>, last: T)
    ensures |front + [last]| == |front| + 1 && (front + [last])[|front|] == last
    ensures forall j :: 0 <= j < |front| ==> (front + [last])[j] == front[j]
  {
  }

  lemma PrefixOfPrefix<T>(s: seq<T>, m: nat, n: nat)
    requires n <= m <= |s|
    ensures s[..m][..n] == s[..n]
  {
  }

  lemma SnocIsOne<T>(front: seq<T>, last: T, x: T)
    ensures front + [last] == [x] <==> front == [] && last == x
  {
    assert |front + [last]| == |front| + 1 && (front + [last])[|front|] == last;
  }

  lemma TakeNext<T>(s: seq<T>, i: nat)
    requires i < |s|
    ensures s[..i + 1] == s[..i] + [s[i]] && s[..i + 1][..i] == s[..i]
  {
  }

  lemma EmptyConcat<T>(a: seq<T>, b: seq<T>)
    ensures a + b == [] <==> a == [] && b == []
  {
    assert |a + b| == |a| + |b|;
  }

  lemma PutBack<T>(s: set<T>, x: T)
    requires x in s
    ensures s - {x} + {x} == s
  {
  }

  lemma TurnTaken<T>(all: set<T>, todo: set<T>, x: T)
    requires x in todo
    ensures all - (todo - {x}) == if x in all then (all - todo) + {x} else all - todo
  {
  }

  lemma ToSetConcat<T>(a: seq<T>, b: seq<T>)
    ensures ToSet(a + b) == ToSet(a) + ToSet(b)
  {
  }

  lemma ToSetSnoc<T>(a: seq<T>, x: T)
    ensures ToSet(a + [x]) == ToSet(a) + {x}
  {
  }

  lemma NoDupConcat<T>(a: seq<T>, b: seq<T>)
    requires NoDup(a) && NoDup(b) && ToSet(a) !! ToSet(b)
    ensures NoDup(a + b)
  {
    forall i, j | 0 <= i < j < |a + b| ensures (a + b)[i] != (a + b)[j] {
      assert (a + b)[i] in ToSet(a) || (a + b)[i] in ToSet(b);
      assert i < |a| <= j ==> (a + b)[i] in ToSet(a) && (a + b)[j] in ToSet(b);
    }
  }

  lemma NoDupParts<T>(a: seq<T>, b: seq<T>)
    requires NoDup(a + b)
    ensures NoDup(a) && NoDup(b) && ToSet(a) !! ToSet(b)
  {
    var all := a + b;
    forall i, j | 0 <= i < j < |a| ensures a[i] != a[j] { assert all[i] == a[i] && all[j] == a[j]; }
    forall i, j | 0 <= i < j < |b| ensures b[i] != b[j] { assert all[|a| + i] == b[i] && all[|a| + j] == b[j]; }
    forall i, j | 0 <= i < |a| && 0 <= j < |b| ensures a[i] != b[j] { assert all[i] == a[i] && all[|a| + j] == b[j]; }
  }

  lemma {:induction false} NoDupCardinality<T>(s: seq<T>)
    requires NoDup(s)
    ensures |ToSet(s)| == |s|
  {
    if s != [] {
      var front, last := s[..|s| - 1], s[|s| - 1];
      NoDupCardinality(front);
      assert s == front + [last];
      ToSetSnoc(front, last);
      assert last !in ToSet(front);
    }
  }
}
