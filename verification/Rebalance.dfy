/** Rendezvous placement of partitions on machines (graph-cluster/src/rebalance.rs): who
    hosts what, minimal disruption when machines come and go, and moves that are safe in
    any order. */
module Rebalance {
  import opened Basics
  import opened GraphModel
  import opened Sorting
  import opened Membership

  /** The hash of partition and machine name, left abstract. */
  type Score = (PartitionId, string) -> nat

  datatype PartitionMove = PartitionMove(partition: PartitionId, fromMachine: Option<string>, toMachine: string)

  // ---------------------------------------------------------------- ranking

  /** Descending score; equal scores by name. */
  function Ranks(score: Score, p: PartitionId): (string, string) -> bool {
    (a, b) => score(p, a) > score(p, b) || (score(p, a) == score(p, b) && CompareStr(a, b) != Greater)
  }

  const BY_NAME: (string, string) -> bool := (a, b) => CompareStr(a, b) != Greater

  lemma NamesTotal(s: set<string>)
    ensures OrdersAll(BY_NAME, s) && Antisymmetric(BY_NAME, s)
  {
    forall a, b ensures BY_NAME(a, b) || BY_NAME(b, a) { CompareSeqFlip(a, b, CHAR_RANK); }
    forall a, b | BY_NAME(a, b) && BY_NAME(b, a)
      ensures a == b
    {
      CompareSeqFlip(a, b, CHAR_RANK); CompareStrEqual(a, b);
    }
    forall a, b, c | BY_NAME(a, b) && BY_NAME(b, c) ensures BY_NAME(a, c) { CompareSeqTransitive(a, b, c, CHAR_RANK); }
  }

  lemma RanksTotal(score: Score, p: PartitionId, s: set<string>)
    ensures OrdersAll(Ranks(score, p), s) && Antisymmetric(Ranks(score, p), s)
  {
    NamesTotal(s);
    forall a, b ensures BY_NAME(a, b) == (CompareStr(a, b) != Greater) {}
    forall a, b, c | a in s && b in s && c in s && Ranks(score, p)(a, b) && Ranks(score, p)(b, c)
      ensures Ranks(score, p)(a, c)
    {
      if score(p, a) == score(p, c) { assert BY_NAME(a, b) && BY_NAME(b, c); }
    }
    forall a, b | a in s && b in s ensures Ranks(score, p)(a, b) || Ranks(score, p)(b, a) {
      assert BY_NAME(a, b) || BY_NAME(b, a);
    }
  }

  function Min(a: nat, b: nat): nat {
    if a < b then a else b
  }

  /** The `factor` machines ranked first. */
  function Targets(score: Score, p: PartitionId, machines: seq<string>, factor: nat): seq<string> {
    var ranked := Sort(machines, Ranks(score, p));
    SortPermutes(machines, Ranks(score, p));
    PermutationFacts(ranked, machines);
    ranked[..Min(factor, |machines|)]
  }

  /** The machines that come before `m`. */
  ghost function Ahead(score: Score, p: PartitionId, machines: set<string>, m: string): set<string> {
    set x | x in machines && x != m && Ranks(score, p)(x, m)
  }

  lemma RankedPosition(score: Score, p: PartitionId, ranked: seq<string>, i: nat)
    requires NoDup(ranked) && SortedBy(ranked, Ranks(score, p)) && i < |ranked|
    ensures |Ahead(score, p, ToSet(ranked), ranked[i])| == i
  {
    var before := ranked[..i];
    RanksTotal(score, p, ToSet(ranked));
    assert Ahead(score, p, ToSet(ranked), ranked[i]) == ToSet(before) by {
      forall x | x in Ahead(score, p, ToSet(ranked), ranked[i]) ensures x in ToSet(before) {
        var j :| 0 <= j < |ranked| && ranked[j] == x;
        assert ranked[i] in ToSet(ranked);
        assert j < i;
        assert before[j] == x;
      }
      forall x | x in ToSet(before) ensures x in Ahead(score, p, ToSet(ranked), ranked[i]) {
        var j :| 0 <= j < i && before[j] == x;
        assert ranked[j] == x && ranked[j] != ranked[i];
      }
    }
    NoDupCardinality(before);
  }

  lemma SortNoDup(score: Score, p: PartitionId, machines: seq<string>)
    requires NoDup(machines)
    ensures var ranked := Sort(machines, Ranks(score, p));
            NoDup(ranked) && SortedBy(ranked, Ranks(score, p)) && ToSet(ranked) == ToSet(machines)
            && |ranked| == |machines|
  {
    var ranked := Sort(machines, Ranks(score, p));
    RanksTotal(score, p, ToSet(machines));
    SortSorted(machines, Ranks(score, p));
    SortPermutes(machines, Ranks(score, p));
    PermutationFacts(ranked, machines);
    NoDupMultiset(machines);
    NoDupMultiset(ranked);
  }

  /** A machine is chosen exactly when fewer than `factor` machines come before it. */
  lemma ChosenIff(score: Score, p: PartitionId, machines: seq<string>, factor: nat, m: string)
    requires NoDup(machines)
    ensures m in Targets(score, p, machines, factor) <==>
              m in machines && |Ahead(score, p, ToSet(machines), m)| < factor
  {
    var ranked := Sort(machines, Ranks(score, p));
    SortNoDup(score, p, machines);
    if m in machines {
      assert m in ToSet(ranked);
      var i :| 0 <= i < |ranked| && ranked[i] == m;
      RankedPosition(score, p, ranked, i);
      if m in ranked[..Min(factor, |machines|)] {
        var j :| 0 <= j < Min(factor, |machines|) && ranked[..Min(factor, |machines|)][j] == m;
        assert ranked[j] == m && j == i;
      }
      if i < factor { assert ranked[..Min(factor, |machines|)][i] == m; }
    } else {
      assert m !in ToSet(ranked);
    }
  }

  lemma RanksMeans(score: Score, p: PartitionId, a: string, b: string)
    ensures Ranks(score, p)(a, b) <==>
              score(p, a) > score(p, b) || (score(p, a) == score(p, b) && (a == b || TextBefore(a, b)))
  {
    CompareStrMeans(a, b);
  }

  /** A chosen machine outscores every machine left out, or ties with it and has the
      smaller name. */
  lemma ChosenScoreHighest(score: Score, p: PartitionId, machines: seq<string>, factor: nat, m: string, x: string)
    requires NoDup(machines) && m in Targets(score, p, machines, factor)
    requires x in machines && x !in Targets(score, p, machines, factor)
    ensures score(p, m) > score(p, x) || (score(p, m) == score(p, x) && TextBefore(m, x))
  {
    var ranked := Sort(machines, Ranks(score, p));
    SortNoDup(score, p, machines);
    var k := Min(factor, |machines|);
    var i :| 0 <= i < k && ranked[..k][i] == m;
    assert x in ToSet(ranked);
    var j :| 0 <= j < |ranked| && ranked[j] == x;
    forall t | 0 <= t < k ensures ranked[t] in ranked[..k] { assert ranked[..k][t] == ranked[t]; }
    assert j >= k;
    assert Ranks(score, p)(ranked[i], ranked[j]);
    RanksMeans(score, p, m, x);
  }

  /** There are as many targets as the factor and the machines allow, all different. */
  lemma TargetCount(score: Score, p: PartitionId, machines: seq<string>, factor: nat)
    requires NoDup(machines)
    ensures NoDup(Targets(score, p, machines, factor))
    ensures |Targets(score, p, machines, factor)| == |ToSet(Targets(score, p, machines, factor))| == Min(factor, |machines|)
  {
    SortNoDup(score, p, machines);
    NoDupCardinality(Targets(score, p, machines, factor));
  }

  /** The list of machines may come in any order. */
  lemma TargetsIgnoreOrder(score: Score, p: PartitionId, a: seq<string>, b: seq<string>, factor: nat)
    requires multiset(a) == multiset(b)
    ensures Targets(score, p, a, factor) == Targets(score, p, b, factor)
  {
    var leq := Ranks(score, p);
    RanksTotal(score, p, ToSet(a));
    RanksTotal(score, p, ToSet(b));
    RanksTotal(score, p, ToSet(Sort(a, leq)));
    SortSorted(a, leq);
    SortSorted(b, leq);
    SortPermutes(a, leq);
    SortPermutes(b, leq);
    PermutationFacts(a, b);
    SortedUnique(Sort(a, leq), Sort(b, leq), leq);
  }

  /** Minimal disruption: among the machines of the smaller cluster, the larger one keeps
      only old targets, so growing adds new machines only. */
  lemma GrowingKeepsTargets(score: Score, p: PartitionId, fewer: seq<string>, more: seq<string>, factor: nat, m: string)
    requires NoDup(fewer) && NoDup(more) && ToSet(fewer) <= ToSet(more)
    requires m in Targets(score, p, more, factor) && m in fewer
    ensures m in Targets(score, p, fewer, factor)
  {
    ChosenIff(score, p, fewer, factor, m);
    ChosenIff(score, p, more, factor, m);
    SubsetCount(Ahead(score, p, ToSet(fewer), m), Ahead(score, p, ToSet(more), m));
  }

  lemma SubsetCount<T>(a: set<T>, b: set<T>)
    requires a <= b
    ensures |a| <= |b|
  {
    assert b == a + (b - a);
  }

  /** Shrinking leaves a partition alone unless it loses one of its own machines. */
  lemma ShrinkingTouchesOnlyLosers(score: Score, p: PartitionId, fewer: seq<string>, more: seq<string>, factor: nat)
    requires NoDup(fewer) && NoDup(more) && ToSet(fewer) <= ToSet(more)
    requires ToSet(Targets(score, p, more, factor)) <= ToSet(fewer)
    ensures ToSet(Targets(score, p, fewer, factor)) == ToSet(Targets(score, p, more, factor))
  {
    var before, after := ToSet(Targets(score, p, more, factor)), ToSet(Targets(score, p, fewer, factor));
    forall m | m in before ensures m in after { GrowingKeepsTargets(score, p, fewer, more, factor, m); }
    TargetCount(score, p, more, factor);
    TargetCount(score, p, fewer, factor);
    NoDupCardinality(fewer);
    NoDupCardinality(more);
    SubsetCount(ToSet(fewer), ToSet(more));
    SubsetSameSize(before, after);
  }

  lemma SubsetSameSize<T>(a: set<T>, b: set<T>)
    requires a <= b && |b| <= |a|
    ensures a == b
  {
    assert b == a + (b - a);
    assert |b - a| == 0;
  }

  // ---------------------------------------------------------------- the plan

  ghost function Hosts(current: PartitionMap, p: PartitionId): set<string> {
    if p in current then set r | r in current[p] :: r.replica else {}
  }

  /** The members of a hash set, in whatever order. */
  ghost function Listing(s: set<string>): (r: seq<string>)
    ensures ToSet(r) == s && NoDup(r)
  {
    if s == {} then []
    else
      var x :| x in s;
      ListingStep(x, Listing(s - {x}));
      [x] + Listing(s - {x})
  }

  lemma ListingStep(x: string, rest: seq<string>)
    requires NoDup(rest) && x !in ToSet(rest)
    ensures ToSet([x] + rest) == ToSet(rest) + {x} && NoDup([x] + rest)
  {
    ToSetConcat([x], rest);
    NoDupConcat([x], rest);
  }

  function Without(names: seq<string>, gone: set<string>): seq<string> {
    if names == [] then []
    else Without(names[..|names| - 1], gone) + (if names[|names| - 1] in gone then [] else [names[|names| - 1]])
  }

  lemma {:induction false} WithoutLaws(names: seq<string>, gone: set<string>)
    ensures ToSet(Without(names, gone)) == ToSet(names) - gone
    ensures NoDup(names) ==> NoDup(Without(names, gone))
  {
    if names != [] {
      var front, last := names[..|names| - 1], names[|names| - 1];
      WithoutLaws(front, gone);
      assert names == front + [last];
      ToSetSnoc(front, last);
      ToSetSnoc(Without(front, gone), last);
      if NoDup(names) {
        NoDupParts(front, [last]);
        assert last in ToSet([last]);
        if last !in gone {
          NoDupConcat(Without(front, gone), [last]);
        }
      }
    }
  }

  /** Targets that do not host the partition yet, by name. */
  function Adds(targets: seq<string>, hosts: set<string>): seq<string> {
    Sort(Without(targets, hosts), BY_NAME)
  }

  /** Hosts that are no targets, by name. */
  ghost function Removes(targets: seq<string>, hosts: set<string>): seq<string> {
    Sort(Listing(hosts - ToSet(targets)), BY_NAME)
  }

  function MoveAt(p: PartitionId, adds: seq<string>, removes: seq<string>, i: nat): PartitionMove
    requires i < |adds|
  {
    PartitionMove(p, if i < |removes| then Some(removes[i]) else None, adds[i])
  }

  /** Each addition takes over from the next removal, while there is one. */
  function Paired(p: PartitionId, adds: seq<string>, removes: seq<string>): seq<PartitionMove> {
    seq(|adds|, i requires 0 <= i < |adds| => MoveAt(p, adds, removes, i))
  }

  ghost function MovesOf(
      score: Score, factor: nat, current: PartitionMap, machines: seq<string>, p: PartitionId): seq<PartitionMove> {
    var targets := Targets(score, p, machines, factor);
    Paired(p, Adds(targets, Hosts(current, p)), Removes(targets, Hosts(current, p)))
  }

  ghost function Moves(
      score: Score, factor: nat, current: PartitionMap, machines: seq<string>, n: nat): seq<PartitionMove> {
    if n == 0 then [] else Moves(score, factor, current, machines, n - 1) + MovesOf(score, factor, current, machines, n - 1)
  }

  lemma SortedNames(names: seq<string>)
    ensures ToSet(Sort(names, BY_NAME)) == ToSet(names)
    ensures NoDup(names) ==> NoDup(Sort(names, BY_NAME))
  {
    SortPermutes(names, BY_NAME);
    PermutationFacts(Sort(names, BY_NAME), names);
    NoDupMultiset(names);
    NoDupMultiset(Sort(names, BY_NAME));
  }

  /** Sorted names stand in dictionary order. */
  lemma NamesAscend(names: seq<string>, i: nat, j: nat)
    requires NoDup(names) && i < j < |names|
    ensures |Sort(names, BY_NAME)| == |names| && TextBefore(Sort(names, BY_NAME)[i], Sort(names, BY_NAME)[j])
  {
    var sorted := Sort(names, BY_NAME);
    SortPermutes(names, BY_NAME);
    PermutationFacts(sorted, names);
    SortedNames(names);
    NamesTotal(ToSet(names));
    SortSorted(names, BY_NAME);
    assert BY_NAME(sorted[i], sorted[j]);
    CompareStrMeans(sorted[i], sorted[j]);
  }

  lemma SortForgetsOrder(a: seq<string>, b: seq<string>)
    requires NoDup(a) && NoDup(b) && ToSet(a) == ToSet(b)
    ensures Sort(a, BY_NAME) == Sort(b, BY_NAME)
  {
    NoDupMultiset(a);
    NoDupMultiset(b);
    SortPermutes(a, BY_NAME);
    SortPermutes(b, BY_NAME);
    NamesTotal(ToSet(a));
    NamesTotal(ToSet(Sort(a, BY_NAME)));
    SortSorted(a, BY_NAME);
    SortSorted(b, BY_NAME);
    SortedUnique(Sort(a, BY_NAME), Sort(b, BY_NAME), BY_NAME);
  }

  // ---------------------------------------------------------------- the planner

  method TargetMachines(score: Score, p: PartitionId, machines: seq<string>, factor: nat) returns (targets: seq<string>)
    requires factor <= |machines|
    ensures targets == Targets(score, p, machines, factor)
  {
    var scored := Sort(machines, Ranks(score, p));
    SortPermutes(machines, Ranks(score, p));
    PermutationFacts(scored, machines);
    targets := scored[..factor];
  }

  /** Every machine a replica of the partition is listed on. */
  method CurrentMachines(current: PartitionMap, p: PartitionId) returns (hosts: set<string>)
    ensures hosts == Hosts(current, p)
  {
    hosts := {};
    if p in current {
      for i := 0 to |current[p]|
        invariant hosts == set r | r in current[p][..i] :: r.replica
      {
        assert current[p][..i + 1] == current[p][..i] + [current[p][i]];
        hosts := hosts + {current[p][i].replica};
      }
      assert current[p][..|current[p]|] == current[p];
    }
  }

  method NamesToRemove(targets: seq<string>, hosts: set<string>) returns (removes: seq<string>)
    ensures removes == Removes(targets, hosts)
  {
    var left, found := hosts, [];
    while left != {}
      invariant left <= hosts
      invariant NoDup(found) && ToSet(found) == (hosts - left) - ToSet(targets)
      decreases |left|
    {
      var m :| m in left;
      if m !in targets {
        ToSetSnoc(found, m);
        assert m !in ToSet(found);
        NoDupConcat(found, [m]);
        found := found + [m];
      }
      left := left - {m};
    }
    SortForgetsOrder(found, Listing(hosts - ToSet(targets)));
    removes := Sort(found, BY_NAME);
  }

  method PlanMoves(score: Score, nPartitions: nat, replicationFactor: nat, current: PartitionMap, machines: seq<string>)
    returns (moves: seq<PartitionMove>)
    ensures moves == Moves(score, replicationFactor, current, machines, nPartitions)
  {
    moves := [];
    if machines == [] {
      NoMachinesNoMoves(score, replicationFactor, current, nPartitions);
      return;
    }
    var factor := Min(replicationFactor, |machines|);
    for p := 0 to nPartitions
      invariant moves == Moves(score, replicationFactor, current, machines, p)
    {
      var targets := TargetMachines(score, p, machines, factor);
      var hosts := CurrentMachines(current, p);
      var adds := Adds(targets, hosts);
      var removes := NamesToRemove(targets, hosts);
      moves := PushPairs(moves, p, adds, removes);
    }
  }

  method PushPairs(moves: seq<PartitionMove>, p: PartitionId, adds: seq<string>, removes: seq<string>)
    returns (r: seq<PartitionMove>)
    ensures r == moves + Paired(p, adds, removes)
  {
    r := moves;
    for i := 0 to |adds|
      invariant r == moves + Paired(p, adds, removes)[..i]
    {
      r := r + [PartitionMove(p, if i < |removes| then Some(removes[i]) else None, adds[i])];
    }
    assert Paired(p, adds, removes)[..|adds|] == Paired(p, adds, removes);
  }

  lemma {:induction false} NoMachinesNoMoves(score: Score, factor: nat, current: PartitionMap, n: nat)
    ensures Moves(score, factor, current, [], n) == []
  {
    if n > 0 {
      NoMachinesNoMoves(score, factor, current, n - 1);
      assert Targets(score, n - 1, [], factor) == [];
    }
  }

  // ---------------------------------------------------------------- carrying out moves

  /** One move: the new replica is added, the old one is torn down. */
  function Carried(hosts: set<string>, move: PartitionMove): set<string> {
    (if move.fromMachine.Some? then hosts - {move.fromMachine.value} else hosts) + {move.toMachine}
  }

  /** The hosts of `p` after the moves of `done`, in that order. */
  ghost function HostsAfter(hosts: set<string>, p: PartitionId, done: seq<PartitionMove>): set<string> {
    if done == [] then hosts
    else
      var last := done[|done| - 1];
      var before := HostsAfter(hosts, p, done[..|done| - 1]);
      if last.partition == p then Carried(before, last) else before
  }

  ghost predicate Planned(
      score: Score, factor: nat, current: PartitionMap, machines: seq<string>, n: nat, done: seq<PartitionMove>)
  {
    forall m :: m in done ==> m in Moves(score, factor, current, machines, n)
  }

  lemma {:induction false} MovesMembers(
      score: Score, factor: nat, current: PartitionMap, machines: seq<string>, n: nat, m: PartitionMove)
    ensures m in Moves(score, factor, current, machines, n) <==>
              m.partition < n && m in MovesOf(score, factor, current, machines, m.partition)
  {
    if n > 0 {
      var p := n - 1;
      MovesMembers(score, factor, current, machines, p, m);
      if m in MovesOf(score, factor, current, machines, p) { MovesOfPartition(score, factor, current, machines, p, m); }
      InConcat(Moves(score, factor, current, machines, p), MovesOf(score, factor, current, machines, p), m);
    }
  }

  lemma InConcat<T>(a: seq<T>, b: seq<T>, x: T)
    ensures x in a + b <==> x in a || x in b
  {
  }

  lemma MovesOfPartition(
      score: Score, factor: nat, current: PartitionMap, machines: seq<string>, p: PartitionId, m: PartitionMove)
    requires m in MovesOf(score, factor, current, machines, p)
    ensures m.partition == p
  {
  }

  /** What the moves of one partition may touch: no target leaves, no host arrives. */
  lemma AddsAndRemoves(targets: seq<string>, hosts: set<string>)
    requires NoDup(targets)
    ensures NoDup(Adds(targets, hosts)) && ToSet(Adds(targets, hosts)) == ToSet(targets) - hosts
    ensures NoDup(Removes(targets, hosts)) && ToSet(Removes(targets, hosts)) == hosts - ToSet(targets)
  {
    WithoutLaws(targets, hosts);
    SortedNames(Without(targets, hosts));
    SortedNames(Listing(hosts - ToSet(targets)));
  }

  /** The additions carried out so far, by position. */
  ghost function DoneAt(p: PartitionId, adds: seq<string>, removes: seq<string>, done: seq<PartitionMove>): set<nat> {
    set i | 0 <= i < |adds| && MoveAt(p, adds, removes, i) in done
  }

  ghost function NamesAt(names: seq<string>, at: set<nat>): set<string> {
    set i | i in at && i < |names| :: names[i]
  }

  /** In whatever order: the hosts are the old ones, less those moved away, plus the new ones. */
  lemma {:induction false} HostsAfterIs(
      hosts: set<string>, p: PartitionId, adds: seq<string>, removes: seq<string>, done: seq<PartitionMove>)
    requires ToSet(adds) !! ToSet(removes) && ToSet(adds) !! hosts
    requires forall m :: m in done && m.partition == p ==> m in Paired(p, adds, removes)
    ensures HostsAfter(hosts, p, done) == hosts - NamesAt(removes, DoneAt(p, adds, removes, done)) + NamesAt(adds, DoneAt(p, adds, removes, done))
  {
    if done == [] {
      assert DoneAt(p, adds, removes, done) == {};
    } else {
      var front, last := done[..|done| - 1], done[|done| - 1];
      FrontAndLast(done);
      HostsAfterIs(hosts, p, adds, removes, front);
      var before, after := DoneAt(p, adds, removes, front), DoneAt(p, adds, removes, done);
      if last.partition == p {
        var i :| 0 <= i < |adds| && Paired(p, adds, removes)[i] == last;
        OneMoreDone(p, adds, removes, front, last, i);
        assert NamesAt(adds, before) <= ToSet(adds);
        assert last.toMachine in ToSet(adds) && (last.fromMachine.Some? ==> last.fromMachine.value in ToSet(removes));
        CarriedIs(hosts, NamesAt(removes, before), NamesAt(adds, before), last);
      } else {
        assert after == before;
      }
    }
  }

  lemma CarriedIs(hosts: set<string>, gone: set<string>, added: set<string>, last: PartitionMove)
    requires last.fromMachine.Some? ==> last.fromMachine.value !in added && last.fromMachine.value != last.toMachine
    requires last.toMachine !in hosts
    ensures Carried(hosts - gone + added, last) ==
            hosts - (gone + (if last.fromMachine.Some? then {last.fromMachine.value} else {})) + (added + {last.toMachine})
  {
  }

  lemma OneMoreDone(
      p: PartitionId, adds: seq<string>, removes: seq<string>, front: seq<PartitionMove>, last: PartitionMove, i: nat)
    requires i < |adds| && last == MoveAt(p, adds, removes, i)
    ensures NamesAt(adds, DoneAt(p, adds, removes, front + [last])) == NamesAt(adds, DoneAt(p, adds, removes, front)) + {last.toMachine}
    ensures NamesAt(removes, DoneAt(p, adds, removes, front + [last])) ==
            NamesAt(removes, DoneAt(p, adds, removes, front)) + (if last.fromMachine.Some? then {last.fromMachine.value} else {})
    ensures last.fromMachine.Some? ==> last.fromMachine.value in removes
  {
    var before, after := DoneAt(p, adds, removes, front), DoneAt(p, adds, removes, front + [last]);
    forall j | 0 <= j < |adds| ensures j in after <==> j in before || MoveAt(p, adds, removes, j) == last {}
    assert i in after;
    assert adds[i] in NamesAt(adds, after);
    if i < |removes| { assert removes[i] in NamesAt(removes, after); }
    forall x | x in NamesAt(adds, before) ensures x in NamesAt(adds, after) {
      var j :| j in before && j < |adds| && adds[j] == x;
      assert j in after;
    }
    forall x | x in NamesAt(removes, before) ensures x in NamesAt(removes, after) {
      var j :| j in before && j < |removes| && removes[j] == x;
      assert j in after;
    }
  }

  // ---------------------------------------------------------------- safety and convergence

  lemma {:induction false} NamesAtCount(names: seq<string>, at: set<nat>)
    ensures |NamesAt(names, at)| <= |at|
    ensures NoDup(names) && (forall i :: i in at ==> i < |names|) ==> |NamesAt(names, at)| == |at|
  {
    if at != {} {
      var i :| i in at;
      var rest := at - {i};
      NamesAtCount(names, rest);
      if i < |names| {
        assert NamesAt(names, at) == NamesAt(names, rest) + {names[i]};
        if NoDup(names) {
          assert names[i] !in NamesAt(names, rest);
        }
      } else {
        assert NamesAt(names, at) == NamesAt(names, rest);
      }
    }
  }

  /** Any of the planned moves, in any order and even repeatedly: no partition loses
      replicas, no target host is torn down, and nothing but targets is added. */
  lemma AnyMovesAreSafe(
      score: Score, factor: nat, current: PartitionMap, machines: seq<string>, n: nat, done: seq<PartitionMove>,
      p: PartitionId)
    requires NoDup(machines) && Planned(score, factor, current, machines, n, done)
    ensures var hosts, targets, after := Hosts(current, p), ToSet(Targets(score, p, machines, factor)), HostsAfter(Hosts(current, p), p, done);
            |after| >= |hosts| && hosts * targets <= after <= hosts + targets
  {
    var hosts, targets := Hosts(current, p), Targets(score, p, machines, factor);
    var adds, removes := Adds(targets, hosts), Removes(targets, hosts);
    TargetCount(score, p, machines, factor);
    AddsAndRemoves(targets, hosts);
    PlannedHosts(score, factor, current, machines, n, done, p);
    SafeNames(hosts, ToSet(targets), adds, removes, DoneAt(p, adds, removes, done));
  }

  lemma PlannedHosts(
      score: Score, factor: nat, current: PartitionMap, machines: seq<string>, n: nat, done: seq<PartitionMove>,
      p: PartitionId)
    requires NoDup(machines) && Planned(score, factor, current, machines, n, done)
    ensures var hosts, targets := Hosts(current, p), Targets(score, p, machines, factor);
            var adds, removes := Adds(targets, hosts), Removes(targets, hosts);
            HostsAfter(hosts, p, done) == hosts - NamesAt(removes, DoneAt(p, adds, removes, done)) + NamesAt(adds, DoneAt(p, adds, removes, done))
  {
    var hosts, targets := Hosts(current, p), Targets(score, p, machines, factor);
    var adds, removes := Adds(targets, hosts), Removes(targets, hosts);
    TargetCount(score, p, machines, factor);
    AddsAndRemoves(targets, hosts);
    forall m | m in done && m.partition == p ensures m in Paired(p, adds, removes) {
      MovesMembers(score, factor, current, machines, n, m);
    }
    HostsAfterIs(hosts, p, adds, removes, done);
  }

  lemma SafeNames(hosts: set<string>, targets: set<string>, adds: seq<string>, removes: seq<string>, at: set<nat>)
    requires NoDup(adds) && ToSet(adds) == targets - hosts && ToSet(removes) == hosts - targets
    requires forall i :: i in at ==> i < |adds|
    ensures var after := hosts - NamesAt(removes, at) + NamesAt(adds, at);
            |after| >= |hosts| && hosts * targets <= after <= hosts + targets
  {
    NamesAtCount(adds, at);
    NamesAtCount(removes, at);
    forall x | x in NamesAt(removes, at) ensures x in ToSet(removes) {}
    forall x | x in NamesAt(adds, at) ensures x in ToSet(adds) {}
    CountAfter(hosts, NamesAt(removes, at), NamesAt(adds, at));
  }

  lemma CountAfter(hosts: set<string>, gone: set<string>, added: set<string>)
    requires gone <= hosts && added !! hosts && |gone| <= |added|
    ensures |hosts - gone + added| >= |hosts|
  {
    assert hosts == (hosts - gone) + gone;
    assert (hosts - gone) !! added;
  }

  /** Once every move is carried out, in any order, each partition is hosted by all its targets. */
  lemma AllMovesReachTargets(
      score: Score, factor: nat, current: PartitionMap, machines: seq<string>, n: nat, done: seq<PartitionMove>,
      p: PartitionId)
    requires NoDup(machines) && Planned(score, factor, current, machines, n, done) && p < n
    requires forall m :: m in Moves(score, factor, current, machines, n) ==> m in done
    ensures ToSet(Targets(score, p, machines, factor)) <= HostsAfter(Hosts(current, p), p, done)
    ensures |ToSet(Targets(score, p, machines, factor))| == Min(factor, |machines|)
  {
    var hosts, targets := Hosts(current, p), Targets(score, p, machines, factor);
    var adds, removes := Adds(targets, hosts), Removes(targets, hosts);
    TargetCount(score, p, machines, factor);
    AddsAndRemoves(targets, hosts);
    PlannedHosts(score, factor, current, machines, n, done, p);
    forall i | 0 <= i < |adds| ensures i in DoneAt(p, adds, removes, done) {
      assert Paired(p, adds, removes)[i] == MoveAt(p, adds, removes, i);
      MovesMembers(score, factor, current, machines, n, MoveAt(p, adds, removes, i));
    }
    assert NamesAt(adds, DoneAt(p, adds, removes, done)) == ToSet(adds);
  }

  ghost predicate FullyHosted(score: Score, factor: nat, current: PartitionMap, machines: seq<string>, p: PartitionId) {
    ToSet(Targets(score, p, machines, factor)) <= Hosts(current, p)
  }

  /** Planning yields no moves exactly when every partition is hosted by all its targets,
      leftover hosts or not. */
  lemma NothingToMoveIff(score: Score, factor: nat, current: PartitionMap, machines: seq<string>, n: nat)
    ensures Moves(score, factor, current, machines, n) == [] <==>
              forall p :: 0 <= p < n ==> FullyHosted(score, factor, current, machines, p)
  {
    var moves := Moves(score, factor, current, machines, n);
    forall p | 0 <= p < n ensures moves == [] ==> FullyHosted(score, factor, current, machines, p) {
      NothingFor(score, factor, current, machines, p);
      var own := MovesOf(score, factor, current, machines, p);
      if own != [] {
        MovesOfPartition(score, factor, current, machines, p, own[0]);
        MovesMembers(score, factor, current, machines, n, own[0]);
      }
    }
    if moves != [] {
      var m := moves[0];
      MovesMembers(score, factor, current, machines, n, m);
      NothingFor(score, factor, current, machines, m.partition);
    }
  }

  /** Planning again after all moves were carried out, in any order, yields none. */
  lemma ReplanningYieldsNothing(
      score: Score, factor: nat, current: PartitionMap, later: PartitionMap, machines: seq<string>, n: nat,
      done: seq<PartitionMove>)
    requires NoDup(machines) && Planned(score, factor, current, machines, n, done)
    requires forall m :: m in Moves(score, factor, current, machines, n) ==> m in done
    requires forall p :: 0 <= p < n ==> Hosts(later, p) == HostsAfter(Hosts(current, p), p, done)
    ensures Moves(score, factor, later, machines, n) == []
  {
    forall p | 0 <= p < n ensures FullyHosted(score, factor, later, machines, p) {
      AllMovesReachTargets(score, factor, current, machines, n, done, p);
    }
    NothingToMoveIff(score, factor, later, machines, n);
  }

  lemma NothingFor(score: Score, factor: nat, current: PartitionMap, machines: seq<string>, p: PartitionId)
    ensures MovesOf(score, factor, current, machines, p) == [] <==> FullyHosted(score, factor, current, machines, p)
  {
    NothingToAddIff(Targets(score, p, machines, factor), Hosts(current, p));
  }

  lemma NothingToAddIff(targets: seq<string>, hosts: set<string>)
    ensures Adds(targets, hosts) == [] <==> ToSet(targets) <= hosts
  {
    WithoutLaws(targets, hosts);
    SortedNames(Without(targets, hosts));
    var adds := Adds(targets, hosts);
    assert ToSet(adds) == ToSet(targets) - hosts;
    if adds != [] { assert adds[0] in ToSet(adds); }
    assert ToSet(targets) == ToSet(adds) + ToSet(targets) * hosts;
    if adds == [] { assert ToSet(adds) == {}; }
  }
}
