/**
  Choosing among the candidates of a model (crates/twl-backends/src/lib.rs):
  rendezvous order with bounded-load spill for requests with a prompt prefix,
  round robin or least loaded for the others.
*/
module Router {
  import opened Common
  import opened RoundRobin

  // ------------------------------------------------------------------ sorting

  function Insert(key: nat -> int, x: nat, s: seq<nat>): seq<nat> {
    if s == [] || key(s[|s| - 1]) <= key(x) then s + [x]
    else Insert(key, x, s[..|s| - 1]) + [s[|s| - 1]]
  }

  /** Stable sort, smallest key first. */
  function SortBy(key: nat -> int, s: seq<nat>): seq<nat> {
    if s == [] then [] else Insert(key, s[|s| - 1], SortBy(key, s[..|s| - 1]))
  }

  ghost predicate Sorted(key: nat -> int, s: seq<nat>) {
    forall i, j :: 0 <= i < j < |s| ==> key(s[i]) <= key(s[j])
  }

  lemma {:induction false} InsertMultiset(key: nat -> int, x: nat, s: seq<nat>)
    ensures multiset(Insert(key, x, s)) == multiset(s) + multiset{x}
  {
    if !(s == [] || key(s[|s| - 1]) <= key(x)) {
      InsertMultiset(key, x, s[..|s| - 1]);
      assert s == s[..|s| - 1] + [s[|s| - 1]];
    }
  }

  lemma {:induction false} InsertSorted(key: nat -> int, x: nat, s: seq<nat>)
    requires Sorted(key, s)
    ensures Sorted(key, Insert(key, x, s))
    ensures forall k :: 0 <= k < |Insert(key, x, s)| ==> Insert(key, x, s)[k] == x || Insert(key, x, s)[k] in s
  {
    if !(s == [] || key(s[|s| - 1]) <= key(x)) {
      InsertSorted(key, x, s[..|s| - 1]);
    }
  }

  lemma {:induction false} SortCorrect(key: nat -> int, s: seq<nat>)
    ensures multiset(SortBy(key, s)) == multiset(s)
    ensures Sorted(key, SortBy(key, s))
  {
    if s != [] {
      var before, x := s[..|s| - 1], s[|s| - 1];
      SortCorrect(key, before);
      InsertMultiset(key, x, SortBy(key, before));
      InsertSorted(key, x, SortBy(key, before));
      assert s == before + [x];
    }
  }

  /** Smaller keys first, and among equal keys smaller indices first. */
  ghost predicate SortedStably(key: nat -> int, s: seq<nat>) {
    forall i, j :: 0 <= i < j < |s| ==> key(s[i]) < key(s[j]) || (key(s[i]) == key(s[j]) && s[i] < s[j])
  }

  lemma AppendStably(key: nat -> int, s: seq<nat>, x: nat)
    requires SortedStably(key, s)
    requires forall y :: y in s ==> key(y) < key(x) || (key(y) == key(x) && y < x)
    ensures SortedStably(key, s + [x])
  {
    assert forall i :: 0 <= i < |s| ==> s[i] in s;
  }

  lemma {:induction false} InsertMembers(key: nat -> int, x: nat, s: seq<nat>)
    ensures forall y :: y in Insert(key, x, s) <==> y in s || y == x
  {
    InsertMultiset(key, x, s);
    forall y ensures y in Insert(key, x, s) <==> y in s || y == x {
      assert y in Insert(key, x, s) <==> y in multiset(Insert(key, x, s));
    }
  }

  lemma LastComesAfter(key: nat -> int, s: seq<nat>, y: nat)
    requires SortedStably(key, s) && s != [] && y in s[..|s| - 1]
    ensures var last := s[|s| - 1];
            y in s && (key(y) < key(last) || (key(y) == key(last) && y < last))
  {
    var i :| 0 <= i < |s| - 1 && s[..|s| - 1][i] == y;
    assert s[i] == y;
  }

  lemma {:induction false} InsertStably(key: nat -> int, x: nat, s: seq<nat>)
    requires SortedStably(key, s) && forall y :: y in s ==> y < x
    ensures SortedStably(key, Insert(key, x, s))
    ensures forall y :: y in Insert(key, x, s) <==> y in s || y == x
  {
    InsertMembers(key, x, s);
    if s == [] || key(s[|s| - 1]) <= key(x) {
      forall y | y in s ensures key(y) < key(x) || (key(y) == key(x) && y < x) {
        if y != s[|s| - 1] {
          assert s == s[..|s| - 1] + [s[|s| - 1]];
          LastComesAfter(key, s, y);
        }
      }
      AppendStably(key, s, x);
    } else {
      var before, last := s[..|s| - 1], s[|s| - 1];
      forall y | y in before
        ensures y < x && (key(y) < key(last) || (key(y) == key(last) && y < last))
      {
        LastComesAfter(key, s, y);
      }
      InsertStably(key, x, before);
      AppendStably(key, Insert(key, x, before), last);
    }
  }

  /** The sort keeps the order of candidates with equal keys. */
  lemma {:induction false} SortIsStable(key: nat -> int, s: seq<nat>)
    requires forall i, j :: 0 <= i < j < |s| ==> s[i] < s[j]
    ensures SortedStably(key, SortBy(key, s))
    ensures forall y :: y in SortBy(key, s) <==> y in s
  {
    if s != [] {
      var before, x := s[..|s| - 1], s[|s| - 1];
      SortIsStable(key, before);
      InsertStably(key, x, SortBy(key, before));
      assert s == before + [x];
    }
  }

  ghost predicate Distinct(s: seq<nat>) {
    forall i, j :: 0 <= i < j < |s| ==> s[i] != s[j]
  }

  ghost predicate InjectiveOn(key: nat -> int, s: seq<nat>) {
    forall x, y :: x in s && y in s && key(x) == key(y) ==> x == y
  }

  lemma LastIsLargest(key: nat -> int, s: seq<nat>, x: nat)
    requires Sorted(key, s) && x in s
    ensures key(x) <= key(s[|s| - 1])
  {
    var i :| 0 <= i < |s| && s[i] == x;
  }

  lemma DropLast(s: seq<nat>)
    requires s != []
    ensures multiset(s[..|s| - 1]) == multiset(s) - multiset{s[|s| - 1]}
  {
    assert s == s[..|s| - 1] + [s[|s| - 1]];
  }

  lemma SameMembers(a: seq<nat>, b: seq<nat>, x: nat)
    requires multiset(a) == multiset(b)
    ensures |a| == |b| && (x in a <==> x in b)
  {
    assert |a| == |multiset(a)| == |b|;
    assert x in a <==> x in multiset(a);
    assert x in b <==> x in multiset(b);
  }

  lemma SameLast(key: nat -> int, a: seq<nat>, b: seq<nat>)
    requires Sorted(key, a) && Sorted(key, b) && multiset(a) == multiset(b) && InjectiveOn(key, a) && a != []
    ensures b != [] && a[|a| - 1] == b[|b| - 1]
  {
    SameMembers(a, b, a[|a| - 1]);
    SameMembers(a, b, b[|b| - 1]);
    LastIsLargest(key, a, b[|b| - 1]);
    LastIsLargest(key, b, a[|a| - 1]);
  }

  /** With distinct keys there is only one sorted arrangement, so any sort gives this one. */
  lemma {:induction false} SortedUnique(key: nat -> int, a: seq<nat>, b: seq<nat>)
    requires Sorted(key, a) && Sorted(key, b) && multiset(a) == multiset(b) && InjectiveOn(key, a)
    ensures a == b
  {
    SameMembers(a, b, 0);
    if a != [] {
      SameLast(key, a, b);
      DropLast(a);
      DropLast(b);
      SortedUnique(key, a[..|a| - 1], b[..|b| - 1]);
      assert a == a[..|a| - 1] + [a[|a| - 1]] && b == b[..|b| - 1] + [b[|b| - 1]];
    }
  }

  // --------------------------------------------------------- rendezvous order

  /** Scores for one prompt prefix; the highest score is preferred. */
  type Score = nat -> int

  function Descending(score: Score): nat -> int {
    (b: nat) => -score(b)
  }

  function Ranked(score: Score, candidates: seq<nat>): seq<nat> {
    SortBy(Descending(score), candidates)
  }

  function Keep(s: seq<nat>, keep: nat -> bool): seq<nat> {
    if s == [] then []
    else
      var rest := Keep(s[..|s| - 1], keep);
      if keep(s[|s| - 1]) then rest + [s[|s| - 1]] else rest
  }

  lemma KeepAppend(s: seq<nat>, x: nat, keep: nat -> bool)
    ensures Keep(s + [x], keep) == if keep(x) then Keep(s, keep) + [x] else Keep(s, keep)
  {
    assert (s + [x])[..|s|] == s;
  }

  lemma {:induction false} KeepMembers(s: seq<nat>, keep: nat -> bool)
    ensures forall x :: x in Keep(s, keep) <==> x in s && keep(x)
    ensures |Keep(s, keep)| <= |s|
  {
    if s != [] {
      KeepMembers(s[..|s| - 1], keep);
    }
  }

  lemma InsertAppends(key: nat -> int, x: nat, s: seq<nat>)
    requires s == [] || key(s[|s| - 1]) <= key(x)
    ensures Insert(key, x, s) == s + [x]
  {
  }

  lemma InsertSkips(key: nat -> int, x: nat, s: seq<nat>, last: nat)
    requires key(last) > key(x)
    ensures Insert(key, x, s + [last]) == Insert(key, x, s) + [last]
  {
    assert (s + [last])[..|s|] == s;
  }

  lemma {:induction false} InsertKeep(key: nat -> int, x: nat, s: seq<nat>, keep: nat -> bool)
    requires Sorted(key, s)
    ensures Keep(Insert(key, x, s), keep)
         == if keep(x) then Insert(key, x, Keep(s, keep)) else Keep(s, keep)
  {
    if s == [] || key(s[|s| - 1]) <= key(x) {
      InsertAppends(key, x, s);
      KeepAppend(s, x, keep);
      KeepMembers(s, keep);
      var kept := Keep(s, keep);
      if kept != [] {
        LastIsLargest(key, s, kept[|kept| - 1]);
      }
      InsertAppends(key, x, kept);
    } else {
      var before, last := s[..|s| - 1], s[|s| - 1];
      assert s == before + [last];
      InsertKeep(key, x, before, keep);
      InsertSkips(key, x, before, last);
      KeepAppend(Insert(key, x, before), last, keep);
      KeepAppend(before, last, keep);
      InsertSkips(key, x, Keep(before, keep), last);
    }
  }

  /**
    Minimal disruption: the order over some of the backends is the order over all
    of them with the others left out.
  */
  lemma {:induction false} RankRestricts(score: Score, candidates: seq<nat>, keep: nat -> bool)
    ensures Ranked(score, Keep(candidates, keep)) == Keep(Ranked(score, candidates), keep)
  {
    if candidates != [] {
      var before, x := candidates[..|candidates| - 1], candidates[|candidates| - 1];
      RankRestricts(score, before, keep);
      SortCorrect(Descending(score), before);
      InsertKeep(Descending(score), x, Ranked(score, before), keep);
      if keep(x) {
        assert (Keep(before, keep) + [x])[..|Keep(before, keep)|] == Keep(before, keep);
      }
    }
  }

  lemma {:induction false} KeepFirst(s: seq<nat>, keep: nat -> bool)
    requires s != [] && keep(s[0])
    ensures Keep(s, keep) != [] && Keep(s, keep)[0] == s[0]
  {
    if |s| > 1 {
      KeepFirst(s[..|s| - 1], keep);
    }
  }

  lemma RankedSize(score: Score, candidates: seq<nat>)
    ensures |Ranked(score, candidates)| == |candidates|
    ensures forall b :: b in Ranked(score, candidates) <==> b in candidates
  {
    var key := Descending(score);
    SortCorrect(key, candidates);
    SameMembers(SortBy(key, candidates), candidates, 0);
    forall b: nat ensures b in SortBy(key, candidates) <==> b in candidates {
      SameMembers(SortBy(key, candidates), candidates, b);
    }
  }

  function Except(gone: nat): nat -> bool {
    (b: nat) => b != gone
  }

  /** Losing a backend moves a prefix only if that backend was its primary. */
  lemma PrimaryStable(score: Score, candidates: seq<nat>, gone: nat)
    requires Keep(candidates, Except(gone)) != []
    ensures candidates != []
    ensures var before, after := Ranked(score, candidates), Ranked(score, Keep(candidates, Except(gone)));
            && before != [] && after != []
            && (before[0] != gone ==> after[0] == before[0])
  {
    var keep := Except(gone);
    RankRestricts(score, candidates, keep);
    RankedSize(score, candidates);
    RankedSize(score, Keep(candidates, keep));
    var before := Ranked(score, candidates);
    if before[0] != gone {
      KeepFirst(before, keep);
    }
  }

  /** Gaining a backend anywhere among the candidates moves a prefix only to that backend. */
  lemma PrimaryMovesToNew(score: Score, left: seq<nat>, added: nat, right: seq<nat>)
    requires left + right != [] && added !in left + right
    ensures var before, after := Ranked(score, left + right), Ranked(score, left + [added] + right);
            && before != [] && after != []
            && (after[0] == before[0] || after[0] == added)
  {
    var grown := left + [added] + right;
    KeepOthers(left, right, added);
    PrimaryStable(score, grown, added);
  }

  lemma {:induction false} KeepOthers(left: seq<nat>, right: seq<nat>, x: nat)
    requires x !in left + right
    ensures Keep(left + [x] + right, Except(x)) == left + right
  {
    if right == [] {
      assert left + [x] + right == left + [x] && left + right == left;
      KeepAppend(left, x, Except(x));
      KeepAll(left, x);
    } else {
      var before, last := right[..|right| - 1], right[|right| - 1];
      assert last in left + right;
      assert forall y :: y in left + before ==> y in left + right;
      KeepOthers(left, before, x);
      KeepAppend(left + [x] + before, last, Except(x));
      assert left + [x] + right == left + [x] + before + [last];
      assert left + right == left + before + [last];
    }
  }

  // ------------------------------------------------------------- bounded load

  function Loads(load: seq<nat>, candidates: seq<nat>): nat
    requires forall i :: 0 <= i < |candidates| ==> candidates[i] < |load|
  {
    if candidates == [] then 0
    else Loads(load, candidates[..|candidates| - 1]) + load[candidates[|candidates| - 1]]
  }

  /** The total is each candidate's own counter, added up. */
  lemma {:induction false} LoadsIs(load: seq<nat>, candidates: seq<nat>)
    requires forall i :: 0 <= i < |candidates| ==> candidates[i] < |load|
    ensures Loads(load, candidates)
         == Sum(seq(|candidates|, i requires 0 <= i < |candidates| => load[candidates[i]]))
  {
    if candidates != [] {
      var n := |candidates| - 1;
      LoadsIs(load, candidates[..n]);
      var before: seq<int> := seq(n, i requires 0 <= i < n => load[candidates[..n][i]]);
      var all: seq<int> := seq(n + 1, i requires 0 <= i < n + 1 => load[candidates[i]]);
      assert all == before + [load[candidates[n]]];
      SumAppend(before, [load[candidates[n]]]);
      assert Sum([load[candidates[n]]]) == load[candidates[n]] + Sum([]);
    }
  }

  function Ceil(x: real): int {
    -((-x).Floor)
  }

  /** Ceiling of `factor` times the average load after one more request, and at least 1. */
  function ExactBound(factor: real, total: nat, n: nat): nat
    requires n > 0
  {
    Max(1, Ceil(factor * ((total + 1) as real) / (n as real)))
  }

  /** The same after the saturating cast to u32. */
  function Bound(factor: real, total: nat, n: nat): nat
    requires n > 0
  {
    if ExactBound(factor, total, n) >= U32 then U32 - 1 else ExactBound(factor, total, n)
  }

  /** The bound is the least whole number that is at least 1 and at least the scaled average. */
  lemma BoundIs(factor: real, total: nat, n: nat, k: nat)
    requires n > 0 && 1 <= k < U32 - 1
    ensures Bound(factor, total, n) <= k <==> factor * ((total + 1) as real) <= (n as real) * (k as real)
  {
    var x := factor * ((total + 1) as real);
    if ExactBound(factor, total, n) <= k {
      CeilAbove(x / (n as real), k);
      MulBelow(x, n as real, k as real);
    }
    if x <= (n as real) * (k as real) {
      DivBelow(x, n as real, k as real);
      CeilBelow(x / (n as real), k);
    }
  }

  lemma {:induction false} LoadsAtLeast(load: seq<nat>, candidates: seq<nat>, bound: nat)
    requires forall i :: 0 <= i < |candidates| ==> candidates[i] < |load| && load[candidates[i]] >= bound
    ensures Loads(load, candidates) >= |candidates| * bound
  {
    if candidates != [] {
      LoadsAtLeast(load, candidates[..|candidates| - 1], bound);
      assert |candidates| * bound == (|candidates| - 1) * bound + bound;
    }
  }

  /** Some candidate is always below the bound, so the spill never falls back on the primary. */
  lemma SomeoneUnderBound(load: seq<nat>, candidates: seq<nat>, factor: real)
    requires forall i :: 0 <= i < |candidates| ==> candidates[i] < |load|
    requires |candidates| > 1 && factor >= 1.0 && Loads(load, candidates) < U32
    ensures exists i :: 0 <= i < |candidates|
              && load[candidates[i]] < Bound(factor, Loads(load, candidates), |candidates|)
  {
    if !(factor * ((FullestTotal(|candidates|) + 1) as real) > FullestTotal(|candidates|) as real) {
      BelowOne(factor, FullestTotal(|candidates|) as real);
    }
    SomeoneBelow(factor, load, candidates);
  }

  // --------------------------------------- when the fallback would be reached

  function Indices(n: nat): seq<nat> {
    seq(n, i requires 0 <= i < n => i)
  }

  lemma {:induction false} UniformLoads(n: nat, m: nat, k: nat)
    requires m <= n
    ensures Loads(seq(n, i requires 0 <= i < n => k), Indices(m)) == m * k
    decreases m
  {
    if m > 0 {
      assert Indices(m)[..m - 1] == Indices(m - 1);
      UniformLoads(n, m - 1, k);
      assert m * k == (m - 1) * k + k;
    }
  }

  lemma CeilBelow(x: real, k: int)
    requires x <= k as real
    ensures Ceil(x) <= k
  {
  }

  lemma DivBelow(y: real, d: real, r: real)
    requires d > 0.0 && y <= r * d
    ensures y / d <= r
  {
    assert (y / d) * d == y;
  }

  lemma BoundFrom(factor: real, total: nat, n: nat, k: nat)
    requires n > 0 && k >= 1 && factor * ((total + 1) as real) / (n as real) <= k as real
    ensures Bound(factor, total, n) <= k
  {
    CeilBelow(factor * ((total + 1) as real) / (n as real), k);
  }

  lemma RealProduct(n: nat, k: nat, total: nat)
    requires total == n * k
    ensures total as real == (k as real) * (n as real)
  {
  }

  /** The most load the backends can carry evenly: u32 counters sum to less than 2^32. */
  function FullestTotal(n: nat): (total: nat)
    requires n > 0
    ensures total < U32
  {
    EvenFits(n);
    n * ((U32 - 1) / n)
  }

  lemma EvenFits(n: nat)
    requires n > 0
    ensures n * ((U32 - 1) / n) < U32
  {
    var k, r := Divide(U32 - 1, n);
    assert n * k == k * n;
  }

  lemma MulMonotone(a: int, b: int, n: int)
    requires a <= b && n >= 0
    ensures a * n <= b * n
  {
  }

  lemma RealMonotone(a: real, b: real, x: real)
    requires a <= b && x >= 0.0
    ensures a * x <= b * x
  {
  }

  lemma Quotients(bound: nat, k: nat, n: nat)
    requires bound * n < k * n + n
    ensures bound <= k
  {
    if bound >= k + 1 {
      MulMonotone(k + 1, bound, n);
      assert false;
    }
  }

  lemma EvenBelow(n: nat, bound: nat)
    requires n > 0 && n * bound < U32
    ensures n * bound <= FullestTotal(n)
  {
    var k, r := Divide(U32 - 1, n);
    Quotients(bound, k, n);
    MulMonotone(bound, k, n);
  }

  lemma BelowOne(factor: real, total: real)
    requires total >= 0.0 && factor * (total + 1.0) <= total
    ensures factor < 1.0
  {
    if factor >= 1.0 {
      RealMonotone(1.0, factor, total + 1.0);
      assert false;
    }
  }

  /** A factor that is too small for some total is too small for every larger one. */
  lemma WorseHigher(factor: real, low: real, high: real)
    requires 0.0 <= low <= high && factor * (low + 1.0) <= low
    ensures factor * (high + 1.0) <= high
  {
    BelowOne(factor, low);
    RealMonotone(factor, 1.0, high - low);
    assert factor * (high + 1.0) == factor * (low + 1.0) + factor * (high - low);
  }

  lemma CeilAbove(x: real, b: int)
    requires Ceil(x) <= b
    ensures x <= b as real
  {
  }

  lemma MulBelow(y: real, d: real, r: real)
    requires d > 0.0 && y / d <= r
    ensures y <= r * d
  {
    assert (y / d) * d == y;
  }

  lemma NotSaturated(factor: real, n: nat, total: nat)
    requires 1 < n && total < U32 && n * Bound(factor, total, n) <= total
    ensures Bound(factor, total, n) == ExactBound(factor, total, n)
  {
    MulMonotone(2, n, Bound(factor, total, n));
  }

  lemma ExactBoundAbove(factor: real, n: nat, total: nat)
    requires n > 0
    ensures factor * ((total + 1) as real) <= (n * ExactBound(factor, total, n)) as real
  {
    var x, bound := factor * ((total + 1) as real), ExactBound(factor, total, n);
    CeilAbove(x / (n as real), bound);
    MulBelow(x, n as real, bound as real);
    RealProduct(n, bound, n * bound);
  }

  lemma EvenTooHigh(factor: real, total: real, even: real)
    requires 0.0 <= even <= total && factor * (total + 1.0) <= even
    ensures factor * (even + 1.0) <= even
  {
    if factor > 0.0 {
      RealMonotone(even + 1.0, total + 1.0, factor);
    } else {
      RealMonotone(factor, 0.0, even + 1.0);
    }
  }

  /** If everybody can be at the bound, the factor is below what the fullest total asks for. */
  lemma EverybodyAtBound(factor: real, n: nat, total: nat)
    requires 1 < n && total < U32 && n * Bound(factor, total, n) <= total
    ensures factor * ((FullestTotal(n) + 1) as real) <= FullestTotal(n) as real
  {
    NotSaturated(factor, n, total);
    var even := n * Bound(factor, total, n);
    ExactBoundAbove(factor, n, total);
    EvenTooHigh(factor, total as real, even as real);
    EvenBelow(n, Bound(factor, total, n));
    WorseHigher(factor, even as real, FullestTotal(n) as real);
  }

  /** The other way round: that much load, spread evenly, puts everybody at the bound. */
  lemma FullestOverloads(factor: real, n: nat) returns (k: nat)
    requires 1 < n < U32 && factor * ((FullestTotal(n) + 1) as real) <= FullestTotal(n) as real
    ensures n * k == FullestTotal(n) && Bound(factor, n * k, n) <= k
  {
    var r;
    k, r := Divide(U32 - 1, n);
    assert n * k == FullestTotal(n);
    Quotients(1, k, n);
    var total := n * k;
    RealProduct(n, k, total);
    DivBelow(factor * ((total + 1) as real), n as real, k as real);
    BoundFrom(factor, total, n, k);
  }

  /** Under every distribution of load over `n` backends somebody is below the bound. */
  ghost predicate SpillSafe(factor: real, n: nat)
    requires n > 0
  {
    forall load: seq<nat> :: |load| == n && Loads(load, Indices(n)) < U32 ==>
      exists i :: 0 <= i < n && load[i] < Bound(factor, Loads(load, Indices(n)), n)
  }

  lemma SafeAbove(factor: real, n: nat)
    requires 1 < n && factor * ((FullestTotal(n) + 1) as real) > FullestTotal(n) as real
    ensures SpillSafe(factor, n)
  {
    forall load: seq<nat> | |load| == n && Loads(load, Indices(n)) < U32
      ensures exists i :: 0 <= i < n && load[i] < Bound(factor, Loads(load, Indices(n)), n)
    {
      SomeoneBelow(factor, load, Indices(n));
    }
  }

  lemma UnsafeBelow(factor: real, n: nat)
    requires 1 < n < U32 && factor * ((FullestTotal(n) + 1) as real) <= FullestTotal(n) as real
    ensures !SpillSafe(factor, n)
  {
    var k := FullestOverloads(factor, n);
    UniformLoads(n, n, k);
    var load: seq<nat> := seq(n, i requires 0 <= i < n => k);
    assert |load| == n && Loads(load, Indices(n)) == n * k;
  }

  /**
    Exactly when the fallback on the primary is unreachable, for the u32 counters
    and the saturated u32 bound the code computes. Every factor from 1 on is safe;
    the true threshold lies below 1 by less than one part in the fullest total.
  */
  lemma SpillSafeExactly(factor: real, n: nat)
    requires 1 < n < U32
    ensures SpillSafe(factor, n) <==> factor * ((FullestTotal(n) + 1) as real) > FullestTotal(n) as real
    ensures factor >= 1.0 ==> SpillSafe(factor, n)
  {
    if factor * ((FullestTotal(n) + 1) as real) > FullestTotal(n) as real {
      SafeAbove(factor, n);
    } else {
      UnsafeBelow(factor, n);
      BelowOne(factor, FullestTotal(n) as real);
    }
  }

  lemma SomeoneBelow(factor: real, load: seq<nat>, candidates: seq<nat>)
    requires forall i :: 0 <= i < |candidates| ==> candidates[i] < |load|
    requires |candidates| > 1 && Loads(load, candidates) < U32
    requires var full := FullestTotal(|candidates|); factor * ((full + 1) as real) > full as real
    ensures exists i :: 0 <= i < |candidates|
              && load[candidates[i]] < Bound(factor, Loads(load, candidates), |candidates|)
  {
    var n, total := |candidates|, Loads(load, candidates);
    if forall i :: 0 <= i < n ==> load[candidates[i]] >= Bound(factor, total, n) {
      LoadsAtLeast(load, candidates, Bound(factor, total, n));
      EverybodyAtBound(factor, n, total);
      assert false;
    }
  }

  // --------------------------------------------------------------- placements

  /** Index of the first backend in the order that is below the bound, or the length. */
  function FirstUnder(order: seq<nat>, load: seq<nat>, bound: nat): (i: nat)
    requires forall i :: 0 <= i < |order| ==> order[i] < |load|
    ensures i <= |order|
    ensures i < |order| ==> load[order[i]] < bound
    ensures forall j :: 0 <= j < i ==> load[order[j]] >= bound
  {
    if order == [] || load[order[0]] < bound then 0 else 1 + FirstUnder(order[1..], load, bound)
  }

  /** The order tried for a request with a prefix: the chosen backend, then the rest by rank. */
  function PrefixOrder(score: Score, candidates: seq<nat>, load: seq<nat>, factor: real): seq<nat>
    requires candidates != [] && forall i :: 0 <= i < |candidates| ==> candidates[i] < |load|
  {
    RankedSize(score, candidates);
    var ranked := Ranked(score, candidates);
    assert forall i :: 0 <= i < |ranked| ==> ranked[i] in ranked;
    var i := FirstUnder(ranked, load, Bound(factor, Loads(load, candidates), |candidates|));
    var chosen := if i < |ranked| then ranked[i] else ranked[0];
    [chosen] + Keep(ranked, Except(chosen))
  }

  lemma {:induction false} KeepExcept(s: seq<nat>, x: nat)
    requires Distinct(s) && x in s
    ensures multiset(Keep(s, Except(x))) == multiset(s) - multiset{x}
  {
    var before, last := s[..|s| - 1], s[|s| - 1];
    assert s == before + [last];
    if last == x {
      KeepAll(before, x);
    } else {
      KeepExcept(before, x);
      KeepAppend(before, last, Except(x));
    }
  }

  lemma {:induction false} KeepAll(s: seq<nat>, x: nat)
    requires x !in s
    ensures Keep(s, Except(x)) == s
  {
    if s != [] {
      assert s[|s| - 1] in s;
      KeepAll(s[..|s| - 1], x);
    }
  }

  lemma DistinctPermutation(a: seq<nat>, b: seq<nat>)
    requires Distinct(a) && multiset(a) == multiset(b)
    ensures Distinct(b)
  {
    forall i, j | 0 <= i < j < |b|
      ensures b[i] != b[j]
    {
      if b[i] == b[j] {
        assert b == b[..i] + [b[i]] + b[i + 1..j] + [b[j]] + b[j + 1..];
        assert multiset(b)[b[i]] >= 2;
        OnceEach(a, b[i]);
        assert false;
      }
    }
  }

  lemma {:induction false} OnceEach(s: seq<nat>, x: nat)
    requires Distinct(s)
    ensures multiset(s)[x] <= 1
  {
    if s != [] {
      var before := s[..|s| - 1];
      assert s == before + [s[|s| - 1]];
      OnceEach(before, x);
      if x == s[|s| - 1] {
        assert x !in before;
        assert x !in multiset(before);
      }
    }
  }

  /** The search for a backend below the bound always succeeds. */
  lemma SpillFinds(score: Score, candidates: seq<nat>, load: seq<nat>, factor: real)
    requires |candidates| > 1 && factor >= 1.0
    requires forall i :: 0 <= i < |candidates| ==> candidates[i] < |load|
    requires Loads(load, candidates) < U32
    ensures var ranked, bound := Ranked(score, candidates), Bound(factor, Loads(load, candidates), |candidates|);
            && (forall i :: 0 <= i < |ranked| ==> ranked[i] < |load|)
            && FirstUnder(ranked, load, bound) < |ranked|
  {
    var ranked, bound := Ranked(score, candidates), Bound(factor, Loads(load, candidates), |candidates|);
    RankedSize(score, candidates);
    assert forall i :: 0 <= i < |ranked| ==> ranked[i] in ranked;
    SomeoneUnderBound(load, candidates, factor);
    var c :| 0 <= c < |candidates| && load[candidates[c]] < bound;
    assert candidates[c] in ranked;
    var j :| 0 <= j < |ranked| && ranked[j] == candidates[c];
    assert FirstUnder(ranked, load, bound) <= j;
  }

  /** Moving one element of a duplicate-free order to the front permutes it. */
  lemma ToFrontPermutes(order: seq<nat>, i: nat)
    requires Distinct(order) && i < |order|
    ensures multiset([order[i]] + Keep(order, Except(order[i]))) == multiset(order)
  {
    KeepExcept(order, order[i]);
    assert order[i] in multiset(order);
  }

  /** The order is the first under-bound backend of the ranking, then the others by rank. */
  lemma PrefixOrderIs(score: Score, candidates: seq<nat>, load: seq<nat>, factor: real) returns (i: nat)
    requires |candidates| > 1 && factor >= 1.0
    requires forall i :: 0 <= i < |candidates| ==> candidates[i] < |load|
    requires Loads(load, candidates) < U32
    ensures var ranked, bound := Ranked(score, candidates), Bound(factor, Loads(load, candidates), |candidates|);
            && i < |ranked|
            && (forall j :: 0 <= j < |ranked| ==> ranked[j] < |load|)
            && load[ranked[i]] < bound
            && (forall j :: 0 <= j < i ==> load[ranked[j]] >= bound)
            && PrefixOrder(score, candidates, load, factor) == [ranked[i]] + Keep(ranked, Except(ranked[i]))
  {
    SpillFinds(score, candidates, load, factor);
    i := FirstUnder(Ranked(score, candidates), load, Bound(factor, Loads(load, candidates), |candidates|));
  }

  lemma ToFrontShape(ranked: seq<nat>, i: nat, order: seq<nat>)
    requires i < |ranked| && order == [ranked[i]] + Keep(ranked, Except(ranked[i]))
    ensures order != [] && order[0] == ranked[i] && order[1..] == Keep(ranked, Except(order[0]))
  {
  }

  lemma RankedPermutes(score: Score, candidates: seq<nat>)
    requires Distinct(candidates)
    ensures multiset(Ranked(score, candidates)) == multiset(candidates) && Distinct(Ranked(score, candidates))
  {
    SortCorrect(Descending(score), candidates);
    DistinctPermutation(candidates, Ranked(score, candidates));
  }

  /**
    Prefix affinity with bounded load: the first backend tried is the first in
    rendezvous order that is below the bound, its load with this request stays
    within the bound, and every candidate is in the order exactly once.
  */
  lemma PrefixOrderCorrect(score: Score, candidates: seq<nat>, load: seq<nat>, factor: real)
    requires |candidates| > 1 && Distinct(candidates) && factor >= 1.0
    requires forall i :: 0 <= i < |candidates| ==> candidates[i] < |load|
    requires Loads(load, candidates) < U32
    ensures var order, ranked := PrefixOrder(score, candidates, load, factor), Ranked(score, candidates);
            var bound := Bound(factor, Loads(load, candidates), |candidates|);
            && multiset(order) == multiset(candidates)
            && order != [] && order[0] < |load| && load[order[0]] + 1 <= bound
            && (exists k :: 0 <= k < |ranked| && ranked[k] == order[0]
                  && forall j :: 0 <= j < k ==> ranked[j] < |load| && load[ranked[j]] >= bound)
            && order[1..] == Keep(ranked, Except(order[0]))
  {
    var order, ranked := PrefixOrder(score, candidates, load, factor), Ranked(score, candidates);
    var i := PrefixOrderIs(score, candidates, load, factor);
    ToFrontShape(ranked, i, order);
    RankedPermutes(score, candidates);
    ToFrontPermutes(ranked, i);
  }

  lemma EarlierByKey(key: nat -> int, s: seq<nat>, i: nat, x: nat)
    requires Sorted(key, s) && i < |s| && x in s && key(x) < key(s[i])
    ensures exists j :: 0 <= j < i && s[j] == x
  {
    var j :| 0 <= j < |s| && s[j] == x;
  }

  /**
    The same in terms of scores and loads alone: whoever scores higher than the
    first choice is at the bound, and the others follow by falling score.
  */
  lemma PrefixOrderByScore(score: Score, candidates: seq<nat>, load: seq<nat>, factor: real)
    requires |candidates| > 1 && Distinct(candidates) && factor >= 1.0
    requires forall i :: 0 <= i < |candidates| ==> candidates[i] < |load|
    requires Loads(load, candidates) < U32
    ensures var order := PrefixOrder(score, candidates, load, factor);
            && order != []
            && (forall b :: b in candidates && score(b) > score(order[0]) ==>
                  b < |load| && load[b] >= Bound(factor, Loads(load, candidates), |candidates|))
            && forall i, j :: 1 <= i < j < |order| ==> score(order[i]) >= score(order[j])
  {
    var order, ranked := PrefixOrder(score, candidates, load, factor), Ranked(score, candidates);
    var i := PrefixOrderIs(score, candidates, load, factor);
    SortCorrect(Descending(score), candidates);
    forall b | b in candidates && score(b) > score(order[0])
      ensures b < |load| && load[b] >= Bound(factor, Loads(load, candidates), |candidates|)
    {
      SameMembers(candidates, ranked, b);
      EarlierByKey(Descending(score), ranked, i, b);
    }
    ToFrontShape(ranked, i, order);
    KeepSorted(Descending(score), ranked, Except(ranked[i]));
    assert forall j :: 1 <= j < |order| ==> order[j] == order[1..][j - 1];
  }

  lemma {:induction false} KeepSorted(key: nat -> int, s: seq<nat>, keep: nat -> bool)
    requires Sorted(key, s)
    ensures Sorted(key, Keep(s, keep))
  {
    if s != [] {
      var before, last := s[..|s| - 1], s[|s| - 1];
      KeepSorted(key, before, keep);
      KeepMembers(before, keep);
      forall i | 0 <= i < |Keep(before, keep)| ensures key(Keep(before, keep)[i]) <= key(last) {
        var x := Keep(before, keep)[i];
        assert x in before;
        LastIsLargest(key, s, x);
      }
    }
  }

  /** Round robin: the candidates from the cursor's position on, wrapping around. */
  function Rotate(s: seq<nat>, pos: nat): seq<nat>
    requires pos <= |s|
  {
    s[pos..] + s[..pos]
  }

  lemma RotatePermutes(s: seq<nat>, pos: nat)
    requires pos < |s|
    ensures multiset(Rotate(s, pos)) == multiset(s) && Rotate(s, pos)[0] == s[pos]
    ensures forall k :: 0 <= k < |s| ==>
              Rotate(s, pos)[k] == s[if pos + k < |s| then pos + k else pos + k - |s|]
  {
    assert s == s[..pos] + s[pos..];
  }
}
