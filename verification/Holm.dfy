/**
 Holm's step-down correction (packages/evaluation-core/src/proofstep_core/significance.py) against
 an order-free definition, and the guarantee it exists for.
 */
module Holm {
  import opened Common
  import opened Reals
  import opened Sorting
  import opened Significance

  /** The p-value the correction works with. The source writes `p or 1.0`, which turns 0 into 1. */
  function Effective(p: real): real {
    if p == 0.0 then 1.0 else p
  }

  function EffectiveOf(r: SignificanceResult): real {
    if r.pValue.Some? then Effective(r.pValue.value) else 1.0
  }

  /** The tests that produced a p-value. */
  function Testable(results: seq<SignificanceResult>): (t: seq<SignificanceResult>)
    ensures forall r :: r in t ==> r.pValue.Some?
  {
    if results == [] then []
    else
      var last := |results| - 1;
      Testable(results[..last]) + if results[last].pValue.Some? then [results[last]] else []
  }

  ghost predicate PValues(results: seq<SignificanceResult>) {
    forall r :: r in results && r.pValue.Some? ==> r.pValue.value >= 0.0
  }

  ghost predicate DistinctMetrics(results: seq<SignificanceResult>) {
    forall i, j :: 0 <= i < j < |results| ==> results[i].metric != results[j].metric
  }

  // ----------------------------------------------------------------- the order-free definition

  /** How many of the p-values are at least p. */
  ghost function AtLeast(ps: seq<real>, p: real): nat {
    if ps == [] then 0 else AtLeast(ps[..|ps| - 1], p) + if ps[|ps| - 1] >= p then 1 else 0
  }

  /** min(1, count * p) */
  function Capped(count: nat, p: real): real {
    MinReal(1.0, count as real * p)
  }

  /** p times the number of p-values not below it, at most 1. */
  ghost function StepDown(ps: seq<real>, p: real): real {
    Capped(AtLeast(ps, p), p)
  }

  /** a is the largest capped step-down product over the p-values up to p. */
  ghost predicate IsAdjusted(ps: seq<real>, p: real, a: real) {
    && (forall y :: y in ps && y <= p ==> StepDown(ps, y) <= a)
    && exists y :: y in ps && y <= p && StepDown(ps, y) == a
  }

  ghost function EffectiveAll(rs: seq<SignificanceResult>): (ps: seq<real>)
    ensures |ps| == |rs|
  {
    seq(|rs|, i requires 0 <= i < |rs| => EffectiveOf(rs[i]))
  }

  // ----------------------------------------------------------------- counting

  lemma {:induction false} AtLeastSorted(ps: seq<real>, j: nat)
    requires j < |ps| && forall i, k :: 0 <= i < k < |ps| ==> ps[i] <= ps[k]
    ensures AtLeast(ps, ps[j]) >= |ps| - j
    ensures (forall i :: 0 <= i < j ==> ps[i] < ps[j]) ==> AtLeast(ps, ps[j]) == |ps| - j
  {
    var last := |ps| - 1;
    if j < last {
      AtLeastSorted(ps[..last], j);
    } else if forall i :: 0 <= i < j ==> ps[i] < ps[j] {
      NoneAtLeast(ps[..last], ps[j]);
    }
  }

  lemma {:induction false} NoneAtLeast(ps: seq<real>, p: real)
    requires forall i :: 0 <= i < |ps| ==> ps[i] < p
    ensures AtLeast(ps, p) == 0
  {
    if ps != [] { NoneAtLeast(ps[..|ps| - 1], p); }
  }

  lemma {:induction false} AtLeastWithout(ps: seq<real>, i: nat, p: real)
    requires i < |ps|
    ensures AtLeast(ps, p) == AtLeast(ps[..i] + ps[i + 1..], p) + if ps[i] >= p then 1 else 0
  {
    var last := |ps| - 1;
    if i == last {
      assert ps[..i] + ps[i + 1..] == ps[..last];
    } else {
      AtLeastWithout(ps[..last], i, p);
      WithoutShape(ps, i);
    }
  }

  lemma {:induction false} AtLeastOrderFree(a: seq<real>, b: seq<real>, p: real)
    requires multiset(a) == multiset(b)
    ensures AtLeast(a, p) == AtLeast(b, p)
  {
    if a == [] {
      assert |multiset(b)| == 0;
    } else {
      var i := MatchLast(a, b);
      AtLeastWithout(b, i, p);
      AtLeastOrderFree(a[..|a| - 1], b[..i] + b[i + 1..], p);
    }
  }

  /** The adjusted value depends on the p-values as a collection, not on their order. */
  lemma AdjustedOrderFree(a: seq<real>, b: seq<real>, p: real, v: real)
    requires multiset(a) == multiset(b)
    ensures IsAdjusted(a, p, v) <==> IsAdjusted(b, p, v)
  {
    forall y
      ensures StepDown(a, y) == StepDown(b, y)
      ensures y in a <==> y in b
    {
      AtLeastOrderFree(a, b, y);
      assert y in a <==> y in multiset(a);
      assert y in b <==> y in multiset(b);
    }
  }

  // ----------------------------------------------------------------- the loop

  ghost predicate Ascending(ps: seq<real>) {
    forall i, k :: 0 <= i < k < |ps| ==> ps[i] <= ps[k]
  }

  function Stepped(m: nat, index: nat, p: real): real
    requires index <= m
  {
    Capped(m - index, p)
  }

  /** What `running` holds after the first i p-values in ascending order. */
  ghost predicate Running(ps: seq<real>, i: nat, running: real)
    requires i <= |ps|
  {
    && (forall j :: 0 <= j < i ==> Stepped(|ps|, j, ps[j]) <= running)
    && (i > 0 ==> exists j :: 0 <= j < i && Stepped(|ps|, j, ps[j]) == running)
    && (i == 0 ==> running == 0.0)
  }

  lemma FirstOf(ps: seq<real>, j: nat) returns (k: nat)
    requires Ascending(ps) && j < |ps|
    ensures k <= j && ps[k] == ps[j] && forall i :: 0 <= i < k ==> ps[i] < ps[j]
  {
    k := j;
    while k > 0 && ps[k - 1] == ps[j]
      invariant k <= j && ps[k] == ps[j]
    {
      k := k - 1;
    }
    forall i | 0 <= i < k
      ensures ps[i] < ps[j]
    {
      assert ps[i] <= ps[k - 1] <= ps[k];
    }
  }

  lemma MoreTests(a: nat, b: nat, p: real)
    requires a <= b && p >= 0.0
    ensures 0.0 <= Capped(a, p) <= Capped(b, p)
  {
    NonNegativeProduct(a as real, p);
    NonNegativeProduct((b - a) as real, p);
    assert b as real * p - a as real * p == (b - a) as real * p;
  }

  ghost predicate AllNonNegative(ps: seq<real>) {
    forall k :: 0 <= k < |ps| ==> ps[k] >= 0.0
  }

  lemma RunningBounds(ps: seq<real>, i: nat, running: real, y: real)
    requires Ascending(ps) && i < |ps| && Running(ps, i + 1, running)
    requires y in ps && y <= ps[i]
    ensures StepDown(ps, y) <= running
  {
    hide Capped;
    var j :| 0 <= j < |ps| && ps[j] == y;
    var k := FirstOf(ps, j);
    assert k <= i;
    AtLeastSorted(ps, k);
    assert Stepped(|ps|, k, ps[k]) == StepDown(ps, y);
  }

  /** The running maximum at a position is the order-free adjusted value of the p-value there. */
  lemma RunningIsAdjusted(ps: seq<real>, i: nat, running: real)
    requires Ascending(ps) && i < |ps| && Running(ps, i + 1, running)
    requires AllNonNegative(ps)
    ensures IsAdjusted(ps, ps[i], running)
  {
    hide Capped, StepDown;
    forall y | y in ps && y <= ps[i]
      ensures StepDown(ps, y) <= running
    {
      RunningBounds(ps, i, running, y);
    }
    var j :| 0 <= j < i + 1 && Stepped(|ps|, j, ps[j]) == running;
    assert ps[j] in ps && ps[j] <= ps[i];
    StepReached(ps, j);
  }

  lemma StepReached(ps: seq<real>, j: nat)
    requires Ascending(ps) && j < |ps| && AllNonNegative(ps)
    ensures StepDown(ps, ps[j]) >= Stepped(|ps|, j, ps[j])
  {
    AtLeastSorted(ps, j);
    MoreTests(|ps| - j, AtLeast(ps, ps[j]), ps[j]);
  }

  lemma RunningStep(ps: seq<real>, i: nat, running: real)
    requires i < |ps| && Running(ps, i, running)
    requires AllNonNegative(ps)
    ensures Running(ps, i + 1, MaxReal(running, Stepped(|ps|, i, ps[i])))
  {
    var value := Stepped(|ps|, i, ps[i]);
    MoreTests(|ps| - i, |ps| - i, ps[i]);
    hide Capped;
    if i > 0 && running > value {
      var j :| 0 <= j < i && Stepped(|ps|, j, ps[j]) == running;
    }
  }

  function ByEffective(): (SignificanceResult, SignificanceResult) -> bool {
    (a, b) => EffectiveOf(a) <= EffectiveOf(b)
  }

  function WithAdjusted(r: SignificanceResult, adjusted: map<string, real>): SignificanceResult {
    if r.metric in adjusted then r.(adjusted := Some(adjusted[r.metric])) else r
  }

  /** The corrected result of one test, whatever order the set came in. */
  ghost predicate Corrected(results: seq<SignificanceResult>, r: SignificanceResult, out: SignificanceResult) {
    if r.pValue.None? then out == r
    else
      && out.adjusted.Some?
      && out == r.(adjusted := out.adjusted)
      && IsAdjusted(EffectiveAll(Testable(results)), EffectiveOf(r), out.adjusted.value)
  }

  /** p is the largest p-value among the tests of that metric. */
  ghost predicate IsLargest(tests: seq<SignificanceResult>, metric: string, p: real) {
    && (exists r :: r in tests && r.metric == metric && EffectiveOf(r) == p)
    && forall r :: r in tests && r.metric == metric ==> EffectiveOf(r) <= p
  }

  ghost predicate HasTest(tests: seq<SignificanceResult>, metric: string) {
    exists r :: r in tests && r.metric == metric
  }

  /** Results that share a metric share the value of its largest p-value; a metric without a test keeps its results. */
  ghost predicate CorrectedByMetric(results: seq<SignificanceResult>, r: SignificanceResult, out: SignificanceResult) {
    var tests := Testable(results);
    if !HasTest(tests, r.metric) then out == r
    else
      && out.adjusted.Some?
      && out == r.(adjusted := out.adjusted)
      && exists p :: IsLargest(tests, r.metric, p) && IsAdjusted(EffectiveAll(tests), p, out.adjusted.value)
  }

  ghost predicate CorrectedAll(results: seq<SignificanceResult>, out: seq<SignificanceResult>) {
    |out| == |results| && forall i :: 0 <= i < |results| ==> CorrectedByMetric(results, results[i], out[i])
  }

  method HolmAdjust(results: seq<SignificanceResult>) returns (out: seq<SignificanceResult>)
    requires PValues(results)
    ensures CorrectedAll(results, out)
    ensures DistinctMetrics(results) ==> IsOutcome(results, out)
  {
    hide CorrectedByMetric, Corrected, DistinctMetrics, Adjusted, Ascending, AllNonNegative, EffectiveAll, EffectiveOf,
        Testable, StableSort, ByEffective, PValues;
    var testable := Testable(results);
    TestableSorted(results);
    out := results;
    if |testable| == 0 {
      UntestedStay(results);
    } else {
      var order := StableSort(testable, ByEffective());
      var adjusted := AdjustAll(order);
      out := seq(|results|, i requires 0 <= i < |results| => WithAdjusted(results[i], adjusted));
      forall i | 0 <= i < |results|
        ensures CorrectedByMetric(results, results[i], out[i])
      {
        ResultCorrected(results, order, adjusted, i);
      }
    }
    if DistinctMetrics(results) { DistinctOutcome(results, out); }
  }

  lemma UntestedStay(results: seq<SignificanceResult>)
    requires Testable(results) == []
    ensures forall i :: 0 <= i < |results| ==> CorrectedByMetric(results, results[i], results[i])
  {
  }

  lemma DistinctCorrected(results: seq<SignificanceResult>, i: nat, out: SignificanceResult)
    requires DistinctMetrics(results) && i < |results| && CorrectedByMetric(results, results[i], out)
    ensures Corrected(results, results[i], out)
  {
    hide IsAdjusted, EffectiveOf, EffectiveAll;
    var r, tests := results[i], Testable(results);
    TestableIn(results);
    assert r in results;
    forall t | t in tests && t.metric == r.metric
      ensures t == r
    {
      var j :| 0 <= j < |results| && results[j] == t;
    }
    if r.pValue.Some? { assert r in tests && HasTest(tests, r.metric); }
  }

  lemma DistinctOutcome(results: seq<SignificanceResult>, out: seq<SignificanceResult>)
    requires DistinctMetrics(results) && CorrectedAll(results, out)
    ensures IsOutcome(results, out)
  {
    hide CorrectedByMetric, Corrected, DistinctMetrics;
    forall i | 0 <= i < |results|
      ensures Corrected(results, results[i], out[i])
    {
      DistinctCorrected(results, i, out[i]);
    }
  }

  /** k is the last of the first upTo tests with that metric. */
  ghost predicate LastOf(order: seq<SignificanceResult>, upTo: nat, metric: string, k: int)
    requires upTo <= |order|
  {
    0 <= k < upTo && order[k].metric == metric && forall j :: k < j < upTo ==> order[j].metric != metric
  }

  /** Every metric met so far has the value adjusted for its last test, and nothing else has one. */
  ghost predicate Adjusted(order: seq<SignificanceResult>, upTo: nat, adjusted: map<string, real>)
    requires upTo <= |order|
  {
    && (forall k :: 0 <= k < upTo ==> order[k].metric in adjusted)
    && forall x :: x in adjusted ==>
      exists k :: LastOf(order, upTo, x, k) && IsAdjusted(EffectiveAll(order), EffectiveOf(order[k]), adjusted[x])
  }

  lemma AdjustedNext(order: seq<SignificanceResult>, index: nat, adjusted: map<string, real>, value: real)
    requires index < |order| && Adjusted(order, index, adjusted)
    requires IsAdjusted(EffectiveAll(order), EffectiveOf(order[index]), value)
    ensures Adjusted(order, index + 1, adjusted[order[index].metric := value])
  {
    hide IsAdjusted, EffectiveAll, EffectiveOf;
    var after := adjusted[order[index].metric := value];
    forall x | x in after
      ensures exists k ::
        LastOf(order, index + 1, x, k) && IsAdjusted(EffectiveAll(order), EffectiveOf(order[k]), after[x])
    {
      if x == order[index].metric {
        assert LastOf(order, index + 1, x, index);
      } else {
        var k :| LastOf(order, index, x, k) && IsAdjusted(EffectiveAll(order), EffectiveOf(order[k]), adjusted[x]);
        assert LastOf(order, index + 1, x, k);
      }
    }
  }

  /** The loop over the tests in ascending order; a later test of the same metric replaces an earlier one. */
  method AdjustAll(order: seq<SignificanceResult>) returns (adjusted: map<string, real>)
    requires Ascending(EffectiveAll(order)) && AllNonNegative(EffectiveAll(order))
    ensures Adjusted(order, |order|, adjusted)
  {
    hide IsAdjusted, Capped, Ascending, AllNonNegative, EffectiveOf, LastOf;
    var m := |order|;
    ghost var ps := EffectiveAll(order);
    adjusted := map[];
    var running := 0.0;
    for index := 0 to m
      invariant Running(ps, index, running)
      invariant Adjusted(order, index, adjusted)
    {
      RunningStep(ps, index, running);
      running := MaxReal(running, Stepped(m, index, EffectiveOf(order[index])));
      RunningIsAdjusted(ps, index, running);
      AdjustedNext(order, index, adjusted, running);
      adjusted := adjusted[order[index].metric := running];
    }
  }

  lemma {:induction false} TestableIn(results: seq<SignificanceResult>)
    ensures forall r :: r in Testable(results) <==> r in results && r.pValue.Some?
    ensures DistinctMetrics(results) ==> DistinctMetrics(Testable(results))
  {
    if results != [] {
      var last := |results| - 1;
      assert results == results[..last] + [results[last]];
      TestableIn(results[..last]);
      if DistinctMetrics(results) {
        forall r | r in Testable(results[..last])
          ensures r.metric != results[last].metric
        {
          assert r in results[..last];
        }
      }
    }
  }

  /** The tests with a p-value, in ascending order. */
  lemma TestableSorted(results: seq<SignificanceResult>)
    requires PValues(results)
    ensures var testable, order := Testable(results), StableSort(Testable(results), ByEffective());
      && (forall r :: r in order <==> r in testable)
      && Ascending(EffectiveAll(order))
      && AllNonNegative(EffectiveAll(order))
      && multiset(EffectiveAll(order)) == multiset(EffectiveAll(testable))
  {
    var testable, order := Testable(results), StableSort(Testable(results), ByEffective());
    TestableIn(results);
    assert PValues(testable);
    assert TotalPreorder(ByEffective());
    SortSorts(testable, ByEffective());
    SortMembers(testable, ByEffective());
    hide EffectiveOf, TotalPreorder, ByEffective, StableSort, Testable;
    MappedMultiset(order, testable);
    EffectiveOrder(order);
  }

  lemma EffectiveOrder(order: seq<SignificanceResult>)
    requires SortedBy(order, ByEffective()) && PValues(order)
    ensures Ascending(EffectiveAll(order)) && AllNonNegative(EffectiveAll(order))
  {
    forall i, j | 0 <= i < j < |order|
      ensures EffectiveAll(order)[i] <= EffectiveAll(order)[j]
    {
      assert ByEffective()(order[i], order[j]);
    }
    forall k | 0 <= k < |order|
      ensures EffectiveAll(order)[k] >= 0.0
    {
      assert order[k] in order;
    }
  }

  lemma {:induction false} MappedMultiset(a: seq<SignificanceResult>, b: seq<SignificanceResult>)
    requires multiset(a) == multiset(b)
    ensures multiset(EffectiveAll(a)) == multiset(EffectiveAll(b))
  {
    if a == [] {
      assert |multiset(b)| == 0;
    } else {
      hide EffectiveOf;
      var last := |a| - 1;
      var i := MatchLast(a, b);
      var rest := b[..i] + b[i + 1..];
      MappedMultiset(a[..last], rest);
      assert EffectiveAll(a) == EffectiveAll(a[..last]) + [EffectiveOf(a[last])];
      assert EffectiveAll(b) == EffectiveAll(b[..i]) + [EffectiveOf(b[i])] + EffectiveAll(b[i + 1..]);
      assert EffectiveAll(rest) == EffectiveAll(b[..i]) + EffectiveAll(b[i + 1..]);
    }
  }

  lemma ResultCorrected(
    results: seq<SignificanceResult>, order: seq<SignificanceResult>, adjusted: map<string, real>, i: nat)
    requires i < |results| && Ascending(EffectiveAll(order))
    requires forall r :: r in order <==> r in Testable(results)
    requires multiset(EffectiveAll(order)) == multiset(EffectiveAll(Testable(results)))
    requires Adjusted(order, |order|, adjusted)
    ensures CorrectedByMetric(results, results[i], WithAdjusted(results[i], adjusted))
  {
    hide IsAdjusted, EffectiveOf;
    var r, tests := results[i], Testable(results);
    if r.metric in adjusted {
      var k :| LastOf(order, |order|, r.metric, k) &&
          IsAdjusted(EffectiveAll(order), EffectiveOf(order[k]), adjusted[r.metric]);
      assert order[k] in tests;
      LastIsLargest(order, r.metric, k);
      assert IsLargest(tests, r.metric, EffectiveOf(order[k]));
      AdjustedOrderFree(EffectiveAll(order), EffectiveAll(tests), EffectiveOf(order[k]), adjusted[r.metric]);
    } else {
      forall t | t in tests
        ensures t.metric != r.metric
      {
        var k :| 0 <= k < |order| && order[k] == t;
      }
    }
  }

  lemma LastIsLargest(order: seq<SignificanceResult>, metric: string, k: int)
    requires Ascending(EffectiveAll(order)) && LastOf(order, |order|, metric, k)
    ensures forall t :: t in order && t.metric == metric ==> EffectiveOf(t) <= EffectiveOf(order[k])
  {
    hide EffectiveOf;
    forall t | t in order && t.metric == metric
      ensures EffectiveOf(t) <= EffectiveOf(order[k])
    {
      var j :| 0 <= j < |order| && order[j] == t;
      assert EffectiveAll(order)[j] == EffectiveOf(t) && EffectiveAll(order)[k] == EffectiveOf(order[k]);
    }
  }

  // ----------------------------------------------------------------- what the correction guarantees

  ghost predicate IsOutcome(results: seq<SignificanceResult>, out: seq<SignificanceResult>) {
    |out| == |results| && forall i :: 0 <= i < |results| ==> Corrected(results, results[i], out[i])
  }

  /** An adjusted value is at most alpha exactly when every step-down product up to it is. */
  lemma AdjustedAtMostIff(ps: seq<real>, p: real, a: real, alpha: real)
    requires IsAdjusted(ps, p, a)
    ensures a <= alpha <==> forall y :: y in ps && y <= p ==> StepDown(ps, y) <= alpha
  {
    var y :| y in ps && y <= p && StepDown(ps, y) == a;
  }

  /** Adjusting keeps the order of the p-values, never lowers one below itself, and is never worse than Bonferroni. */
  lemma AdjustedBounds(ps: seq<real>, p: real, a: real, q: real, b: real)
    requires AllNonNegative(ps) && p in ps && IsAdjusted(ps, p, a)
    ensures MinReal(1.0, p) <= a <= Capped(|ps|, p)
    ensures IsAdjusted(ps, q, b) && p <= q ==> a <= b
  {
    var y :| y in ps && y <= p && StepDown(ps, y) == a;
    var i :| 0 <= i < |ps| && ps[i] == p;
    var j :| 0 <= j < |ps| && ps[j] == y;
    AtLeastWithout(ps, i, p);
    MoreTests(1, AtLeast(ps, p), p);
    AtLeastBound(ps, y);
    MoreTests(AtLeast(ps, y), |ps|, y);
    LargerValue(|ps|, y, p);
    assert 1.0 * p == p;
    hide Capped;
    assert StepDown(ps, p) <= a;
  }

  lemma {:induction false} AtLeastBound(ps: seq<real>, p: real)
    ensures AtLeast(ps, p) <= |ps|
  {
    if ps != [] { AtLeastBound(ps[..|ps| - 1], p); }
  }

  lemma LargerValue(n: nat, y: real, p: real)
    requires 0.0 <= y <= p
    ensures Capped(n, y) <= Capped(n, p)
  {
    NonNegativeProduct(n as real, p - y);
    assert n as real * (p - y) == n as real * p - n as real * y;
  }

  /** How often x is among the tests of one result. */
  ghost function TestOf(r: SignificanceResult, x: SignificanceResult): nat {
    if r.pValue.Some? && r == x then 1 else 0
  }

  ghost function TestCount(b: seq<SignificanceResult>, x: SignificanceResult): nat {
    multiset(Testable(b))[x]
  }

  lemma TestCountLast(b: seq<SignificanceResult>, x: SignificanceResult)
    requires b != []
    ensures TestCount(b, x) == TestCount(b[..|b| - 1], x) + TestOf(b[|b| - 1], x)
  {
  }

  lemma {:induction false} TestCountWithout(b: seq<SignificanceResult>, i: nat, x: SignificanceResult)
    requires i < |b|
    ensures TestCount(b, x) == TestCount(b[..i] + b[i + 1..], x) + TestOf(b[i], x)
  {
    hide TestCount, TestOf;
    var last, rest := |b| - 1, b[..i] + b[i + 1..];
    TestCountLast(b, x);
    if i == last {
      assert rest == b[..last];
    } else {
      TestCountWithout(b[..last], i, x);
      WithoutShape(b, i);
      TestCountLast(rest, x);
    }
  }

  lemma {:induction false} TestCountOrderFree(
    a: seq<SignificanceResult>, b: seq<SignificanceResult>, x: SignificanceResult)
    requires multiset(a) == multiset(b)
    ensures TestCount(a, x) == TestCount(b, x)
  {
    if a == [] {
      assert |multiset(b)| == 0;
    } else {
      hide TestCount, TestOf;
      var i := MatchLast(a, b);
      TestCountOrderFree(a[..|a| - 1], b[..i] + b[i + 1..], x);
      TestCountLast(a, x);
      TestCountWithout(b, i, x);
    }
  }

  lemma TestableOrderFree(a: seq<SignificanceResult>, b: seq<SignificanceResult>)
    requires multiset(a) == multiset(b)
    ensures multiset(Testable(a)) == multiset(Testable(b))
  {
    forall x
      ensures multiset(Testable(a))[x] == multiset(Testable(b))[x]
    {
      TestCountOrderFree(a, b, x);
    }
  }

  /** The same tests in any other order, ties included, get the same corrected results. */
  lemma CorrectionOrderFree(
    a: seq<SignificanceResult>, b: seq<SignificanceResult>, r: SignificanceResult, x: SignificanceResult,
    y: SignificanceResult)
    requires multiset(a) == multiset(b)
    requires Corrected(a, r, x) && Corrected(b, r, y)
    ensures x == y
  {
    if r.pValue.Some? {
      TestableOrderFree(a, b);
      MappedMultiset(Testable(a), Testable(b));
      AdjustedOrderFree(EffectiveAll(Testable(a)), EffectiveAll(Testable(b)), EffectiveOf(r), y.adjusted.value);
    }
  }

  ghost predicate Member(results: seq<SignificanceResult>, i: int, t: set<string>) {
    0 <= i < |results| && results[i].pValue.Some? && results[i].metric in t
  }

  /** t names tests of the set that produced a p-value. */
  ghost predicate Tested(results: seq<SignificanceResult>, t: set<string>) {
    forall x :: x in t ==> exists r :: r in results && r.metric == x && r.pValue.Some?
  }

  /** If every member of t has an effective p-value of at least p, then at least |t| of all tests do. */
  lemma {:induction false} FamilyCounted(rs: seq<SignificanceResult>, t: set<string>, p: real)
    requires DistinctMetrics(rs)
    requires forall x :: x in t ==> exists r :: r in rs && r.metric == x
    requires forall r :: r in rs && r.metric in t ==> EffectiveOf(r) >= p
    ensures AtLeast(EffectiveAll(rs), p) >= |t|
    decreases |rs|
  {
    if rs == [] {
      assert t == {};
    } else {
      hide EffectiveOf, EffectiveAll, AtLeast;
      var last := |rs| - 1;
      var before, m := rs[..last], rs[last].metric;
      assert rs == before + [rs[last]];
      EffectiveCounted(rs, p);
      assert DistinctMetrics(before);
      FamilyCounted(before, t - {m}, p);
      hide DistinctMetrics;
      assert rs[last] in rs;
      assert |t| <= |t - {m}| + if m in t then 1 else 0;
    }
  }

  lemma EffectiveCounted(rs: seq<SignificanceResult>, p: real)
    requires rs != []
    ensures var before, r := rs[..|rs| - 1], rs[|rs| - 1];
      AtLeast(EffectiveAll(rs), p) == AtLeast(EffectiveAll(before), p) + if EffectiveOf(r) >= p then 1 else 0
  {
    hide EffectiveOf;
    assert EffectiveAll(rs)[..|rs| - 1] == EffectiveAll(rs[..|rs| - 1]);
  }

  /** The member of t with the smallest effective p-value. */
  lemma {:induction false} Smallest(rs: seq<SignificanceResult>, t: set<string>) returns (i: int)
    requires exists r :: r in rs && r.metric in t
    ensures 0 <= i < |rs| && rs[i].metric in t
    ensures forall r :: r in rs && r.metric in t ==> EffectiveOf(rs[i]) <= EffectiveOf(r)
  {
    hide EffectiveOf;
    var last := |rs| - 1;
    assert rs == rs[..last] + [rs[last]];
    if exists r :: r in rs[..last] && r.metric in t {
      i := Smallest(rs[..last], t);
      if rs[last].metric in t && EffectiveOf(rs[last]) < EffectiveOf(rs[i]) { i := last; }
    } else {
      i := last;
    }
  }

  lemma CappedBelowOne(n: nat, p: real, alpha: real)
    requires n > 0 && Capped(n, p) <= alpha < 1.0
    ensures p <= alpha / n as real
  {
    QuotientOrder(alpha, n as real, p);
  }

  /**
   Family-wise control, for any dependence between the tests: whenever some member of a family t is
   declared significant at alpha, some member of t had a raw p-value of at most alpha / |t|.
   */
  lemma HolmControlsFamily(
    results: seq<SignificanceResult>, out: seq<SignificanceResult>, t: set<string>, alpha: real, i: nat)
    requires DistinctMetrics(results) && PValues(results) && IsOutcome(results, out)
    requires Tested(results, t) && alpha < 1.0
    requires Member(results, i, t) && out[i].IsSignificant(alpha)
    ensures exists k :: Member(results, k, t) && results[k].pValue.value <= alpha / |t| as real
  {
    assert Corrected(results, results[i], out[i]);
    var rs := Testable(results);
    TestableIn(results);
    assert results[i] in results && results[i] in rs;
    var j := Smallest(rs, t);
    assert rs[j] in rs && rs[j] in results;
    var k :| 0 <= k < |results| && results[k] == rs[j];
    assert Member(results, k, t);
    forall x | x in t
      ensures exists r :: r in rs && r.metric == x
    {
      var r :| r in results && r.metric == x && r.pValue.Some?;
      assert r in rs;
    }
    var p, ps := EffectiveOf(rs[j]), EffectiveAll(rs);
    assert ps[j] == p && p in ps;
    FamilyCounted(rs, t, p);
    assert StepDown(ps, p) <= alpha;
    MoreTests(|t|, AtLeast(ps, p), p);
    CappedBelowOne(|t|, p, alpha);
    ShareBelow(alpha, |t|);
    assert p < 1.0;
  }

  lemma ShareBelow(alpha: real, n: nat)
    requires n > 0 && alpha < 1.0
    ensures alpha / n as real < 1.0
  {
    QuotientOrder(alpha, n as real, 1.0);
    assert alpha / n as real * n as real == alpha;
  }

  // ----------------------------------------------------------------- a p-value of zero

  /** The p-values as textbook Holm would use them. */
  ghost function RawAll(rs: seq<SignificanceResult>): (ps: seq<real>)
    requires forall r :: r in rs ==> r.pValue.Some?
    ensures |ps| == |rs|
  {
    seq(|rs|, i requires 0 <= i < |rs| => rs[i].pValue.value)
  }

  ghost predicate NoZero(results: seq<SignificanceResult>) {
    forall r :: r in results ==> r.pValue != Some(0.0)
  }

  /** Every result gets the value textbook Holm gives it. */
  ghost predicate Textbook(results: seq<SignificanceResult>, out: seq<SignificanceResult>)
    requires |out| == |results|
  {
    forall i :: 0 <= i < |results| && results[i].pValue.Some? ==>
      out[i].adjusted.Some? && IsAdjusted(RawAll(Testable(results)), results[i].pValue.value, out[i].adjusted.value)
  }

  /** The fallback for an absent p-value also catches 0, the strongest evidence there is, and reports it as 1. */
  lemma ZeroBecomesOne(results: seq<SignificanceResult>, out: seq<SignificanceResult>, i: nat)
    requires PValues(results) && IsOutcome(results, out)
    requires i < |results| && results[i].pValue == Some(0.0)
    ensures out[i].adjusted == Some(1.0)
  {
    hide Capped, IsAdjusted, StepDown, AtLeast, PValues;
    assert Corrected(results, results[i], out[i]);
    TestableIn(results);
    var rs := Testable(results);
    assert results[i] in rs;
    var j :| 0 <= j < |rs| && rs[j] == results[i];
    assert EffectiveAll(rs)[j] == 1.0;
    OneStaysOne(EffectiveAll(rs), j, out[i].adjusted.value);
  }

  lemma OneStaysOne(ps: seq<real>, j: nat, a: real)
    requires j < |ps| && ps[j] == 1.0 && IsAdjusted(ps, 1.0, a)
    ensures a == 1.0
  {
    AtLeastWithout(ps, j, 1.0);
    MoreTests(1, AtLeast(ps, 1.0), 1.0);
    assert Capped(1, 1.0) == 1.0;
    hide Capped;
    assert StepDown(ps, 1.0) <= a;
    var y :| y in ps && y <= 1.0 && StepDown(ps, y) == a;
  }

  /** The correction is textbook Holm exactly when no p-value is zero. */
  lemma TextbookIffNoZero(results: seq<SignificanceResult>, out: seq<SignificanceResult>)
    requires PValues(results) && IsOutcome(results, out)
    ensures Textbook(results, out) <==> NoZero(results)
  {
    TestableIn(results);
    var rs := Testable(results);
    if NoZero(results) {
      assert EffectiveAll(rs) == RawAll(rs) by {
        forall k | 0 <= k < |rs|
          ensures EffectiveAll(rs)[k] == RawAll(rs)[k]
        {
          assert rs[k] in rs;
        }
      }
      forall i | 0 <= i < |results| && results[i].pValue.Some?
        ensures out[i].adjusted.Some? && IsAdjusted(RawAll(rs), results[i].pValue.value, out[i].adjusted.value)
      {
        assert Corrected(results, results[i], out[i]);
        assert results[i] in results;
      }
    } else {
      var r :| r in results && r.pValue == Some(0.0);
      var i :| 0 <= i < |results| && results[i] == r;
      ZeroBecomesOne(results, out, i);
      forall k | 0 <= k < |rs|
        ensures RawAll(rs)[k] >= 0.0
      {
        assert rs[k] in rs;
      }
      ZeroStaysZero(RawAll(rs));
    }
  }

  lemma ZeroStaysZero(ps: seq<real>)
    requires AllNonNegative(ps)
    ensures !IsAdjusted(ps, 0.0, 1.0)
  {
    forall y | y in ps && y <= 0.0
      ensures StepDown(ps, y) == 0.0
    {
      assert y == 0.0;
      assert AtLeast(ps, 0.0) as real * 0.0 == 0.0;
    }
  }

  /** What Analyse reports is never zero, so the fallback is never taken on its results. */
  lemma AnalysedIsTextbook(results: seq<SignificanceResult>, out: seq<SignificanceResult>)
    requires forall r :: r in results && r.pValue.Some? ==> 0.0 < r.pValue.value <= 1.0
    requires IsOutcome(results, out)
    ensures PValues(results) && NoZero(results) && Textbook(results, out)
  {
    assert PValues(results);
    TextbookIffNoZero(results, out);
  }
}
