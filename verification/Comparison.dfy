/**
 Two runs compared metric by metric, and the correction across the metrics
 (packages/evaluation-core/src/proofstep_core/significance.py).
 */
module Comparison {
  import opened Common
  import opened Reals
  import opened Labels
  import opened McNemar
  import opened Significance
  import opened Pairing
  import opened Holm
  import opened Journal

  /** What the tests take from numeric code outside this model. */
  datatype Numerics = Numerics(effect: seq<real> -> real, draws: nat -> seq<seq<nat>>)
  {
    ghost predicate Valid() {
      Drawable(draws)
    }
  }

  /** r is the test of the metric on the examples both runs measured. */
  ghost predicate Compared(
    candidate: seq<ExampleResult>, baseline: seq<ExampleResult>, metric: string, x: Numerics, r: SignificanceResult)
    requires x.Valid()
  {
    exists p ::
      IsPairing(p, candidate, baseline, metric) && IsAnalysis(p.ScoresFor(metric), x.effect, x.draws, r)
  }

  /** More of the paired verdicts changed than the exact test can divide by. */
  ghost predicate TooDiscordant(candidate: seq<ExampleResult>, baseline: seq<ExampleResult>, metric: string) {
    exists p :: IsPairing(p, candidate, baseline, metric) && Overflows(p.ScoresFor(metric))
  }

  ghost predicate ComparedEach(
    candidate: seq<ExampleResult>, baseline: seq<ExampleResult>, metrics: seq<string>, x: Numerics,
    results: seq<SignificanceResult>)
    requires x.Valid()
  {
    && |results| <= |metrics|
    && forall i :: 0 <= i < |results| ==> Compared(candidate, baseline, metrics[i], x, results[i])
  }

  /** The last corrected test of each metric, under its name. */
  ghost predicate Keyed(out: seq<SignificanceResult>, tests: map<string, SignificanceResult>) {
    KeyedUpTo(out, |out|, tests)
  }

  /** The keys are the metrics of the first n results, and each leads to the last of them. */
  ghost predicate KeyedUpTo(out: seq<SignificanceResult>, n: nat, tests: map<string, SignificanceResult>)
    requires n <= |out|
  {
    && (forall m :: m in tests <==> exists k :: 0 <= k < n && out[k].metric == m)
    && forall k :: 0 <= k < n && (forall j :: k < j < n ==> out[j].metric != out[k].metric) ==>
      out[k].metric in tests && tests[out[k].metric] == out[k]
  }

  ghost predicate IsTested(
    candidate: seq<ExampleResult>, baseline: seq<ExampleResult>, metrics: seq<string>, x: Numerics,
    tests: map<string, SignificanceResult>)
    requires x.Valid()
  {
    exists results, out ::
      && |results| == |metrics| && ComparedEach(candidate, baseline, metrics, x, results)
      && CorrectedAll(results, out) && Keyed(out, tests)
  }

  method AnalyseAll(
    candidate: seq<ExampleResult>, baseline: seq<ExampleResult>, metrics: seq<string>, x: Numerics)
    returns (tests: Fallible<map<string, SignificanceResult>>)
    requires x.Valid()
    ensures tests.Raises? <==> exists m :: m in metrics && TooDiscordant(candidate, baseline, m)
    ensures tests.Yields? ==> IsTested(candidate, baseline, metrics, x, tests.value)
  {
    hide IsPairing, IsAnalysis, Overflows, CorrectedAll, Drawable, Compared, TooDiscordant;
    var results: seq<SignificanceResult> := [];
    for i := 0 to |metrics|
      invariant |results| == i && ComparedEach(candidate, baseline, metrics, x, results)
      invariant forall k :: 0 <= k < i ==> !TooDiscordant(candidate, baseline, metrics[k])
    {
      var r := Compare(candidate, baseline, metrics[i], x);
      if r.Raises? {
        assert metrics[i] in metrics;
        return Raises;
      }
      results := results + [r.value];
    }
    TestsHavePValues(candidate, baseline, metrics, x, results);
    var adjusted := HolmAdjust(results);
    var byMetric := KeyByMetric(adjusted);
    tests := Yields(byMetric);
  }

  /** One round of the loop: match the runs, then test. */
  method Compare(candidate: seq<ExampleResult>, baseline: seq<ExampleResult>, metric: string, x: Numerics)
    returns (r: Fallible<SignificanceResult>)
    requires x.Valid()
    ensures r.Raises? <==> TooDiscordant(candidate, baseline, metric)
    ensures r.Yields? ==> Compared(candidate, baseline, metric, x, r.value)
  {
    hide IsAnalysis, Overflows, Drawable;
    var p := Pair(candidate, baseline, metric);
    r := Analyse(p.ScoresFor(metric), x.effect, x.draws);
    if r.Yields? && TooDiscordant(candidate, baseline, metric) {
      var q :| IsPairing(q, candidate, baseline, metric) && Overflows(q.ScoresFor(metric));
      PairIsUnique(p, q, candidate, baseline, metric);
      assert false;
    }
  }

  method KeyByMetric(out: seq<SignificanceResult>) returns (tests: map<string, SignificanceResult>)
    ensures Keyed(out, tests)
  {
    tests := map[];
    for i := 0 to |out|
      invariant KeyedUpTo(out, i, tests)
    {
      KeyedNext(out, i, tests);
      tests := tests[out[i].metric := out[i]];
    }
  }

  lemma KeyedNext(out: seq<SignificanceResult>, i: nat, tests: map<string, SignificanceResult>)
    requires i < |out| && KeyedUpTo(out, i, tests)
    ensures KeyedUpTo(out, i + 1, tests[out[i].metric := out[i]])
  {
    var after := tests[out[i].metric := out[i]];
    forall k | 0 <= k <= i && (forall j :: k < j <= i ==> out[j].metric != out[k].metric)
      ensures out[k].metric in after && after[out[k].metric] == out[k]
    {
      if k < i { assert out[i].metric != out[k].metric; }
    }
  }

  lemma ComparedFacts(
    candidate: seq<ExampleResult>, baseline: seq<ExampleResult>, metric: string, x: Numerics, r: SignificanceResult)
    requires x.Valid() && Compared(candidate, baseline, metric, x, r)
    ensures r.metric == metric && r.adjusted == None
    ensures r.pValue.Some? ==> 0.0 < r.pValue.value <= 1.0
  {
  }

  lemma TestsHavePValues(
    candidate: seq<ExampleResult>, baseline: seq<ExampleResult>, metrics: seq<string>, x: Numerics,
    results: seq<SignificanceResult>)
    requires x.Valid() && ComparedEach(candidate, baseline, metrics, x, results)
    ensures PValues(results)
    ensures forall i :: 0 <= i < |results| ==> results[i].metric == metrics[i] && results[i].adjusted == None
    ensures forall r :: r in results && r.pValue.Some? ==> 0.0 < r.pValue.value <= 1.0
  {
    hide Compared, Drawable;
    forall i | 0 <= i < |results|
      ensures results[i].metric == metrics[i] && results[i].adjusted == None
      ensures results[i].pValue.Some? ==> 0.0 < results[i].pValue.value <= 1.0
    {
      ComparedFacts(candidate, baseline, metrics[i], x, results[i]);
    }
  }

  // ----------------------------------------------------------------- what a corrected test says of its p-value

  lemma {:induction false} TestableCount(results: seq<SignificanceResult>)
    ensures |Testable(results)| <= |results|
  {
    if results != [] { TestableCount(results[..|results| - 1]); }
  }

  lemma OutcomeKeepsMetrics(results: seq<SignificanceResult>, out: seq<SignificanceResult>)
    requires DistinctMetrics(results) && IsOutcome(results, out)
    ensures DistinctMetrics(out)
    ensures forall i :: 0 <= i < |results| ==> out[i].metric == results[i].metric
  {
    hide IsAdjusted;
    forall i | 0 <= i < |results|
      ensures out[i].metric == results[i].metric
    {
      assert Corrected(results, results[i], out[i]);
    }
  }

  /** With distinct metrics, a test found under a metric is the corrected test of that metric. */
  lemma TestOfMetric(
    candidate: seq<ExampleResult>, baseline: seq<ExampleResult>, metrics: seq<string>, x: Numerics,
    tests: map<string, SignificanceResult>, metric: string)
    returns (results: seq<SignificanceResult>, out: seq<SignificanceResult>, k: nat)
    requires x.Valid() && Distinct(metrics) && IsTested(candidate, baseline, metrics, x, tests) && metric in tests
    ensures |results| == |out| == |metrics| && ComparedEach(candidate, baseline, metrics, x, results)
    ensures DistinctMetrics(results) && PValues(results) && IsOutcome(results, out) && Keyed(out, tests)
    ensures k < |results| && results[k].metric == metric == metrics[k] && tests[metric] == out[k]
  {
    hide ComparedEach, CorrectedAll, IsOutcome, Drawable, CorrectedByMetric;
    results, out :|
      && |results| == |metrics| && ComparedEach(candidate, baseline, metrics, x, results)
      && CorrectedAll(results, out) && Keyed(out, tests);
    TestsHavePValues(candidate, baseline, metrics, x, results);
    assert DistinctMetrics(results);
    DistinctOutcome(results, out);
    OutcomeKeepsMetrics(results, out);
    assert |out| == |results| by { OutcomeLength(results, out); }
    k :| 0 <= k < |out| && out[k].metric == metric;
  }

  lemma OutcomeLength(results: seq<SignificanceResult>, out: seq<SignificanceResult>)
    requires CorrectedAll(results, out)
    ensures |out| == |results|
  {
  }

  /** A corrected test is the test of its metric; its adjusted p-value is at most the metrics times its own. */
  lemma TestStems(
    candidate: seq<ExampleResult>, baseline: seq<ExampleResult>, metrics: seq<string>, x: Numerics,
    tests: map<string, SignificanceResult>, metric: string)
    returns (r: SignificanceResult)
    requires x.Valid() && Distinct(metrics) && IsTested(candidate, baseline, metrics, x, tests) && metric in tests
    ensures Compared(candidate, baseline, metric, x, r) && metric in metrics
    ensures var test := tests[metric];
      && test == r.(adjusted := test.adjusted)
      && (test.adjusted.Some? <==> r.pValue.Some?)
      && (r.pValue.Some? ==> test.adjusted.value <= Times(|metrics|, r.pValue.value))
  {
    hide Compared, ComparedEach, Drawable, IsTested, IsAdjusted, Testable, Capped, Keyed, PValues, DistinctMetrics,
        AllNonNegative;
    var results, out, k := TestOfMetric(candidate, baseline, metrics, x, tests, metric);
    r := results[k];
    EachCompared(candidate, baseline, metrics, x, results, k);
    ComparedFacts(candidate, baseline, metric, x, r);
    assert Corrected(results, r, out[k]);
    if r.pValue.Some? {
      var ps, a := EffectiveAll(Testable(results)), out[k].adjusted.value;
      TestableIn(results);
      assert r in results;
      var j :| 0 <= j < |Testable(results)| && Testable(results)[j] == r;
      assert ps[j] == EffectiveOf(r) == r.pValue.value;
      EffectiveNonNegative(results);
      AdjustedBounds(ps, r.pValue.value, a, r.pValue.value, a);
      TestableCount(results);
      CappedBelow(|ps|, |metrics|, r.pValue.value);
    }
  }

  lemma EachCompared(
    candidate: seq<ExampleResult>, baseline: seq<ExampleResult>, metrics: seq<string>, x: Numerics,
    results: seq<SignificanceResult>, k: nat)
    requires x.Valid() && ComparedEach(candidate, baseline, metrics, x, results) && k < |results|
    ensures Compared(candidate, baseline, metrics[k], x, results[k])
  {
  }

  lemma EffectiveNonNegative(results: seq<SignificanceResult>)
    requires PValues(results)
    ensures AllNonNegative(EffectiveAll(Testable(results)))
  {
    TestableIn(results);
  }

  lemma CappedBelow(count: nat, total: nat, p: real)
    requires count <= total && p >= 0.0
    ensures Capped(count, p) <= Times(total, p)
  {
  }

  // ----------------------------------------------------------------- which way a test leans

  /** The example got worse: read in both runs, lower in the candidate. */
  ghost predicate Worse(candidate: seq<ExampleResult>, baseline: seq<ExampleResult>, metric: string, id: string) {
    var after, before := ReadingOf(candidate, metric, id), ReadingOf(baseline, metric, id);
    after.Some? && before.Some? && after.value < before.value
  }

  /** Every example read in both runs got worse. */
  ghost predicate AllGotWorse(candidate: seq<ExampleResult>, baseline: seq<ExampleResult>, metric: string) {
    forall id :: ReadingOf(candidate, metric, id).Some? && ReadingOf(baseline, metric, id).Some? ==>
      Worse(candidate, baseline, metric, id)
  }

  ghost predicate NoneGotWorse(candidate: seq<ExampleResult>, baseline: seq<ExampleResult>, metric: string) {
    forall id :: !Worse(candidate, baseline, metric, id)
  }

  /**
   A test that ran: if every example read in both runs got worse its p-value is the least there is, 1 / 2^n
   for n verdicts and 1 / (resamples + 1) otherwise; if none got worse it is 1.
   */
  lemma TestLeans(
    candidate: seq<ExampleResult>, baseline: seq<ExampleResult>, metric: string, x: Numerics, r: SignificanceResult)
    requires x.Valid() && Compared(candidate, baseline, metric, x, r) && r.pValue.Some?
    ensures AllGotWorse(candidate, baseline, metric) ==>
      r.pValue.value == 1.0 / (if r.test.McNemarTest? then Pow2(r.nPairs) else |x.draws(r.nPairs)| + 1) as real
    ensures NoneGotWorse(candidate, baseline, metric) ==> r.pValue.value == 1.0
  {
    var p := PairingOf(candidate, baseline, metric, x, r);
    hide *;
    PairsLean(p, candidate, baseline, metric);
    AnalysisCounts(p.ScoresFor(metric), x.effect, x.draws, r);
    PairedTestLeans(p.ScoresFor(metric), x.effect, x.draws, r);
  }

  lemma PairingOf(
    candidate: seq<ExampleResult>, baseline: seq<ExampleResult>, metric: string, x: Numerics, r: SignificanceResult)
    returns (p: Pairs)
    requires x.Valid() && Compared(candidate, baseline, metric, x, r)
    ensures IsPairing(p, candidate, baseline, metric) && p.ScoresFor(metric).Valid() && Drawable(x.draws)
    ensures IsAnalysis(p.ScoresFor(metric), x.effect, x.draws, r)
  {
    p :| IsPairing(p, candidate, baseline, metric) && IsAnalysis(p.ScoresFor(metric), x.effect, x.draws, r);
  }

  lemma PairsLean(p: Pairs, candidate: seq<ExampleResult>, baseline: seq<ExampleResult>, metric: string)
    requires IsPairing(p, candidate, baseline, metric)
    ensures AllGotWorse(candidate, baseline, metric) ==> AllWorse(p.ScoresFor(metric))
    ensures NoneGotWorse(candidate, baseline, metric) ==> NoneWorse(p.ScoresFor(metric))
  {
    forall i | 0 <= i < |p.shared|
      ensures Worse(candidate, baseline, metric, p.shared[i]) <==> p.candidate[i] < p.baseline[i]
      ensures ReadingOf(candidate, metric, p.shared[i]).Some? && ReadingOf(baseline, metric, p.shared[i]).Some?
    {
      assert p.shared[i] in p.shared;
    }
  }
}
