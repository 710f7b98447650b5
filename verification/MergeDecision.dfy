/**
 From a finished run to the process exit code: the scores, the tests against the baseline run, the gates and
 the error ceiling (packages/evaluation-core/src/proofstep_core/runner.py).
 */
module MergeDecision {
  import opened Common
  import opened Labels
  import opened Reals
  import opened Scores
  import opened Significance
  import opened Holm
  import opened Gates
  import opened Aggregate
  import opened Comparison
  import opened Journal
  import Sessions
  import WorkerPool
  import Runner

  /** What a run is judged by. `corpus` are the metrics computed over the run as a whole; no gates, no verdict. */
  datatype Suite = Suite(
    sliceBy: seq<string>,
    gates: Option<GateSet>,
    corpus: seq<Metric>,
    baseline: seq<Metric>,
    baselineResults: seq<ExampleResult>,
    datasetMatch: bool,
    judges: set<string>,
    calibrations: map<string, Calibration>,
    maxErrorRate: real)

  function ScoredAll(results: seq<ExampleResult>): (r: seq<Scored>)
    ensures |r| == |results| && forall i :: 0 <= i < |r| ==> r[i] == results[i].scored
  {
    seq(|results|, i requires 0 <= i < |results| => results[i].scored)
  }

  // ----------------------------------------------------------------- the tests reaching the gates

  function WantedBy(rules: seq<Rule>): seq<string> {
    if rules == [] then []
    else
      var rule := rules[|rules| - 1];
      WantedBy(rules[..|rules| - 1]) + if rule.NeedsSignificance() then [rule.metricKey] else []
  }

  /** The metrics some rule wants tested, each once, in sorted order. */
  function Wanted(gates: GateSet): (r: seq<string>)
    ensures Distinct(r)
    ensures forall m :: m in r <==> m in WantedBy(gates.rules)
  {
    SortedSet(WantedBy(gates.rules))
  }

  /** A rule wants a test if it sets a significance level or asks for power. */
  lemma {:induction false} WantedAre(rules: seq<Rule>, m: string)
    ensures m in WantedBy(rules) <==>
      exists rule :: rule in rules && rule.metricKey == m && (rule.significance.Some? || rule.requirePower)
  {
    if rules != [] {
      var last := |rules| - 1;
      WantedAre(rules[..last], m);
      assert rules == rules[..last] + [rules[last]];
      assert rules[last] in rules;
    }
  }

  predicate RunsTests(suite: Suite) {
    suite.gates.Some? && suite.baselineResults != [] && Wanted(suite.gates.value) != []
  }

  /** Some wanted test raises. */
  ghost predicate Untestable(suite: Suite, results: seq<ExampleResult>) {
    && RunsTests(suite)
    && exists m :: m in Wanted(suite.gates.value) && TooDiscordant(results, suite.baselineResults, m)
  }

  ghost predicate AreTests(
    suite: Suite, results: seq<ExampleResult>, x: Numerics, tests: map<string, SignificanceResult>)
    requires x.Valid()
  {
    if RunsTests(suite) then IsTested(results, suite.baselineResults, Wanted(suite.gates.value), x, tests)
    else tests == map[]
  }

  /** What the gates are given: the run's own metrics, then those of the corpus evaluators, and the tests. */
  ghost predicate Assembled(suite: Suite, results: seq<ExampleResult>, x: Numerics, inputs: Inputs)
    requires x.Valid()
  {
    && suite.gates == Some(inputs.gates)
    && (exists own ::
      Summarises(own, ScoredAll(results), suite.sliceBy) && inputs.candidate == own + suite.corpus)
    && inputs.baseline == suite.baseline && inputs.datasetMatch == suite.datasetMatch
    && inputs.judges == suite.judges && inputs.calibrations == suite.calibrations
    && AreTests(suite, results, x, inputs.tests)
  }

  // ----------------------------------------------------------------- what a failure on a tested metric means

  lemma FailureIsSignificant(rule: Rule, candidate: Index, baseline: Index, tests: map<string, SignificanceResult>)
    requires rule.significance.Some?
    requires Apply(rule, candidate, baseline, tests) ==
        Yields(GateResult(rule.metricKey, Fail, rule.severity, MaxAbsoluteRegression))
    ensures rule.metricKey in tests && tests[rule.metricKey].IsSignificant(rule.significance.value)
  {
  }

  /** A family of metrics whose tests reached a p-value. */
  ghost predicate Family(tests: map<string, SignificanceResult>, t: set<string>) {
    forall m :: m in t ==> m in tests && tests[m].pValue.Some?
  }

  lemma FamilyTested(
    results: seq<SignificanceResult>, out: seq<SignificanceResult>, tests: map<string, SignificanceResult>,
    t: set<string>)
    requires DistinctMetrics(results) && IsOutcome(results, out) && Keyed(out, tests) && Family(tests, t)
    ensures Tested(results, t)
  {
    hide IsAdjusted;
    OutcomeKeepsMetrics(results, out);
    forall m | m in t
      ensures exists r :: r in results && r.metric == m && r.pValue.Some?
    {
      var k :| 0 <= k < |out| && out[k].metric == m;
      assert Corrected(results, results[k], out[k]);
      assert results[k] in results;
    }
  }

  /**
   A gate with significance alpha fails on an absolute regression only if, for every family of tested metrics
   its own belongs to, the paired test of some member has a raw p-value of at most alpha / family size.
   */
  lemma SignificantFailureIsControlled(
    suite: Suite, results: seq<ExampleResult>, x: Numerics, inputs: Inputs, rule: Rule, t: set<string>)
    requires x.Valid() && Assembled(suite, results, x, inputs)
    requires rule.significance.Some? && rule.significance.value < 1.0
    requires Apply(rule, IndexOf(inputs.candidate), IndexOf(inputs.baseline), inputs.tests) ==
        Yields(GateResult(rule.metricKey, Fail, rule.severity, MaxAbsoluteRegression))
    requires Family(inputs.tests, t) && rule.metricKey in t
    ensures exists m, r ::
      && m in t && Compared(results, suite.baselineResults, m, x, r)
      && r.pValue.Some? && r.pValue.value <= rule.significance.value / |t| as real
  {
    FailureIsSignificant(rule, IndexOf(inputs.candidate), IndexOf(inputs.baseline), inputs.tests);
    hide Apply, IndexOf, Summarises, IsTested, Compared, ComparedEach, Keyed, Tested, Drawable, IsOutcome,
        DistinctMetrics, PValues, Family;
    assert RunsTests(suite);
    var wanted := Wanted(suite.gates.value);
    var tested, out, k := TestOfMetric(results, suite.baselineResults, wanted, x, inputs.tests, rule.metricKey);
    FamilyTested(tested, out, inputs.tests, t);
    OutcomeKeepsPValue(tested, out, k, rule.significance.value);
    HolmControlsFamily(tested, out, t, rule.significance.value, k);
    var i :| Member(tested, i, t) && tested[i].pValue.value <= rule.significance.value / |t| as real;
    EachCompared(results, suite.baselineResults, wanted, x, tested, i);
    ComparedFacts(results, suite.baselineResults, wanted[i], x, tested[i]);
  }

  lemma OutcomeKeepsPValue(
    results: seq<SignificanceResult>, out: seq<SignificanceResult>, k: nat, alpha: real)
    requires IsOutcome(results, out) && k < |results| && out[k].IsSignificant(alpha)
    requires results[k].adjusted == None
    ensures results[k].pValue.Some?
  {
    hide IsAdjusted;
    assert Corrected(results, results[k], out[k]);
  }

  // ----------------------------------------------------------------- the exit code

  /** `gates` is absent when the suite declares none. */
  datatype EvalResult = EvalResult(results: seq<ExampleResult>, cancelled: bool, aborted: bool, gates: Option<Report>)
  {
    function ExitCode(): int {
      if cancelled then 130
      else if aborted then 2
      else if gates.Some? then Gates.ExitCode(gates.value.verdict)
      else 0
    }
  }

  method Tests(suite: Suite, results: seq<ExampleResult>, x: Numerics)
    returns (tests: Fallible<map<string, SignificanceResult>>)
    requires x.Valid() && suite.gates.Some?
    ensures tests.Raises? <==> Untestable(suite, results)
    ensures tests.Yields? ==> AreTests(suite, results, x, tests.value)
  {
    hide IsTested, TooDiscordant, Drawable, Wanted;
    tests := Yields(map[]);
    if suite.baselineResults != [] {
      var wanted := Wanted(suite.gates.value);
      if wanted != [] {
        tests := AnalyseAll(results, suite.baselineResults, wanted, x);
      }
    }
  }

  /** What follows the results of a run: metrics, tests, gates, then the error ceiling. */
  method Conclude(results: seq<ExampleResult>, abortedByBudget: bool, suite: Suite, x: Numerics)
    returns (r: Fallible<EvalResult>, ghost inputs: Inputs)
    requires x.Valid()
    ensures suite.gates.Some? && !Untestable(suite, results) ==> Assembled(suite, results, x, inputs)
    ensures r.Raises? <==>
      && suite.gates.Some?
      && (Untestable(suite, results) || exists rule :: rule in inputs.gates.rules && inputs.RuleRaises(rule))
    ensures r.Yields? ==> r.value.results == results && !r.value.cancelled && r.value.ExitCode() in {0, 1, 2}
    ensures r.Yields? && (abortedByBudget || Runner.CeilingBroken(results, suite.maxErrorRate)) ==>
      r.value.ExitCode() == 2
    ensures r.Yields? ==>
      (r.value.ExitCode() == 0 <==>
        && !abortedByBudget
        && !Runner.CeilingBroken(results, suite.maxErrorRate)
        && (suite.gates.Some? ==> inputs.Clear()))
  {
    hide Runner.CeilingBroken, Summarises, AreTests, Untestable, Drawable, Inputs.Clear, Inputs.RuleRaises;
    var own := AggregateScores(ScoredAll(results), suite.sliceBy);
    var metrics := own + suite.corpus;
    var report: Option<Report> := None;
    inputs := Inputs(GateSet([], false, None), [], [], true, {}, map[], map[]);
    if suite.gates.Some? {
      var tests := Tests(suite, results, x);
      if tests.Raises? {
        return Raises, inputs;
      }
      var given := Inputs(suite.gates.value, metrics, suite.baseline, suite.datasetMatch, suite.judges,
                          suite.calibrations, tests.value);
      inputs := given;
      assert Assembled(suite, results, x, inputs);
      var outcome := EvaluateGates(given);
      if outcome.Raises? {
        return Raises, inputs;
      }
      report := Some(outcome.value);
    }
    var aborted := Runner.CheckErrorCeiling(results, abortedByBudget, suite.maxErrorRate);
    r := Yields(EvalResult(results, false, aborted, report));
  }

  // ----------------------------------------------------------------- what exit code 0 says of the scores

  lemma {:induction false} IndexAppend(a: seq<Metric>, b: seq<Metric>)
    ensures IndexOf(a + b) == IndexOf(a) + IndexOf(b)
  {
    if b == [] {
      assert a + b == a;
    } else {
      var last := |b| - 1;
      IndexAppend(a, b[..last]);
      assert (a + b)[..|a + b| - 1] == a + b[..last];
    }
  }

  lemma {:induction false} IndexHas(metrics: seq<Metric>, key: Key)
    ensures key in IndexOf(metrics) <==> exists m :: m in metrics && KeyOf(m) == key
    ensures key in IndexOf(metrics) ==> IndexOf(metrics)[key] in metrics && KeyOf(IndexOf(metrics)[key]) == key
  {
    hide KeyOf;
    if metrics != [] {
      var last := |metrics| - 1;
      IndexHas(metrics[..last], key);
      IndexLast(metrics);
      hide IndexOf;
      assert forall m :: m in metrics <==> m in metrics[..last] || m == metrics[last];
    }
  }

  lemma IndexLast(metrics: seq<Metric>)
    requires metrics != []
    ensures var m := metrics[|metrics| - 1]; IndexOf(metrics) == IndexOf(metrics[..|metrics| - 1])[KeyOf(m) := m]
  {
  }

  /** The metric the gates see under a key no corpus evaluator reports: the scores in that bucket, if any. */
  ghost function Measured(suite: Suite, results: seq<ExampleResult>, key: Key): Option<Metric> {
    var values := Values(ScoredAll(results), suite.sliceBy, key);
    var errors := Errors(ScoredAll(results), suite.sliceBy, key);
    var mean := if values == [] then 0.0 else Sum(values) / |values| as real;
    if values == [] && errors == 0 then None else Some(Metric(key.0, key.1, mean, |values|, errors))
  }

  lemma GatesSeeScores(suite: Suite, results: seq<ExampleResult>, x: Numerics, inputs: Inputs, key: Key)
    requires x.Valid() && Assembled(suite, results, x, inputs) && key !in IndexOf(suite.corpus)
    ensures Lookup(IndexOf(inputs.candidate), key) == Measured(suite, results, key)
  {
    hide IndexOf, AreTests, Values, Errors, Sum, Drawable;
    var own :| Summarises(own, ScoredAll(results), suite.sliceBy) && inputs.candidate == own + suite.corpus;
    IndexAppend(own, suite.corpus);
    IndexHas(own, key);
  }

  /** The test behind an accepted drop: too weak to call it a regression at alpha, over all metrics tested. */
  ghost predicate Inconclusive(suite: Suite, results: seq<ExampleResult>, x: Numerics, metric: string, alpha: real)
    requires x.Valid()
  {
    && RunsTests(suite)
    && exists r ::
      && Compared(results, suite.baselineResults, metric, x, r)
      && r.pValue.Some? && alpha < Times(|Wanted(suite.gates.value)|, r.pValue.value)
  }

  /** The run could have detected the drop its rule guards against. */
  ghost predicate Detectable(suite: Suite, results: seq<ExampleResult>, x: Numerics, metric: string, guarded: real)
    requires x.Valid()
  {
    && RunsTests(suite)
    && exists r ::
      && Compared(results, suite.baselineResults, metric, x, r)
      && r.minimumDetectableEffect.Some?
      && (r.minimumDetectableEffect.value <= guarded || r.minimumDetectableEffect.value <= -guarded)
  }

  /** What a rule demands, said of the scores themselves. */
  ghost predicate Upheld(suite: Suite, results: seq<ExampleResult>, x: Numerics, rule: Rule)
    requires x.Valid()
  {
    var key, baseline := (rule.metricKey, rule.slice), IndexOf(suite.baseline);
    var values := Values(ScoredAll(results), suite.sliceBy, key);
    var errors := Errors(ScoredAll(results), suite.sliceBy, key);
    && values != []
    && errors as real / (|values| + errors) as real <= rule.maxErrorRate
    && var mean := Sum(values) / |values| as real;
    && (rule.minimum.Some? ==> rule.minimum.value <= mean)
    && (rule.maximum.Some? ==> mean <= rule.maximum.value)
    && (rule.requireBaseline ==> key in baseline)
    && (key in baseline ==>
        var before := baseline[key].value;
        && (rule.requirePower && rule.maxAbsolute.Some? ==>
            Detectable(suite, results, x, rule.metricKey, rule.maxAbsolute.value))
        && if rule.maxAbsolute.Some? && before - mean > rule.maxAbsolute.value then
             rule.significance.Some? && Inconclusive(suite, results, x, rule.metricKey, rule.significance.value)
           else
             rule.maxRelative.Some? ==>
               && (before > 0.0 ==> before - mean <= rule.maxRelative.value * before)
               && (before < 0.0 ==> before - mean <= rule.maxRelative.value * -before))
  }

  lemma ExcusedIsInconclusive(
    suite: Suite, results: seq<ExampleResult>, x: Numerics, inputs: Inputs, rule: Rule)
    requires x.Valid() && Assembled(suite, results, x, inputs)
    requires Excused(rule, Lookup(inputs.tests, rule.metricKey))
    ensures Inconclusive(suite, results, x, rule.metricKey, rule.significance.value)
  {
    hide Summarises, IsTested, Compared, Drawable, Wanted, Times;
    var r := TestStems(results, suite.baselineResults, Wanted(suite.gates.value), x, inputs.tests, rule.metricKey);
  }

  lemma PoweredIsDetectable(
    suite: Suite, results: seq<ExampleResult>, x: Numerics, inputs: Inputs, rule: Rule)
    requires x.Valid() && Assembled(suite, results, x, inputs)
    requires rule.requirePower && rule.maxAbsolute.Some? && Powered(rule, Lookup(inputs.tests, rule.metricKey))
    ensures Detectable(suite, results, x, rule.metricKey, rule.maxAbsolute.value)
  {
    hide Summarises, IsTested, Compared, Drawable, Wanted, Times;
    var r := TestStems(results, suite.baselineResults, Wanted(suite.gates.value), x, inputs.tests, rule.metricKey);
  }

  /** With the gates clear, every blocking rule on an evaluator's metric is upheld by the scores. */
  lemma ClearUpholds(suite: Suite, results: seq<ExampleResult>, x: Numerics, inputs: Inputs, rule: Rule)
    requires x.Valid() && Assembled(suite, results, x, inputs) && inputs.Clear()
    requires rule in inputs.gates.rules && rule.severity.Block?
    requires (rule.metricKey, rule.slice) !in IndexOf(suite.corpus)
    ensures Upheld(suite, results, x, rule)
  {
    hide IndexOf, Values, Errors, Inconclusive, Detectable, AreTests, Summarises, Drawable, Excused, Powered, Trusted;
    var key := (rule.metricKey, rule.slice);
    GatesSeeScores(suite, results, x, inputs, key);
    assert inputs.RulePasses(rule);
    var test := Lookup(inputs.tests, rule.metricKey);
    if key in IndexOf(suite.baseline) {
      if rule.requirePower && rule.maxAbsolute.Some? { PoweredIsDetectable(suite, results, x, inputs, rule); }
      if Excused(rule, test) {
        ExcusedIsInconclusive(suite, results, x, inputs, rule);
        assert rule.significance.Some? by { ExcusedAsked(rule, test); }
      }
    }
  }

  lemma ExcusedAsked(rule: Rule, test: Option<SignificanceResult>)
    requires Excused(rule, test)
    ensures rule.significance.Some?
  {
  }

  // ----------------------------------------------------------------- the whole run

  /** A blocking rule on a metric no corpus evaluator reports. */
  predicate Blocks(suite: Suite, rule: Rule) {
    rule.severity.Block? && (rule.metricKey, rule.slice) !in IndexOf(suite.corpus)
  }

  /** Every blocking rule on an evaluator's metric is upheld by the scores of these results. */
  ghost predicate UpheldAll(suite: Suite, results: seq<ExampleResult>, x: Numerics)
    requires x.Valid()
  {
    suite.gates.Some? ==>
      forall rule :: rule in suite.gates.value.rules && Blocks(suite, rule) ==> Upheld(suite, results, x, rule)
  }

  /**
   The run raises exactly where its journal cannot be read, a test overflows or a gate message cannot be
   formatted. With exit code 0 every example of the dataset has its result, in dataset order, no more of
   them failed than allowed, and the scores uphold every blocking rule.
   */
  method RunSuite(
    dataset: seq<string>, config: WorkerPool.Config, concurrency: int, resume: Option<File>, file: File,
    task: string -> ExampleResult, suite: Suite, x: Numerics)
    returns (r: Fallible<EvalResult>, ghost es: seq<WorkerPool.Event>, ghost f: Runner.Finish, ghost inputs: Inputs)
    requires Distinct(dataset) && (forall id :: task(id).id == id) && x.Valid()
    ensures Runner.Resumable(resume) ==> Runner.Runs(dataset, config, concurrency, resume, file, task, es, f)
    ensures Runner.Resumable(resume) && suite.gates.Some? && !Untestable(suite, f.results) ==>
      Assembled(suite, f.results, x, inputs)
    ensures r.Raises? <==>
      || !Runner.Resumable(resume)
      || (&& suite.gates.Some?
          && (Untestable(suite, f.results) || exists rule :: rule in inputs.gates.rules && inputs.RuleRaises(rule)))
    ensures r.Yields? ==>
      r.value.results == f.results && DistinctResults(f.results) && r.value.ExitCode() in {0, 1, 2}
    ensures r.Yields? && (f.aborted || Runner.CeilingBroken(f.results, suite.maxErrorRate)) ==> r.value.ExitCode() == 2
    ensures r.Yields? ==>
      (r.value.ExitCode() == 0 <==>
        && !f.aborted
        && !Runner.CeilingBroken(f.results, suite.maxErrorRate)
        && (suite.gates.Some? ==> inputs.Clear()))
    ensures r.Yields? && !f.aborted ==>
      r.value.results == Runner.Report(dataset, Runner.Completed(resume), task)
    ensures r.Yields? && f.aborted && (forall id :: 0.0 <= task(id).judgeCost) ==>
      && config.limit.Some?
      && config.limit.value <= Runner.CostOf(Sessions.Pending(dataset, Runner.Completed(resume)), task)
    ensures r.Yields? && r.value.ExitCode() == 0 ==>
      && r.value.results == Runner.Report(dataset, Runner.Completed(resume), task)
      && !Runner.CeilingBroken(r.value.results, suite.maxErrorRate)
      && UpheldAll(suite, r.value.results, x)
  {
    hide Runner.CeilingBroken, Runner.Runs, Runner.Report, DistinctResults, Runner.Completed, Runner.Resumable,
        Runner.CostOf, Sessions.Pending, Untestable, Assembled, Upheld, Drawable, Inputs.RuleRaises, Inputs.Clear;
    inputs := Inputs(GateSet([], false, None), [], [], true, {}, map[], map[]);
    var finish;
    finish, es := Runner.RunExamples(dataset, config, concurrency, resume, file, task);
    f := Runner.Finish([], false, []);
    if finish.Raises? {
      return Raises, es, f, inputs;
    }
    f := finish.value;
    r, inputs := Conclude(finish.value.results, finish.value.aborted, suite, x);
    if r.Yields? && r.value.ExitCode() == 0 && suite.gates.Some? {
      ClearUpholdsAll(suite, f.results, x, inputs);
    }
  }

  lemma ClearUpholdsAll(suite: Suite, results: seq<ExampleResult>, x: Numerics, inputs: Inputs)
    requires x.Valid() && Assembled(suite, results, x, inputs) && inputs.Clear()
    ensures UpheldAll(suite, results, x)
  {
    hide IndexOf, Upheld, Drawable, Summarises, AreTests, Inputs.Clear;
    forall rule | rule in suite.gates.value.rules && Blocks(suite, rule)
      ensures Upheld(suite, results, x, rule)
    {
      ClearUpholds(suite, results, x, inputs, rule);
    }
  }
}
