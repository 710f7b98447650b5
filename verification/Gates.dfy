/** The gate engine: metrics into a merge decision (packages/evaluation-core/src/proofstep_core/gates.py). */
module Gates {
  import opened Common
  import opened Reals
  import opened Labels
  import opened Scores
  import opened Significance

  datatype Severity = Block | Warn

  datatype Verdict = Pass | Warning | Fail | Error

  /** Which clause of the engine produced a result. */
  datatype Clause =
    | MetricMissing | NoData | ErrorRate | Minimum | Maximum
    | BaselineMissing | NoBaseline | Regression | Threshold
    | PowerUnknown | Underpowered | SignificanceUnavailable | NotSignificant
    | MaxAbsoluteRegression | MaxRelativeRegression
    | UncalibratedJudge | StaleCalibration | CalibrationRequirement | Calibrated
    | RequireDatasetMatch

  datatype Metric = Metric(key: string, slice: Slice, value: real, count: nat, errorCount: nat)
  {
    function ErrorRate(): real {
      if count + errorCount == 0 then 0.0 else errorCount as real / (count + errorCount) as real
    }
  }

  datatype Rule = Rule(
    metricKey: string,
    slice: Slice,
    minimum: Option<real>,
    maximum: Option<real>,
    maxAbsolute: Option<real>,
    maxRelative: Option<real>,
    severity: Severity,
    requireBaseline: bool,
    maxErrorRate: real,
    significance: Option<real>,
    requirePower: bool)
  {
    predicate NeedsBaseline() {
      maxAbsolute.Some? || maxRelative.Some?
    }

    predicate NeedsSignificance() {
      significance.Some? || requirePower
    }
  }

  datatype GateResult = GateResult(metricKey: string, verdict: Verdict, severity: Severity, clause: Clause)
  {
    predicate Blocking() {
      severity.Block?
    }
  }

  type Index = map<(string, Slice), Metric>

  /** Later metrics with the same key and slice replace earlier ones. */
  function IndexOf(metrics: seq<Metric>): Index {
    if metrics == [] then map[]
    else
      var m := metrics[|metrics| - 1];
      IndexOf(metrics[..|metrics| - 1])[(m.key, m.slice) := m]
  }

  // ----------------------------------------------------------------- one rule

  function Result(rule: Rule, verdict: Verdict, clause: Clause): Fallible<GateResult> {
    Yields(GateResult(rule.metricKey, verdict, rule.severity, clause))
  }

  function Abs(x: real): real {
    if x < 0.0 then -x else x
  }

  function CheckPower(rule: Rule, test: Option<SignificanceResult>): Option<Clause> {
    if !rule.requirePower || rule.maxAbsolute.None? then None
    else if test.None? || test.value.minimumDetectableEffect.None? then Some(PowerUnknown)
    else if test.value.minimumDetectableEffect.value > Abs(rule.maxAbsolute.value) then Some(Underpowered)
    else None
  }

  /**
   What to say about a regression beyond the threshold when the rule asked for a test. Formatting the
   message about a p-value raises if there is none.
   */
  function ExplainedByNoise(rule: Rule, test: Option<SignificanceResult>, drop: real): Option<Fallible<GateResult>> {
    if rule.significance.None? || rule.maxAbsolute.None? || drop <= rule.maxAbsolute.value then None
    else if test.None? then Some(Result(rule, Error, SignificanceUnavailable))
    else if test.value.IsSignificant(rule.significance.value) then None
    else if test.value.adjusted.None? && test.value.pValue.None? then Some(Raises)
    else Some(Result(rule, Pass, NotSignificant))
  }

  function CheckRegression(
    rule: Rule, metric: Metric, base: Metric, test: Option<SignificanceResult>): Option<Fallible<GateResult>> {
    var drop := base.value - metric.value;
    var power := CheckPower(rule, test);
    var noise := ExplainedByNoise(rule, test, drop);
    if power.Some? then Some(Result(rule, Error, power.value))
    else if noise.Some? then noise
    else if rule.maxAbsolute.Some? && drop > rule.maxAbsolute.value then Some(Result(rule, Fail, MaxAbsoluteRegression))
    else if rule.maxRelative.Some? && base.value != 0.0 && drop / Abs(base.value) > rule.maxRelative.value then
      Some(Result(rule, Fail, MaxRelativeRegression))
    else None
  }

  function Lookup<K, V>(m: map<K, V>, key: K): Option<V> {
    if key in m then Some(m[key]) else None
  }

  function Apply(
    rule: Rule, candidate: Index, baseline: Index, tests: map<string, SignificanceResult>): Fallible<GateResult> {
    var found := Lookup(candidate, (rule.metricKey, rule.slice));
    if found.None? then Result(rule, Error, MetricMissing)
    else
      var metric := found.value;
      if metric.count == 0 then Result(rule, Error, NoData)
      else if metric.ErrorRate() > rule.maxErrorRate then Result(rule, Error, ErrorRate)
      else if rule.minimum.Some? && metric.value < rule.minimum.value then Result(rule, Fail, Minimum)
      else if rule.maximum.Some? && metric.value > rule.maximum.value then Result(rule, Fail, Maximum)
      else if rule.NeedsBaseline() || rule.requireBaseline then
        var base := Lookup(baseline, (rule.metricKey, rule.slice));
        if base.None? then
          if rule.requireBaseline then Result(rule, Error, BaselineMissing) else Result(rule, Pass, NoBaseline)
        else
          var regression := CheckRegression(rule, metric, base.value, Lookup(tests, rule.metricKey));
          if regression.Some? then regression.value else Result(rule, Pass, Regression)
      else Result(rule, Pass, Threshold)
  }

  // ----------------------------------------------------------------- what a pass means

  /** The metric was measured and is within the rule's bounds. */
  predicate MeetsThresholds(rule: Rule, metric: Metric) {
    && metric.count > 0
    && metric.ErrorRate() <= rule.maxErrorRate
    && (rule.minimum.Some? ==> rule.minimum.value <= metric.value)
    && (rule.maximum.Some? ==> metric.value <= rule.maximum.value)
  }

  predicate Powered(rule: Rule, test: Option<SignificanceResult>) {
    rule.requirePower && rule.maxAbsolute.Some? ==>
      test.Some? && test.value.minimumDetectableEffect.Some?
      && var least, guarded := test.value.minimumDetectableEffect.value, rule.maxAbsolute.value;
      least <= guarded || least <= -guarded
  }

  predicate BreaksAbsolute(rule: Rule, drop: real) {
    rule.maxAbsolute.Some? && drop > rule.maxAbsolute.value
  }

  /** A drop by more than the allowed share of the baseline, whichever its sign. */
  predicate BreaksRelative(rule: Rule, base: real, drop: real) {
    && rule.maxRelative.Some?
    && ((base > 0.0 && drop > rule.maxRelative.value * base) || (base < 0.0 && drop > rule.maxRelative.value * -base))
  }

  lemma RelativeShare(rule: Rule, base: real, drop: real)
    ensures rule.maxRelative.Some? && base != 0.0 ==>
      (drop / Abs(base) > rule.maxRelative.value <==> BreaksRelative(rule, base, drop))
    ensures BreaksRelative(rule, base, drop) ==> base != 0.0
  {
    if rule.maxRelative.Some? && base != 0.0 { QuotientOrder(drop, Abs(base), rule.maxRelative.value); }
  }

  /** The rule opted in, a test ran and has a p-value, and it does not call the drop significant. */
  predicate Excused(rule: Rule, test: Option<SignificanceResult>) {
    && rule.significance.Some? && test.Some?
    && (test.value.adjusted.Some? || test.value.pValue.Some?)
    && !test.value.IsSignificant(rule.significance.value)
  }

  /** A rule that opted in needs a test to fail on a broken absolute threshold. */
  predicate HoldsAgainst(rule: Rule, metric: Metric, base: Metric, test: Option<SignificanceResult>) {
    var drop := base.value - metric.value;
    && Powered(rule, test)
    && if BreaksAbsolute(rule, drop) then Excused(rule, test) else !BreaksRelative(rule, base.value, drop)
  }

  predicate Acceptable(rule: Rule, candidate: Index, baseline: Index, tests: map<string, SignificanceResult>) {
    var key := (rule.metricKey, rule.slice);
    && key in candidate
    && MeetsThresholds(rule, candidate[key])
    && (rule.requireBaseline ==> key in baseline)
    && ((rule.maxAbsolute.Some? || rule.maxRelative.Some?) && key in baseline ==>
        HoldsAgainst(rule, candidate[key], baseline[key], Lookup(tests, rule.metricKey)))
  }

  /** A finding about the baseline is the same said with the quotient or with the product. */
  lemma RelativeOf(rule: Rule, candidate: Index, baseline: Index)
    ensures var key := (rule.metricKey, rule.slice);
      key in candidate && key in baseline && rule.maxRelative.Some? && baseline[key].value != 0.0 ==>
        var base, drop := baseline[key].value, baseline[key].value - candidate[key].value;
        (drop / Abs(base) > rule.maxRelative.value <==> BreaksRelative(rule, base, drop))
  {
    var key := (rule.metricKey, rule.slice);
    if key in candidate && key in baseline {
      RelativeShare(rule, baseline[key].value, baseline[key].value - candidate[key].value);
    }
  }

  /** A rule passes exactly when its conditions hold. */
  lemma PassIffAcceptable(rule: Rule, candidate: Index, baseline: Index, tests: map<string, SignificanceResult>)
    ensures var r := Apply(rule, candidate, baseline, tests);
      (r.Yields? && r.value.verdict.Pass?) <==> Acceptable(rule, candidate, baseline, tests)
  {
    RelativeOf(rule, candidate, baseline);
  }

  /** The verdict of a rule is never a warning, and carries the rule's own severity. */
  lemma ApplyKeepsSeverity(rule: Rule, candidate: Index, baseline: Index, tests: map<string, SignificanceResult>)
    ensures var r := Apply(rule, candidate, baseline, tests);
      r.Yields? ==>
        r.value.metricKey == rule.metricKey && r.value.severity == rule.severity && !r.value.verdict.Warning?
  {
  }

  /** A rule fails, rather than errors, exactly on a measured value beyond a threshold that nothing excuses. */
  predicate Violated(rule: Rule, candidate: Index, baseline: Index, tests: map<string, SignificanceResult>) {
    var key := (rule.metricKey, rule.slice);
    && key in candidate
    && var metric := candidate[key];
    && metric.count > 0 && metric.ErrorRate() <= rule.maxErrorRate
    && (!MeetsThresholds(rule, metric) ||
        ((rule.maxAbsolute.Some? || rule.maxRelative.Some?) && key in baseline &&
            RegressionFails(rule, metric, baseline[key], Lookup(tests, rule.metricKey))))
  }

  predicate RegressionFails(rule: Rule, metric: Metric, base: Metric, test: Option<SignificanceResult>) {
    var drop := base.value - metric.value;
    && Powered(rule, test)
    && if BreaksAbsolute(rule, drop) then
         rule.significance.Some? ==> test.Some? && test.value.IsSignificant(rule.significance.value)
       else BreaksRelative(rule, base.value, drop)
  }

  lemma FailIffViolated(rule: Rule, candidate: Index, baseline: Index, tests: map<string, SignificanceResult>)
    ensures var r := Apply(rule, candidate, baseline, tests);
      (r.Yields? && r.value.verdict.Fail?) <==> Violated(rule, candidate, baseline, tests)
  {
    RelativeOf(rule, candidate, baseline);
  }

  /** The rule reaches the noise message with a test that has no p-value. */
  predicate Undecidable(rule: Rule, candidate: Index, baseline: Index, tests: map<string, SignificanceResult>) {
    var key := (rule.metricKey, rule.slice);
    && key in candidate && MeetsThresholds(rule, candidate[key]) && key in baseline
    && rule.significance.Some? && BreaksAbsolute(rule, baseline[key].value - candidate[key].value)
    && rule.metricKey in tests && tests[rule.metricKey].pValue.None? && tests[rule.metricKey].adjusted.None?
    && Powered(rule, Some(tests[rule.metricKey]))
  }

  /** Instead of the error an untested rule should get, the run raises, in exactly this case. */
  lemma RaisesIff(rule: Rule, candidate: Index, baseline: Index, tests: map<string, SignificanceResult>)
    ensures Apply(rule, candidate, baseline, tests).Raises? <==> Undecidable(rule, candidate, baseline, tests)
  {
  }

  /** It happens: a drop on too few shared examples, under a rule that asks for significance. */
  lemma TooFewPairsRaises(rule: Rule, candidate: Metric, baseline: Metric, test: SignificanceResult)
    requires rule.significance.Some? && rule.maxAbsolute.Some? && !rule.requirePower
    requires MeetsThresholds(rule, candidate) && baseline.value - candidate.value > rule.maxAbsolute.value
    requires test.test.InsufficientData? && test.pValue == None && test.adjusted == None
    ensures var key := (rule.metricKey, rule.slice);
      Apply(rule, map[key := candidate], map[key := baseline], map[rule.metricKey := test]) == Raises
  {
    RaisesIff(rule, map[(rule.metricKey, rule.slice) := candidate], map[(rule.metricKey, rule.slice) := baseline],
        map[rule.metricKey := test]);
  }

  // ----------------------------------------------------------------- combining

  function Rank(v: Verdict): nat {
    match v
    case Pass => 0
    case Warning => 1
    case Fail => 2
    case Error => 3
  }

  /** What one result contributes to the whole. */
  function Contribution(r: GateResult): Verdict {
    if !r.verdict.Fail? && !r.verdict.Error? then Pass
    else if !r.Blocking() then Warning
    else if r.verdict.Error? then Error
    else Fail
  }

  /** v is the worst contribution, or Pass if there is none. */
  ghost predicate Worst(results: seq<GateResult>, v: Verdict) {
    && (forall r :: r in results ==> Rank(Contribution(r)) <= Rank(v))
    && (v == Pass || exists r :: r in results && Contribution(r) == v)
  }

  method Combine(results: seq<GateResult>) returns (verdict: Verdict)
    ensures Worst(results, verdict)
  {
    verdict := Pass;
    for i := 0 to |results|
      invariant Worst(results[..i], verdict)
    {
      var r := results[i];
      assert results[..i + 1] == results[..i] + [r];
      assert r in results[..i + 1] && forall x :: x in results[..i] ==> x in results[..i + 1];
      if r.verdict.Fail? || r.verdict.Error? {
        var worse := if !r.Blocking() then Warning else if r.verdict.Error? then Error else Fail;
        if Rank(worse) > Rank(verdict) { verdict := worse; }
      }
    }
    assert results[..|results|] == results;
  }

  /** The combined verdict depends on which results there are, not on their order or repetition. */
  lemma WorstIsUnique(a: seq<GateResult>, b: seq<GateResult>, v: Verdict, w: Verdict)
    requires (forall r :: r in a <==> r in b) && Worst(a, v) && Worst(b, w)
    ensures v == w
  {
  }

  /** Adding results never improves it. */
  lemma WorstNeverImproves(a: seq<GateResult>, b: seq<GateResult>, v: Verdict, w: Verdict)
    requires (forall r :: r in a ==> r in b) && Worst(a, v) && Worst(b, w)
    ensures Rank(v) <= Rank(w)
  {
  }

  function ExitCode(v: Verdict): int {
    match v
    case Error => 2
    case Fail => 1
    case _ => 0
  }

  /** Exit code 0 exactly when every blocking result passes; no complaint at all exactly when every result does. */
  lemma ZeroIffNoBlocker(results: seq<GateResult>, v: Verdict)
    requires Worst(results, v)
    ensures v.Pass? <==> forall r :: r in results ==> !r.verdict.Fail? && !r.verdict.Error?
    ensures ExitCode(v) in {0, 1, 2}
    ensures ExitCode(v) == 0 <==> forall r ::
      r in results && r.severity.Block? ==> !r.verdict.Fail? && !r.verdict.Error?
    ensures ExitCode(v) == 2 <==> exists r :: r in results && r.severity.Block? && r.verdict.Error?
  {
  }

  // ----------------------------------------------------------------- calibration

  /** What is known about one judge metric; `satisfied` is absent when nothing was required. */
  datatype Calibration = Calibration(calibrated: bool, stale: bool, satisfied: Option<bool>)

  /** `requirement` is absent when the gate set demands none; otherwise it says whether unmet demands block. */
  datatype GateSet = GateSet(rules: seq<Rule>, requireDatasetMatch: bool, requirement: Option<bool>)
  {
    predicate EnforcesCalibration() {
      requirement == Some(true)
    }
  }

  function Complaint(blocking: bool, key: string, clause: Clause): GateResult {
    GateResult(key, if blocking then Error else Fail, if blocking then Block else Warn, clause)
  }

  function CalibrationResult(blocking: bool, key: string, status: Option<Calibration>): GateResult {
    if status.None? || !status.value.calibrated then Complaint(blocking, key, UncalibratedJudge)
    else if status.value.stale then Complaint(blocking, key, StaleCalibration)
    else if status.value.satisfied == Some(false) then Complaint(blocking, key, CalibrationRequirement)
    else GateResult(key, Pass, Warn, Clause.Calibrated)
  }

  /** A judge is trusted with a current calibration that was not found wanting. */
  predicate Trusted(status: Option<Calibration>) {
    status.Some? && status.value.calibrated && !status.value.stale && status.value.satisfied != Some(false)
  }

  function GatedJudges(rules: seq<Rule>, judges: set<string>): seq<string> {
    if rules == [] then []
    else
      var key := rules[|rules| - 1].metricKey;
      GatedJudges(rules[..|rules| - 1], judges) + if key in judges then [key] else []
  }

  lemma {:induction false} GatedJudgesAre(rules: seq<Rule>, judges: set<string>)
    ensures forall key ::
      key in GatedJudges(rules, judges) <==> key in judges && exists rule :: rule in rules && rule.metricKey == key
  {
    if rules != [] {
      var last := |rules| - 1;
      GatedJudgesAre(rules[..last], judges);
      assert rules == rules[..last] + [rules[last]];
      forall key
        ensures key in GatedJudges(rules, judges) <==>
            key in judges && exists rule :: rule in rules && rule.metricKey == key
      {
        if key == rules[last].metricKey { assert rules[last] in rules; }
      }
    }
  }

  /** One result per gated judge, in the order of the keys. */
  ghost predicate CalibrationJudged(
    gates: GateSet, judges: set<string>, calibrations: map<string, Calibration>, results: seq<GateResult>)
  {
    var keys := SortedSet(GatedJudges(gates.rules, judges));
    && |results| == |keys|
    && forall i ::
      0 <= i < |keys| ==>
        results[i] == CalibrationResult(gates.EnforcesCalibration(), keys[i], Lookup(calibrations, keys[i]))
  }

  method CalibrationResults(
    gates: GateSet, judges: set<string>, calibrations: map<string, Calibration>) returns (results: seq<GateResult>)
    ensures CalibrationJudged(gates, judges, calibrations, results)
  {
    var keys := SortedSet(GatedJudges(gates.rules, judges));
    var blocking := gates.EnforcesCalibration();
    results := [];
    for i := 0 to |keys|
      invariant |results| == i
      invariant forall k ::
        0 <= k < i ==> results[k] == CalibrationResult(blocking, keys[k], Lookup(calibrations, keys[k]))
    {
      var status := Lookup(calibrations, keys[i]);
      if status.None? || !status.value.calibrated {
        results := results + [Complaint(blocking, keys[i], UncalibratedJudge)];
        continue;
      }
      if status.value.stale {
        results := results + [Complaint(blocking, keys[i], StaleCalibration)];
        continue;
      }
      if status.value.satisfied == Some(false) {
        results := results + [Complaint(blocking, keys[i], CalibrationRequirement)];
        continue;
      }
      results := results + [GateResult(keys[i], Pass, Warn, Clause.Calibrated)];
    }
  }

  // ----------------------------------------------------------------- the gate set

  datatype Inputs = Inputs(
    gates: GateSet,
    candidate: seq<Metric>,
    baseline: seq<Metric>,
    datasetMatch: bool,
    judges: set<string>,
    calibrations: map<string, Calibration>,
    tests: map<string, SignificanceResult>)
  {
    ghost predicate RulePasses(rule: Rule) {
      Acceptable(rule, IndexOf(candidate), IndexOf(baseline), tests)
    }

    ghost predicate RuleRaises(rule: Rule) {
      Undecidable(rule, IndexOf(candidate), IndexOf(baseline), tests)
    }

    /** Everything that may hold up a merge is in order. */
    ghost predicate Clear() {
      && (forall rule :: rule in gates.rules && rule.severity.Block? ==> RulePasses(rule))
      && (gates.requirement == Some(true) ==>
          forall rule :: rule in gates.rules && rule.metricKey in judges ==>
              Trusted(Lookup(calibrations, rule.metricKey)))
      && (gates.requireDatasetMatch ==> datasetMatch)
    }
  }

  datatype Report = Report(results: seq<GateResult>, verdict: Verdict)

  method EvaluateGates(x: Inputs) returns (report: Fallible<Report>)
    ensures report.Raises? <==> exists rule :: rule in x.gates.rules && x.RuleRaises(rule)
    ensures report.Yields? ==> Worst(report.value.results, report.value.verdict)
    ensures report.Yields? ==>
      var results, n := report.value.results, |x.gates.rules|;
      n <= |results| && forall k :: 0 <= k < n ==>
        && results[k].metricKey == x.gates.rules[k].metricKey && results[k].severity == x.gates.rules[k].severity
        && (results[k].verdict.Pass? <==> x.RulePasses(x.gates.rules[k]))
        && (results[k].verdict.Fail? <==>
            Violated(x.gates.rules[k], IndexOf(x.candidate), IndexOf(x.baseline), x.tests))
    ensures report.Yields? ==> (ExitCode(report.value.verdict) == 0 <==> x.Clear())
  {
    hide Apply, Acceptable, Undecidable, Violated, IndexOf, CalibrationResult, Worst, ExitCode, SortedSet, Inputs.Clear;
    var candidate, baseline := IndexOf(x.candidate), IndexOf(x.baseline);
    var results := [];
    for i := 0 to |x.gates.rules|
      invariant Applied(x, i, results)
    {
      var rule := x.gates.rules[i];
      RaisesIff(rule, candidate, baseline, x.tests);
      match Apply(rule, candidate, baseline, x.tests) {
        case Raises =>
          assert rule in x.gates.rules && x.RuleRaises(rule);
          return Raises;
        case Yields(r) =>
          results := results + [r];
      }
    }
    var calibration := CalibrationResults(x.gates, x.judges, x.calibrations);
    var mismatch := if x.gates.requireDatasetMatch && !x.datasetMatch
      then [GateResult("__dataset_match__", Error, Block, RequireDatasetMatch)] else [];
    ghost var rules := results;
    results := results + calibration + mismatch;
    var verdict := Combine(results);
    NoneRaise(x, rules);
    RulesJudged(x, rules);
    ClearIffZero(x, rules, calibration, mismatch, verdict);
    report := Yields(Report(results, verdict));
  }

  ghost predicate Applied(x: Inputs, i: nat, results: seq<GateResult>)
    requires i <= |x.gates.rules|
  {
    && |results| == i
    && forall k ::
      0 <= k < i ==> Apply(x.gates.rules[k], IndexOf(x.candidate), IndexOf(x.baseline), x.tests) == Yields(results[k])
  }

  /** The first results are those of the rules, in their order. */
  lemma RulesJudged(x: Inputs, results: seq<GateResult>)
    requires Applied(x, |x.gates.rules|, results)
    ensures forall k :: 0 <= k < |results| ==>
      && results[k].metricKey == x.gates.rules[k].metricKey && results[k].severity == x.gates.rules[k].severity
      && (results[k].verdict.Pass? <==> x.RulePasses(x.gates.rules[k]))
      && (results[k].verdict.Fail? <==> Violated(x.gates.rules[k], IndexOf(x.candidate), IndexOf(x.baseline), x.tests))
  {
    hide Apply, Acceptable, Violated, IndexOf;
    var candidate, baseline := IndexOf(x.candidate), IndexOf(x.baseline);
    forall k | 0 <= k < |results|
      ensures results[k].metricKey == x.gates.rules[k].metricKey && results[k].severity == x.gates.rules[k].severity
      ensures results[k].verdict.Pass? <==> x.RulePasses(x.gates.rules[k])
      ensures results[k].verdict.Fail? <==> Violated(x.gates.rules[k], candidate, baseline, x.tests)
    {
      PassIffAcceptable(x.gates.rules[k], candidate, baseline, x.tests);
      FailIffViolated(x.gates.rules[k], candidate, baseline, x.tests);
      ApplyKeepsSeverity(x.gates.rules[k], candidate, baseline, x.tests);
    }
  }

  ghost predicate NoBlocker(results: seq<GateResult>) {
    forall r :: r in results && r.Blocking() ==> !r.verdict.Fail? && !r.verdict.Error?
  }

  lemma NoneRaise(x: Inputs, results: seq<GateResult>)
    requires Applied(x, |x.gates.rules|, results)
    ensures forall rule :: rule in x.gates.rules ==> !x.RuleRaises(rule)
  {
    hide Apply, Undecidable;
    forall rule | rule in x.gates.rules
      ensures !x.RuleRaises(rule)
    {
      RaisesIff(rule, IndexOf(x.candidate), IndexOf(x.baseline), x.tests);
    }
  }

  lemma RulesClear(x: Inputs, results: seq<GateResult>)
    requires Applied(x, |x.gates.rules|, results)
    ensures NoBlocker(results) <==> forall rule :: rule in x.gates.rules && rule.severity.Block? ==> x.RulePasses(rule)
  {
    hide Apply, Acceptable, IndexOf;
    var candidate, baseline := IndexOf(x.candidate), IndexOf(x.baseline);
    forall k | 0 <= k < |results|
      ensures results[k].severity == x.gates.rules[k].severity && !results[k].verdict.Warning?
      ensures results[k].verdict.Pass? <==> x.RulePasses(x.gates.rules[k])
    {
      PassIffAcceptable(x.gates.rules[k], candidate, baseline, x.tests);
      ApplyKeepsSeverity(x.gates.rules[k], candidate, baseline, x.tests);
    }
    if NoBlocker(results) {
      forall rule | rule in x.gates.rules && rule.severity.Block?
        ensures x.RulePasses(rule)
      {
        var k :| 0 <= k < |x.gates.rules| && x.gates.rules[k] == rule;
        assert results[k] in results;
      }
    } else {
      var r :| r in results && r.Blocking() && (r.verdict.Fail? || r.verdict.Error?);
      var k :| 0 <= k < |results| && results[k] == r;
      assert x.gates.rules[k] in x.gates.rules;
    }
  }

  /** The exit code is zero when the rules, the judges and the dataset are in order. */
  lemma ClearIffZero(
    x: Inputs, rules: seq<GateResult>, calibration: seq<GateResult>, mismatch: seq<GateResult>, verdict: Verdict)
    requires Applied(x, |x.gates.rules|, rules)
    requires CalibrationJudged(x.gates, x.judges, x.calibrations, calibration)
    requires mismatch == if x.gates.requireDatasetMatch && !x.datasetMatch
      then [GateResult("__dataset_match__", Error, Block, RequireDatasetMatch)] else []
    requires Worst(rules + calibration + mismatch, verdict)
    ensures ExitCode(verdict) == 0 <==> x.Clear()
  {
    hide Applied, CalibrationJudged, Worst, ExitCode, Acceptable, IndexOf, Trusted;
    var results := rules + calibration + mismatch;
    ZeroIffNoBlocker(results, verdict);
    RulesClear(x, rules);
    CalibrationClear(x, calibration);
    assert NoBlocker(results) <==> NoBlocker(rules) && NoBlocker(calibration) && NoBlocker(mismatch) by {
      assert forall r :: r in results <==> r in rules || r in calibration || r in mismatch;
    }
    assert NoBlocker(mismatch) <==> (x.gates.requireDatasetMatch ==> x.datasetMatch) by {
      if mismatch != [] { assert mismatch[0] in mismatch; }
    }
  }

  lemma CalibrationClear(x: Inputs, results: seq<GateResult>)
    requires CalibrationJudged(x.gates, x.judges, x.calibrations, results)
    ensures NoBlocker(results) <==>
      (x.gates.EnforcesCalibration() ==> forall rule ::
        rule in x.gates.rules && rule.metricKey in x.judges ==> Trusted(Lookup(x.calibrations, rule.metricKey)))
  {
    hide SortedSet, GatedJudges;
    var keys := SortedSet(GatedJudges(x.gates.rules, x.judges));
    GatedJudgesAre(x.gates.rules, x.judges);
    if x.gates.EnforcesCalibration() {
      if NoBlocker(results) {
        forall rule | rule in x.gates.rules && rule.metricKey in x.judges
          ensures Trusted(Lookup(x.calibrations, rule.metricKey))
        {
          assert rule.metricKey in keys;
          var k :| 0 <= k < |keys| && keys[k] == rule.metricKey;
          assert results[k] in results;
        }
      } else {
        var r :| r in results && r.Blocking() && (r.verdict.Fail? || r.verdict.Error?);
        var k :| 0 <= k < |results| && results[k] == r;
        assert keys[k] in GatedJudges(x.gates.rules, x.judges);
      }
    }
  }
}
