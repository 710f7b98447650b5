/** Which test runs on a metric's paired scores (packages/evaluation-core/src/proofstep_core/significance.py). */
module Significance {
  import opened Common
  import opened Reals
  import opened McNemar
  import opened Bootstrap

  datatype TestKind = PairedBootstrapTest | McNemarTest | InsufficientData

  /** Per-example values from both runs, already matched by example id. */
  datatype PairedScores = PairedScores(metric: string, candidate: seq<real>, baseline: seq<real>, dropped: nat)
  {
    ghost predicate Valid() {
      |candidate| == |baseline|
    }

    function Differences(): (d: seq<real>)
      requires |candidate| == |baseline|
      ensures |d| == |candidate| && forall i :: 0 <= i < |d| ==> d[i] == candidate[i] - baseline[i]
    {
      seq(|candidate|, i requires 0 <= i < |candidate| => candidate[i] - baseline[i])
    }
  }

  datatype SignificanceResult = SignificanceResult(
    metric: string,
    test: TestKind,
    nPairs: nat,
    difference: Option<real>,
    ciLow: Option<real>,
    ciHigh: Option<real>,
    pValue: Option<real>,
    adjusted: Option<real>,
    minimumDetectableEffect: Option<real>,
    dropped: nat)
  {
    /** The corrected p-value where there is one; no p-value is never significant. */
    predicate IsSignificant(alpha: real) {
      var p := if adjusted.Some? then adjusted else pValue;
      p.Some? && p.value <= alpha
    }
  }

  const MIN_PAIRS: nat := 5

  predicate IsBinary(values: seq<real>) {
    values != [] && forall i :: 0 <= i < |values| ==> values[i] == 0.0 || values[i] == 1.0
  }

  /** Pairs that went from b in the baseline to c in the candidate. */
  function Moved(candidate: seq<real>, baseline: seq<real>, b: real, c: real): (n: nat)
    requires |candidate| == |baseline|
    ensures n == |set i | 0 <= i < |candidate| && baseline[i] == b && candidate[i] == c|
  {
    if candidate == [] then 0
    else
      var last := |candidate| - 1;
      MovedStep(candidate, baseline, b, c);
      Moved(candidate[..last], baseline[..last], b, c) + if baseline[last] == b && candidate[last] == c then 1 else 0
  }

  lemma MovedStep(candidate: seq<real>, baseline: seq<real>, b: real, c: real)
    requires |candidate| == |baseline| > 0
    ensures var last := |candidate| - 1;
      |set i | 0 <= i < |candidate| && baseline[i] == b && candidate[i] == c|
      == |set i | 0 <= i < last && baseline[..last][i] == b && candidate[..last][i] == c|
         + if baseline[last] == b && candidate[last] == c then 1 else 0
  {
    var last := |candidate| - 1;
    var all := set i | 0 <= i < |candidate| && baseline[i] == b && candidate[i] == c;
    var before := set i | 0 <= i < last && baseline[..last][i] == b && candidate[..last][i] == c;
    assert all == before + if baseline[last] == b && candidate[last] == c then {last} else {};
  }

  /** The generator starts from a fixed seed, so the indices it draws depend on the sample size alone. */
  ghost predicate Drawable(draws: nat -> seq<seq<nat>>) {
    forall n :: draws(n) != [] && ValidDraws(n, draws(n))
  }

  predicate UsesMcNemar(paired: PairedScores) {
    |paired.candidate| >= MIN_PAIRS && IsBinary(paired.candidate) && IsBinary(paired.baseline)
  }

  /** The pairs whose two values differ. */
  function Changed(paired: PairedScores): set<int>
    requires |paired.candidate| == |paired.baseline|
  {
    set i | 0 <= i < |paired.candidate| && paired.candidate[i] != paired.baseline[i]
  }

  /** The exact test meets more discordant pairs than its division can represent. */
  predicate Overflows(paired: PairedScores)
    requires |paired.candidate| == |paired.baseline|
  {
    UsesMcNemar(paired) && |Changed(paired)| >= 1024
  }

  /** Verdicts that changed either regressed or improved. */
  lemma ChangedSplits(paired: PairedScores)
    requires paired.Valid() && UsesMcNemar(paired)
    ensures |Changed(paired)| ==
        Moved(paired.candidate, paired.baseline, 1.0, 0.0) + Moved(paired.candidate, paired.baseline, 0.0, 1.0)
  {
    var c, b := paired.candidate, paired.baseline;
    var worse := set i | 0 <= i < |c| && b[i] == 1.0 && c[i] == 0.0;
    var better := set i | 0 <= i < |c| && b[i] == 0.0 && c[i] == 1.0;
    assert Changed(paired) == worse + better;
    assert worse !! better;
  }

  /**
   The test that fits the data, and what it reports: a p-value exactly when there are enough pairs,
   and then nonzero.
   */
  ghost predicate IsAnalysis(
    paired: PairedScores, effect: seq<real> -> real, draws: nat -> seq<seq<nat>>, r: SignificanceResult)
    requires paired.Valid() && Drawable(draws)
  {
    && r.metric == paired.metric && r.nPairs == |paired.candidate| && r.dropped == paired.dropped
    && r.adjusted == None
    && (r.test.InsufficientData? <==> r.nPairs < 5)
    && (r.pValue.None? <==> r.nPairs < 5)
    && (r.pValue.Some? ==> 0.0 < r.pValue.value <= 1.0)
    && (r.test.McNemarTest? <==>
        && r.nPairs >= 5
        && forall i :: 0 <= i < r.nPairs ==> paired.candidate[i] in {0.0, 1.0} && paired.baseline[i] in {0.0, 1.0})
    && (r.test.McNemarTest? ==>
        var regressed := set i | 0 <= i < r.nPairs && paired.baseline[i] == 1.0 && paired.candidate[i] == 0.0;
        var improved := set i | 0 <= i < r.nPairs && paired.baseline[i] == 0.0 && paired.candidate[i] == 1.0;
        && r.ciLow == r.ciHigh == None
        && r.pValue == Some(McNemarExact(|regressed|, |improved|, Less)))
    && (r.test.PairedBootstrapTest? ==>
        var d := paired.Differences();
        var sorted := SortedMeans(d, draws(|d|));
        var low, high := LowIndex(|sorted|, 0.95), HighIndex(|sorted|, 0.95);
        && 0 <= low <= high < |sorted|
        && r.ciLow == Some(sorted[low]) && r.ciHigh == Some(sorted[high])
        && r.pValue.Some? && IsPValue(sorted, Less, r.pValue.value))
    && (r.test.InsufficientData? ==> r.difference == r.ciLow == r.ciHigh == r.minimumDetectableEffect == None)
    && (!r.test.InsufficientData? ==>
        && r.difference == Some(Sum(paired.Differences()) / r.nPairs as real)
        && r.minimumDetectableEffect == Some(effect(paired.Differences())))
  }

  /** `effect` is the power calculation's estimate from the differences, `draws` the generator's indices. */
  method Analyse(paired: PairedScores, effect: seq<real> -> real, draws: nat -> seq<seq<nat>>)
    returns (r: Fallible<SignificanceResult>)
    requires paired.Valid() && Drawable(draws)
    ensures r.Raises? <==> Overflows(paired)
    ensures r.Yields? ==> IsAnalysis(paired, effect, draws, r.value)
  {
    hide Ways, Pow2, Comb, Sum, SortedMeans, PValue, Extreme, McNemarExact, McNemarCall;
    var differences := paired.Differences();
    if |differences| < MIN_PAIRS {
      return Yields(SignificanceResult(paired.metric, InsufficientData, |differences|, None, None, None, None, None,
                                       None, paired.dropped));
    }
    var mde := Some(effect(differences));
    if IsBinary(paired.candidate) && IsBinary(paired.baseline) {
      var regressed := Moved(paired.candidate, paired.baseline, 1.0, 0.0);
      var improved := Moved(paired.candidate, paired.baseline, 0.0, 1.0);
      var pValue := McNemarCall(regressed, improved, Less);
      ChangedSplits(paired);
      McNemarRaisesIff(regressed, improved, Less);
      McNemarInRange(regressed, improved, Less);
      if pValue.Raises? {
        return Raises;
      }
      return Yields(SignificanceResult(paired.metric, McNemarTest, |differences|, Some(Mean(differences)), None, None,
                                       Some(pValue.value), None, mde, paired.dropped));
    }
    ghost var low, high := Range(differences);
    BootstrapSound(differences, draws(|differences|), Less, 0.95, low, high);
    var b := PairedBootstrap(differences, draws(|differences|), Less, 0.95);
    r := Yields(SignificanceResult(paired.metric, PairedBootstrapTest, |differences|, Some(b.value.mean),
                                   Some(b.value.low), Some(b.value.high), Some(b.value.pValue), None, mde,
                                   paired.dropped));
  }

  /**
   Where the exact test runs: with k changes, all of them regressions, it reports 1 / 2^k; with none, or
   none but improvements, 1.
   */
  lemma ExactTestLeans(
    paired: PairedScores, effect: seq<real> -> real, draws: nat -> seq<seq<nat>>, r: SignificanceResult)
    requires paired.Valid() && Drawable(draws) && IsAnalysis(paired, effect, draws, r) && r.test.McNemarTest?
    ensures (forall i :: i in Changed(paired) ==> paired.candidate[i] < paired.baseline[i]) ==>
      r.pValue == Some(1.0 / Pow2(|Changed(paired)|) as real)
    ensures (forall i :: i in Changed(paired) ==> paired.candidate[i] > paired.baseline[i]) ==> r.pValue == Some(1.0)
  {
    hide McNemarExact, Pow2, Drawable, Mean, SortedMeans;
    var c, b := paired.candidate, paired.baseline;
    ChangedSplits(paired);
    var regressed, improved := Moved(c, b, 1.0, 0.0), Moved(c, b, 0.0, 1.0);
    assert r.pValue == Some(McNemarExact(regressed, improved, Less));
    if forall i :: i in Changed(paired) ==> c[i] < b[i] {
      assert (set i | 0 <= i < |c| && b[i] == 0.0 && c[i] == 1.0) == {};
      AllRegressed(regressed);
    }
    if forall i :: i in Changed(paired) ==> c[i] > b[i] {
      assert (set i | 0 <= i < |c| && b[i] == 1.0 && c[i] == 0.0) == {};
      AllImproved(improved);
    }
  }

  /** Where the bootstrap runs: if every example got worse it reports 1 / (resamples + 1), if none did, 1. */
  lemma BootstrapTestLeans(
    paired: PairedScores, effect: seq<real> -> real, draws: nat -> seq<seq<nat>>, r: SignificanceResult)
    requires paired.Valid() && Drawable(draws) && IsAnalysis(paired, effect, draws, r) && r.test.PairedBootstrapTest?
    ensures (forall i :: 0 <= i < r.nPairs ==> paired.candidate[i] < paired.baseline[i]) ==>
      r.pValue == Some(1.0 / (|draws(r.nPairs)| + 1) as real)
    ensures (forall i :: 0 <= i < r.nPairs ==> paired.candidate[i] >= paired.baseline[i]) ==> r.pValue == Some(1.0)
  {
    hide McNemarExact, Mean, SortedMeans, PValue, Extreme, LowIndex, HighIndex;
    var d := paired.Differences();
    BootstrapLeans(d, draws(|d|));
  }

  lemma AllChanged(paired: PairedScores)
    requires paired.Valid()
    requires forall i :: 0 <= i < |paired.candidate| ==> paired.candidate[i] < paired.baseline[i]
    ensures |Changed(paired)| == |paired.candidate|
  {
    var n, p := |paired.candidate|, i => 0 <= i < |paired.candidate| && paired.candidate[i] != paired.baseline[i];
    assert Changed(paired) == Hits(n, p);
    HitsAll(n, p);
  }

  ghost predicate AllWorse(paired: PairedScores) {
    |paired.candidate| == |paired.baseline| &&
      forall i :: 0 <= i < |paired.candidate| ==> paired.candidate[i] < paired.baseline[i]
  }

  ghost predicate NoneWorse(paired: PairedScores) {
    |paired.candidate| == |paired.baseline| &&
      forall i :: 0 <= i < |paired.candidate| ==> paired.candidate[i] >= paired.baseline[i]
  }

  lemma AnalysisCounts(
    paired: PairedScores, effect: seq<real> -> real, draws: nat -> seq<seq<nat>>, r: SignificanceResult)
    requires paired.Valid() && Drawable(draws) && IsAnalysis(paired, effect, draws, r)
    ensures r.nPairs == |paired.candidate| == |paired.baseline|
    ensures r.pValue.Some? ==> r.test.McNemarTest? || r.test.PairedBootstrapTest?
  {
  }

  /** Either test: its least p-value if every example got worse, 1 if none did. */
  lemma PairedTestLeans(
    paired: PairedScores, effect: seq<real> -> real, draws: nat -> seq<seq<nat>>, r: SignificanceResult)
    requires paired.Valid() && Drawable(draws) && IsAnalysis(paired, effect, draws, r) && r.pValue.Some?
    requires r.nPairs == |paired.candidate| == |paired.baseline|
    ensures AllWorse(paired) ==>
      r.pValue.value == 1.0 / (if r.test.McNemarTest? then Pow2(r.nPairs) else |draws(r.nPairs)| + 1) as real
    ensures NoneWorse(paired) ==> r.pValue.value == 1.0
  {
    AnalysisCounts(paired, effect, draws, r);
    hide IsAnalysis, Drawable, Pow2;
    if r.test.McNemarTest? {
      ExactTestLeans(paired, effect, draws, r);
      if AllWorse(paired) { AllChanged(paired); }
    } else {
      BootstrapTestLeans(paired, effect, draws, r);
    }
  }

  /** Every finite sample has bounds. */
  lemma {:induction false} Range(xs: seq<real>) returns (low: real, high: real)
    ensures Within(xs, low, high)
  {
    if xs == [] {
      low, high := 0.0, 0.0;
    } else {
      var last := |xs| - 1;
      low, high := Range(xs[..last]);
      forall k | 0 <= k < last
        ensures low <= xs[k] <= high
      {
        assert xs[..last][k] == xs[k];
      }
      low, high := MinReal(low, xs[last]), MaxReal(high, xs[last]);
    }
  }
}
