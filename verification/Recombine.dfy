/**
 When the slices of a dimension add up to the whole metric
 (packages/evaluation-core/src/proofstep_core/aggregate.py).
 */
module Recombine {
  import opened Common
  import opened Reals
  import opened Scores
  import opened Gates
  import opened Aggregate

  /** The slices of one dimension, added up. */
  ghost function Gathered(
    results: seq<Scored>, sliceBy: seq<string>, metric: string, d: string, vs: seq<string>, f: Score -> real): real {
    if vs == [] then 0.0
    else
      Gathered(results, sliceBy, metric, d, vs[..|vs| - 1], f) +
          Total(results, sliceBy, (metric, map[d := vs[|vs| - 1]]), f)
  }

  /** The results that lack the dimension, unsliced. */
  ghost function Lacking(
    results: seq<Scored>, sliceBy: seq<string>, metric: string, d: string, f: Score -> real): real {
    if results == [] then 0.0
    else
      var r := results[|results| - 1];
      Lacking(results[..|results| - 1], sliceBy, metric, d, f) +
        if DimensionOf(r, d).None? then ScoreTotal(r, r.scores, sliceBy, (metric, map[]), f) else 0.0
  }

  /** vs lists, once each, every value of the dimension that results or scores mention. */
  ghost predicate Covers(results: seq<Scored>, d: string, vs: seq<string>) {
    && Distinct(vs)
    && (forall r :: r in results && DimensionOf(r, d).Some? ==> DimensionOf(r, d).value in vs)
    && (forall r, score :: r in results && score in r.scores && d in score.slice ==> score.slice[d] in vs)
  }

  /** No score that f counts names the dimension, and only it, in its own slice. */
  ghost predicate Unclaimed(results: seq<Scored>, metric: string, d: string, f: Score -> real) {
    forall r, score :: r in results && score in r.scores && score.metric == metric && score.slice.Keys == {d} ==>
        f(score) == 0.0
  }

  /** How many of the listed slices a score falls in. */
  ghost function Hits(r: Scored, score: Score, sliceBy: seq<string>, metric: string, d: string, vs: seq<string>): nat {
    if vs == [] then 0
    else
      Hits(r, score, sliceBy, metric, d, vs[..|vs| - 1]) +
        if Falls(r, score, sliceBy, (metric, map[d := vs[|vs| - 1]])) then 1 else 0
  }

  lemma FallsIff(r: Scored, score: Score, sliceBy: seq<string>, metric: string, d: string, v: string)
    requires d in sliceBy
    ensures Falls(r, score, sliceBy, (metric, map[d := v])) <==>
      score.metric == metric &&
          (score.slice == map[d := v] || (DimensionOf(r, d) == Some(v) && score.slice.Keys <= {d}))
    ensures Falls(r, score, sliceBy, (metric, map[])) <==> score.metric == metric && score.slice == map[]
  {
    hide DimensionOf;
    var target := map[d := v];
    if score.slice.Keys <= {d} && DimensionOf(r, d) == Some(v) {
      assert score.slice[d := v] == target;
      assert target in SlicesOf(r, score, sliceBy);
    }
    if target in SlicesOf(r, score, sliceBy) && score.slice != target {
      var e :| e in sliceBy && DimensionOf(r, e).Some? && score.slice[e := DimensionOf(r, e).value] == target;
      assert e in target;
      assert score.slice[e := DimensionOf(r, e).value][e] == target[e];
      assert forall x :: x in score.slice ==> x in target;
    }
    forall e | e in sliceBy && DimensionOf(r, e).Some?
      ensures score.slice[e := DimensionOf(r, e).value] != map[]
    {
      assert e in score.slice[e := DimensionOf(r, e).value];
    }
  }

  /**
   A score of the metric is in one slice if the result has the dimension, in none if not; its own
   slice changes that.
   */
  lemma {:induction false} HitsAre(r: Scored, score: Score, sliceBy: seq<string>, d: string, vs: seq<string>)
    requires d in sliceBy && Distinct(vs)
    ensures var hits := Hits(r, score, sliceBy, score.metric, d, vs);
      && (score.slice == map[] ==> hits == if DimensionOf(r, d).Some? && DimensionOf(r, d).value in vs then 1 else 0)
      && (score.slice.Keys == {d} && score.slice[d] in vs ==> hits > 0)
      && (score.slice != map[] && score.slice.Keys != {d} ==> hits == 0)
  {
    hide Falls, DimensionOf;
    if vs != [] {
      var last := |vs| - 1;
      HitsAre(r, score, sliceBy, d, vs[..last]);
      FallsIff(r, score, sliceBy, score.metric, d, vs[last]);
      assert vs == vs[..last] + [vs[last]];
      if score.slice.Keys == {d} && score.slice[d] == vs[last] {
        assert score.slice == map[d := vs[last]];
      }
    }
  }

  lemma {:induction false} OtherMetricMisses(
    r: Scored, score: Score, sliceBy: seq<string>, metric: string, d: string, vs: seq<string>)
    requires score.metric != metric
    ensures Hits(r, score, sliceBy, metric, d, vs) == 0
  {
    if vs != [] { OtherMetricMisses(r, score, sliceBy, metric, d, vs[..|vs| - 1]); }
  }

  ghost function ScoreGathered(
    r: Scored, scores: seq<Score>, sliceBy: seq<string>, metric: string, d: string, vs: seq<string>,
    f: Score -> real): real {
    if vs == [] then 0.0
    else
      ScoreGathered(r, scores, sliceBy, metric, d, vs[..|vs| - 1], f) +
          ScoreTotal(r, scores, sliceBy, (metric, map[d := vs[|vs| - 1]]), f)
  }

  lemma {:induction false} ScoreGatheredStep(
    r: Scored, scores: seq<Score>, sliceBy: seq<string>, metric: string, d: string, vs: seq<string>,
    f: Score -> real)
    requires scores != []
    ensures var last := |scores| - 1;
      ScoreGathered(r, scores, sliceBy, metric, d, vs, f)
      == ScoreGathered(r, scores[..last], sliceBy, metric, d, vs, f) +
          Times(Hits(r, scores[last], sliceBy, metric, d, vs), f(scores[last]))
  {
    hide Falls, Times;
    var score := scores[|scores| - 1];
    TimesFacts(0, f(score));
    if vs != [] {
      ScoreGatheredStep(r, scores, sliceBy, metric, d, vs[..|vs| - 1], f);
      TimesFacts(Hits(r, score, sliceBy, metric, d, vs[..|vs| - 1]), f(score));
    }
  }

  lemma {:induction false} NoScoresGathered(
    r: Scored, sliceBy: seq<string>, metric: string, d: string, vs: seq<string>, f: Score -> real)
    ensures ScoreGathered(r, [], sliceBy, metric, d, vs, f) == 0.0
  {
    if vs != [] { NoScoresGathered(r, sliceBy, metric, d, vs[..|vs| - 1], f); }
  }

  lemma {:induction false} GatheredStep(
    results: seq<Scored>, sliceBy: seq<string>, metric: string, d: string, vs: seq<string>, f: Score -> real)
    requires results != []
    ensures var last := |results| - 1;
      Gathered(results, sliceBy, metric, d, vs, f)
      == Gathered(results[..last], sliceBy, metric, d, vs, f) +
          ScoreGathered(results[last], results[last].scores, sliceBy, metric, d, vs, f)
  {
    hide ScoreTotal;
    if vs != [] { GatheredStep(results, sliceBy, metric, d, vs[..|vs| - 1], f); }
  }

  lemma {:induction false} NoneGathered(
    sliceBy: seq<string>, metric: string, d: string, vs: seq<string>, f: Score -> real)
    ensures Gathered([], sliceBy, metric, d, vs, f) == 0.0
  {
    if vs != [] { NoneGathered(sliceBy, metric, d, vs[..|vs| - 1], f); }
  }

  predicate Claims(score: Score, metric: string, d: string) {
    score.metric == metric && score.slice.Keys == {d}
  }

  /** What scores with an own slice over the dimension add to its slices and not to the whole. */
  ghost function ScoreExcess(
    r: Scored, scores: seq<Score>, sliceBy: seq<string>, metric: string, d: string, vs: seq<string>,
    f: Score -> real): real {
    if scores == [] then 0.0
    else
      var score := scores[|scores| - 1];
      ScoreExcess(r, scores[..|scores| - 1], sliceBy, metric, d, vs, f)
      + if Claims(score, metric, d) then Times(Hits(r, score, sliceBy, metric, d, vs), f(score)) else 0.0
  }

  ghost function Excess(
    results: seq<Scored>, sliceBy: seq<string>, metric: string, d: string, vs: seq<string>, f: Score -> real): real {
    if results == [] then 0.0
    else
      var r := results[|results| - 1];
      Excess(results[..|results| - 1], sliceBy, metric, d, vs, f) + ScoreExcess(r, r.scores, sliceBy, metric, d, vs, f)
  }

  /** What a score adds to the slices is what it adds to the whole, lacking results and its own claim aside. */
  lemma ScoreBalance(r: Scored, score: Score, sliceBy: seq<string>, metric: string, d: string, vs: seq<string>, x: real)
    requires d in sliceBy && Distinct(vs)
    requires DimensionOf(r, d).Some? ==> DimensionOf(r, d).value in vs
    ensures
      var whole := if Falls(r, score, sliceBy, (metric, map[])) then x else 0.0;
      var hits := Times(Hits(r, score, sliceBy, metric, d, vs), x);
      hits + (if DimensionOf(r, d).None? then whole else 0.0) == whole + if Claims(score, metric, d) then hits else 0.0
  {
    hide Falls, DimensionOf, Times, Hits;
    FallsIff(r, score, sliceBy, metric, d, "");
    TimesFacts(0, x);
    if score.metric == metric {
      HitsAre(r, score, sliceBy, d, vs);
      if score.slice == map[] {
        assert score.slice.Keys == {};
        assert d !in score.slice.Keys;
      }
    } else {
      OtherMetricMisses(r, score, sliceBy, metric, d, vs);
    }
  }

  lemma {:induction false} ScoreSplit(
    r: Scored, scores: seq<Score>, sliceBy: seq<string>, metric: string, d: string, vs: seq<string>,
    f: Score -> real)
    requires d in sliceBy && Distinct(vs)
    requires DimensionOf(r, d).Some? ==> DimensionOf(r, d).value in vs
    ensures
      var whole := ScoreTotal(r, scores, sliceBy, (metric, map[]), f);
      ScoreGathered(r, scores, sliceBy, metric, d, vs, f) + (if DimensionOf(r, d).None? then whole else 0.0)
      == whole + ScoreExcess(r, scores, sliceBy, metric, d, vs, f)
  {
    hide Falls, DimensionOf, Times, Hits, Claims;
    if scores == [] {
      NoScoresGathered(r, sliceBy, metric, d, vs, f);
    } else {
      var last := |scores| - 1;
      ScoreSplit(r, scores[..last], sliceBy, metric, d, vs, f);
      ScoreGatheredStep(r, scores, sliceBy, metric, d, vs, f);
      ScoreBalance(r, scores[last], sliceBy, metric, d, vs, f(scores[last]));
    }
  }

  /** The slices and what lacks the dimension make the whole and the excess. */
  lemma {:induction false} SplitTotals(
    results: seq<Scored>, sliceBy: seq<string>, metric: string, d: string, vs: seq<string>, f: Score -> real)
    requires d in sliceBy && Covers(results, d, vs)
    ensures Gathered(results, sliceBy, metric, d, vs, f) + Lacking(results, sliceBy, metric, d, f)
         == Total(results, sliceBy, (metric, map[]), f) + Excess(results, sliceBy, metric, d, vs, f)
  {
    hide ScoreTotal, ScoreExcess, ScoreGathered, DimensionOf;
    if results == [] {
      NoneGathered(sliceBy, metric, d, vs, f);
    } else {
      var last := |results| - 1;
      assert results[last] in results && forall r :: r in results[..last] ==> r in results;
      SplitTotals(results[..last], sliceBy, metric, d, vs, f);
      GatheredStep(results, sliceBy, metric, d, vs, f);
      ScoreSplit(results[last], results[last].scores, sliceBy, metric, d, vs, f);
    }
  }

  lemma {:induction false} ScoreExcessFacts(
    r: Scored, scores: seq<Score>, sliceBy: seq<string>, metric: string, d: string, vs: seq<string>,
    f: Score -> real)
    requires d in sliceBy && Distinct(vs)
    requires forall score :: score in scores && d in score.slice ==> score.slice[d] in vs
    ensures (forall score ::
      score in scores && Claims(score, metric, d) ==> f(score) == 0.0) ==>
          ScoreExcess(r, scores, sliceBy, metric, d, vs, f) == 0.0
    ensures (forall score :: f(score) >= 0.0) ==> ScoreExcess(r, scores, sliceBy, metric, d, vs, f) >= 0.0
    ensures (forall score :: f(score) >= 0.0) && ScoreExcess(r, scores, sliceBy, metric, d, vs, f) == 0.0 ==>
      forall score :: score in scores && Claims(score, metric, d) ==> f(score) == 0.0
  {
    hide Times, Hits;
    if scores != [] {
      var last := |scores| - 1;
      var score := scores[last];
      assert scores == scores[..last] + [score];
      assert forall x :: x in scores[..last] ==> x in scores;
      assert score in scores;
      ScoreExcessFacts(r, scores[..last], sliceBy, metric, d, vs, f);
      if Claims(score, metric, d) {
        HitsAre(r, score, sliceBy, d, vs);
        TimesFacts(Hits(r, score, sliceBy, metric, d, vs), f(score));
      }
    }
  }

  lemma {:induction false} ExcessFacts(
    results: seq<Scored>, sliceBy: seq<string>, metric: string, d: string, vs: seq<string>, f: Score -> real)
    requires d in sliceBy && Covers(results, d, vs)
    ensures Unclaimed(results, metric, d, f) ==> Excess(results, sliceBy, metric, d, vs, f) == 0.0
    ensures (forall score :: f(score) >= 0.0) ==> Excess(results, sliceBy, metric, d, vs, f) >= 0.0
    ensures (forall score :: f(score) >= 0.0) && Excess(results, sliceBy, metric, d, vs, f) == 0.0 ==>
      Unclaimed(results, metric, d, f)
  {
    hide ScoreExcess, DimensionOf;
    if results != [] {
      var last := |results| - 1;
      var r := results[last];
      assert results == results[..last] + [r];
      assert r in results && forall x :: x in results[..last] ==> x in results;
      ExcessFacts(results[..last], sliceBy, metric, d, vs, f);
      ScoreExcessFacts(r, r.scores, sliceBy, metric, d, vs, f);
    }
  }

  /**
   Any additive statistic is recombined exactly from the slices where no counted score's own slice
   claims the dimension.
   */
  lemma Recombines(
    results: seq<Scored>, sliceBy: seq<string>, metric: string, d: string, vs: seq<string>, f: Score -> real)
    requires d in sliceBy && Covers(results, d, vs) && Unclaimed(results, metric, d, f)
    ensures Gathered(results, sliceBy, metric, d, vs, f) + Lacking(results, sliceBy, metric, d, f) ==
        Total(results, sliceBy, (metric, map[]), f)
  {
    SplitTotals(results, sliceBy, metric, d, vs, f);
    ExcessFacts(results, sliceBy, metric, d, vs, f);
  }

  /** Counts and error counts are recombined exactly then and only then. */
  lemma CountsRecombineIff(
    results: seq<Scored>, sliceBy: seq<string>, metric: string, d: string, vs: seq<string>, f: Score -> real)
    requires d in sliceBy && Covers(results, d, vs) && (f == One() || f == ErrorOf())
    ensures Gathered(results, sliceBy, metric, d, vs, f) + Lacking(results, sliceBy, metric, d, f) ==
        Total(results, sliceBy, (metric, map[]), f)
      <==> Unclaimed(results, metric, d, f)
  {
    SplitTotals(results, sliceBy, metric, d, vs, f);
    ExcessFacts(results, sliceBy, metric, d, vs, f);
    assert forall score :: f(score) >= 0.0;
  }

  ghost predicate NoOwnSlices(results: seq<Scored>) {
    forall r, score :: r in results && score in r.scores ==> score.slice == map[]
  }

  /** Scores without slices of their own never claim a dimension. */
  lemma UnslicedIsUnclaimed(results: seq<Scored>, metric: string, d: string, f: Score -> real)
    requires NoOwnSlices(results)
    ensures Unclaimed(results, metric, d, f)
  {
    var none: Slice := map[];
    assert d !in none.Keys;
  }

  function MetricAt(results: seq<Scored>, sliceBy: seq<string>, key: Key): Metric {
    BuildMetric(key, Values(results, sliceBy, key), Errors(results, sliceBy, key))
  }

  /** Count times mean is the sum of the values. */
  lemma WeightedMean(results: seq<Scored>, sliceBy: seq<string>, key: Key)
    ensures var m := MetricAt(results, sliceBy, key);
      && m.count as real * m.value == Total(results, sliceBy, key, ValueOf())
      && m.count as real == Total(results, sliceBy, key, One())
      && m.errorCount as real == Total(results, sliceBy, key, ErrorOf())
  {
    hide Total, Values, Errors;
    var values := Values(results, sliceBy, key);
    TotalsAre(results, sliceBy, key);
  }

  /** Counts, error counts and count-weighted means of the listed slices. */
  ghost function SliceCounts(
    results: seq<Scored>, sliceBy: seq<string>, metric: string, d: string, vs: seq<string>): (nat, nat, real) {
    if vs == [] then (0, 0, 0.0)
    else
      var before := SliceCounts(results, sliceBy, metric, d, vs[..|vs| - 1]);
      var m := MetricAt(results, sliceBy, (metric, map[d := vs[|vs| - 1]]));
      (before.0 + m.count, before.1 + m.errorCount, before.2 + m.count as real * m.value)
  }

  lemma {:induction false} SliceCountsAre(
    results: seq<Scored>, sliceBy: seq<string>, metric: string, d: string, vs: seq<string>)
    ensures var sums := SliceCounts(results, sliceBy, metric, d, vs);
      && sums.0 as real == Gathered(results, sliceBy, metric, d, vs, One())
      && sums.1 as real == Gathered(results, sliceBy, metric, d, vs, ErrorOf())
      && sums.2 == Gathered(results, sliceBy, metric, d, vs, ValueOf())
  {
    hide Total, MetricAt;
    if vs != [] {
      SliceCountsAre(results, sliceBy, metric, d, vs[..|vs| - 1]);
      WeightedMean(results, sliceBy, (metric, map[d := vs[|vs| - 1]]));
    }
  }

  /**
   The unsliced metric's count, error count and count-weighted mean come back from the slices and
   the results lacking the dimension.
   */
  lemma MetricsRecombine(results: seq<Scored>, sliceBy: seq<string>, metric: string, d: string, vs: seq<string>)
    requires d in sliceBy && Covers(results, d, vs) && NoOwnSlices(results)
    ensures
      var whole := MetricAt(results, sliceBy, (metric, map[]));
      var sums := SliceCounts(results, sliceBy, metric, d, vs);
      && whole.count as real == sums.0 as real + Lacking(results, sliceBy, metric, d, One())
      && whole.errorCount as real == sums.1 as real + Lacking(results, sliceBy, metric, d, ErrorOf())
      && whole.count as real * whole.value == sums.2 + Lacking(results, sliceBy, metric, d, ValueOf())
  {
    hide Total, MetricAt, Gathered, Lacking, SliceCounts, Covers, NoOwnSlices, Unclaimed;
    UnslicedIsUnclaimed(results, metric, d, One());
    UnslicedIsUnclaimed(results, metric, d, ErrorOf());
    UnslicedIsUnclaimed(results, metric, d, ValueOf());
    Recombines(results, sliceBy, metric, d, vs, One());
    Recombines(results, sliceBy, metric, d, vs, ErrorOf());
    Recombines(results, sliceBy, metric, d, vs, ValueOf());
    WeightedMean(results, sliceBy, (metric, map[]));
    SliceCountsAre(results, sliceBy, metric, d, vs);
  }

  // ----------------------------------------------------------------- errored scores

  function WithoutErrored(scores: seq<Score>): seq<Score> {
    if scores == [] then []
    else WithoutErrored(scores[..|scores| - 1]) + if scores[|scores| - 1].errored then [] else [scores[|scores| - 1]]
  }

  /** The same results, errored scores aside. */
  ghost predicate SameButErrored(a: seq<Scored>, b: seq<Scored>) {
    && |a| == |b|
    && forall i :: 0 <= i < |a| ==>
         && a[i].metadata == b[i].metadata && a[i].expected == b[i].expected
         && WithoutErrored(a[i].scores) == WithoutErrored(b[i].scores)
  }

  lemma {:induction false} ErroredNeverCount(r: Scored, scores: seq<Score>, sliceBy: seq<string>, key: Key)
    ensures ScoreValues(r, scores, sliceBy, key) == ScoreValues(r, WithoutErrored(scores), sliceBy, key)
  {
    hide Falls;
    if scores != [] {
      var last := |scores| - 1;
      var kept := WithoutErrored(scores[..last]);
      ErroredNeverCount(r, scores[..last], sliceBy, key);
      if scores[last].errored {
        assert kept + [] == kept;
      } else {
        assert (kept + [scores[last]])[..|kept|] == kept;
      }
    }
  }

  lemma {:induction false} OnlyDimensionsMatter(
    a: Scored, b: Scored, scores: seq<Score>, sliceBy: seq<string>, key: Key)
    requires a.metadata == b.metadata && a.expected == b.expected
    ensures ScoreValues(a, scores, sliceBy, key) == ScoreValues(b, scores, sliceBy, key)
  {
    if scores != [] {
      var score := scores[|scores| - 1];
      OnlyDimensionsMatter(a, b, scores[..|scores| - 1], sliceBy, key);
      assert forall d :: DimensionOf(a, d) == DimensionOf(b, d);
      assert SlicesOf(a, score, sliceBy) == SlicesOf(b, score, sliceBy);
    }
  }

  /** Errored scores, however many and wherever, move no metric's values, and so neither its count nor its mean. */
  lemma {:induction false} ErroredScoresMoveNothing(a: seq<Scored>, b: seq<Scored>, sliceBy: seq<string>, key: Key)
    requires SameButErrored(a, b)
    ensures Values(a, sliceBy, key) == Values(b, sliceBy, key)
    ensures MetricAt(a, sliceBy, key).count == MetricAt(b, sliceBy, key).count
    ensures MetricAt(a, sliceBy, key).value == MetricAt(b, sliceBy, key).value
  {
    hide Sum;
    if a != [] {
      var last := |a| - 1;
      ErroredScoresMoveNothing(a[..last], b[..last], sliceBy, key);
      ErroredNeverCount(a[last], a[last].scores, sliceBy, key);
      ErroredNeverCount(b[last], b[last].scores, sliceBy, key);
      OnlyDimensionsMatter(a[last], b[last], WithoutErrored(a[last].scores), sliceBy, key);
    }
  }
}
