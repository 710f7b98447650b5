/** Per-example scores into metrics (packages/evaluation-core/src/proofstep_core/aggregate.py). */
module Aggregate {
  import opened Common
  import opened Reals
  import opened Scores
  import opened Gates

  type Key = (string, Slice)

  // ----------------------------------------------------------------- which buckets a score falls in

  /** A result's value of a slicing dimension: its metadata, else its expected output. */
  function DimensionOf(r: Scored, d: string): Option<string> {
    if d in r.metadata then Some(r.metadata[d])
    else if r.expected.Some? && d in r.expected.value then Some(r.expected.value[d])
    else None
  }

  /** The score's own slice, and that slice refined by each dimension the result has. */
  function SlicesOf(r: Scored, score: Score, sliceBy: seq<string>): set<Slice> {
    {score.slice} + set d | d in sliceBy && DimensionOf(r, d).Some? :: score.slice[d := DimensionOf(r, d).value]
  }

  predicate Falls(r: Scored, score: Score, sliceBy: seq<string>, key: Key) {
    score.metric == key.0 && key.1 in SlicesOf(r, score, sliceBy)
  }

  /** A dimension is read from the metadata, and from the expected output only where the metadata lack it. */
  lemma FallsWhere(r: Scored, score: Score, sliceBy: seq<string>, key: Key)
    ensures Falls(r, score, sliceBy, key) <==>
      && score.metric == key.0
      && (|| key.1 == score.slice
          || (exists d :: d in sliceBy && d in r.metadata && key.1 == score.slice[d := r.metadata[d]])
          || (r.expected.Some? &&
              exists d :: d in sliceBy && d !in r.metadata && d in r.expected.value &&
                key.1 == score.slice[d := r.expected.value[d]]))
  {
  }

  function ScoreValues(r: Scored, scores: seq<Score>, sliceBy: seq<string>, key: Key): seq<real> {
    if scores == [] then []
    else
      var score := scores[|scores| - 1];
      ScoreValues(r, scores[..|scores| - 1], sliceBy, key) +
        if score.Counts() && Falls(r, score, sliceBy, key) then [score.value.value] else []
  }

  /** The values that make up a metric, in result order. */
  function Values(results: seq<Scored>, sliceBy: seq<string>, key: Key): seq<real> {
    if results == [] then []
    else
      var r := results[|results| - 1];
      Values(results[..|results| - 1], sliceBy, key) + ScoreValues(r, r.scores, sliceBy, key)
  }

  function ScoreErrors(r: Scored, scores: seq<Score>, sliceBy: seq<string>, key: Key): nat {
    if scores == [] then 0
    else
      var score := scores[|scores| - 1];
      ScoreErrors(r, scores[..|scores| - 1], sliceBy, key) +
        if score.errored && Falls(r, score, sliceBy, key) then 1 else 0
  }

  /** The errored scores of a metric. */
  function Errors(results: seq<Scored>, sliceBy: seq<string>, key: Key): nat {
    if results == [] then 0
    else
      var r := results[|results| - 1];
      Errors(results[..|results| - 1], sliceBy, key) + ScoreErrors(r, r.scores, sliceBy, key)
  }

  // ----------------------------------------------------------------- the loops

  function BucketAt(buckets: map<Key, seq<real>>, key: Key): seq<real> {
    if key in buckets then buckets[key] else []
  }

  function ErrorsAt(errors: map<Key, nat>, key: Key): nat {
    if key in errors then errors[key] else 0
  }

  /** Only buckets something went into exist. */
  ghost predicate Filled(buckets: map<Key, seq<real>>, errors: map<Key, nat>) {
    && (forall key :: key in buckets ==> buckets[key] != [])
    && (forall key :: key in errors ==> errors[key] > 0)
  }

  lemma Extended(buckets: map<Key, seq<real>>, errors: map<Key, nat>, bucket: Key, x: real)
    requires Filled(buckets, errors)
    ensures var after := buckets[bucket := BucketAt(buckets, bucket) + [x]];
      && Filled(after, errors)
      && forall key: Key :: BucketAt(after, key) == BucketAt(buckets, key) + if key == bucket then [x] else []
  {
  }

  lemma Counted(buckets: map<Key, seq<real>>, errors: map<Key, nat>, bucket: Key)
    requires Filled(buckets, errors)
    ensures var after := errors[bucket := ErrorsAt(errors, bucket) + 1];
      && Filled(buckets, after)
      && forall key: Key :: ErrorsAt(after, key) == ErrorsAt(errors, key) + if key == bucket then 1 else 0
  {
  }

  /** Puts one score into each of its buckets, once. */
  method Enter(buckets: map<Key, seq<real>>, errors: map<Key, nat>, score: Score, slices: set<Slice>)
    returns (newBuckets: map<Key, seq<real>>, newErrors: map<Key, nat>)
    requires Filled(buckets, errors)
    ensures Filled(newBuckets, newErrors)
    ensures forall key: Key ::
      BucketAt(newBuckets, key) == BucketAt(buckets, key) +
          (if score.Counts() && score.metric == key.0 && key.1 in slices then [score.value.value] else [])
    ensures forall key: Key ::
      ErrorsAt(newErrors, key) == ErrorsAt(errors, key) +
          (if score.errored && score.metric == key.0 && key.1 in slices then 1 else 0)
  {
    hide BucketAt, ErrorsAt, Filled;
    newBuckets, newErrors := buckets, errors;
    var left := slices;
    while left != {}
      invariant left <= slices && Filled(newBuckets, newErrors)
      invariant forall key: Key ::
        BucketAt(newBuckets, key) == BucketAt(buckets, key) +
            (if score.Counts() && score.metric == key.0 && key.1 in slices - left then [score.value.value] else [])
      invariant forall key: Key ::
        ErrorsAt(newErrors, key) == ErrorsAt(errors, key) +
            (if score.errored && score.metric == key.0 && key.1 in slices - left then 1 else 0)
      decreases |left|
    {
      var slice :| slice in left;
      var bucket := (score.metric, slice);
      if score.errored {
        Counted(newBuckets, newErrors, bucket);
        newErrors := newErrors[bucket := ErrorsAt(newErrors, bucket) + 1];
      } else if score.value.Some? {
        Extended(newBuckets, newErrors, bucket, score.value.value);
        newBuckets := newBuckets[bucket := BucketAt(newBuckets, bucket) + [score.value.value]];
      }
      left := left - {slice};
    }
  }

  function BuildMetric(key: Key, values: seq<real>, errorCount: nat): Metric {
    if values == [] then Metric(key.0, key.1, 0.0, 0, errorCount)
    else Metric(key.0, key.1, Sum(values) / |values| as real, |values|, errorCount)
  }

  /** The first i results, and the first j scores of r after them, are in their buckets. */
  ghost predicate Collected(
    results: seq<Scored>, sliceBy: seq<string>, i: nat, r: Scored, j: nat, buckets: map<Key, seq<real>>,
    errors: map<Key, nat>)
    requires i <= |results| && j <= |r.scores|
  {
    && Filled(buckets, errors)
    && (forall key: Key ::
      BucketAt(buckets, key) == Values(results[..i], sliceBy, key) + ScoreValues(r, r.scores[..j], sliceBy, key))
    && (forall key: Key ::
      ErrorsAt(errors, key) == Errors(results[..i], sliceBy, key) + ScoreErrors(r, r.scores[..j], sliceBy, key))
  }

  /** The buckets hold exactly the results. */
  ghost predicate Complete(
    results: seq<Scored>, sliceBy: seq<string>, buckets: map<Key, seq<real>>, errors: map<Key, nat>) {
    && Filled(buckets, errors)
    && (forall key: Key :: BucketAt(buckets, key) == Values(results, sliceBy, key))
    && (forall key: Key :: ErrorsAt(errors, key) == Errors(results, sliceBy, key))
  }

  lemma StartResult(
    results: seq<Scored>, sliceBy: seq<string>, i: nat, r: Scored, buckets: map<Key, seq<real>>,
    errors: map<Key, nat>)
    requires i <= |results| && Complete(results[..i], sliceBy, buckets, errors)
    ensures Collected(results, sliceBy, i, r, 0, buckets, errors)
  {
    hide Values, Errors, BucketAt, ErrorsAt;
  }

  lemma EndResult(
    results: seq<Scored>, sliceBy: seq<string>, i: nat, buckets: map<Key, seq<real>>, errors: map<Key, nat>)
    requires i < |results| && Collected(results, sliceBy, i, results[i], |results[i].scores|, buckets, errors)
    ensures Complete(results[..i + 1], sliceBy, buckets, errors)
  {
    hide ScoreValues, ScoreErrors, BucketAt, ErrorsAt;
    var r := results[i];
    assert r.scores[..|r.scores|] == r.scores;
    assert results[..i + 1][..i] == results[..i];
  }

  function KeyOf(m: Metric): Key {
    (m.key, m.slice)
  }

  /** How many values and errors a metric stands for, and their mean; without a value it is zero. */
  ghost predicate Describes(m: Metric, values: seq<real>, errorCount: nat) {
    && m.count == |values| && m.errorCount == errorCount
    && m.value == if values == [] then 0.0 else Sum(values) / |values| as real
  }

  /** One metric for each bucket that got a value or an error, in whatever order. */
  ghost predicate Summarises(metrics: seq<Metric>, results: seq<Scored>, sliceBy: seq<string>) {
    && (forall i, j :: 0 <= i < j < |metrics| ==> KeyOf(metrics[i]) != KeyOf(metrics[j]))
    && (forall m :: m in metrics ==>
      Describes(m, Values(results, sliceBy, KeyOf(m)), Errors(results, sliceBy, KeyOf(m))))
    && forall key: Key ::
      (exists m :: m in metrics && KeyOf(m) == key) <==>
          Values(results, sliceBy, key) != [] || Errors(results, sliceBy, key) > 0
  }

  method AggregateScores(results: seq<Scored>, sliceBy: seq<string>) returns (metrics: seq<Metric>)
    ensures Summarises(metrics, results, sliceBy)
  {
    hide SlicesOf, Complete, Collected;
    var buckets: map<Key, seq<real>> := map[];
    var errors: map<Key, nat> := map[];
    NothingCollected(results[..0], sliceBy);
    for i := 0 to |results|
      invariant Complete(results[..i], sliceBy, buckets, errors)
    {
      var r := results[i];
      StartResult(results, sliceBy, i, r, buckets, errors);
      for j := 0 to |r.scores|
        invariant Collected(results, sliceBy, i, r, j, buckets, errors)
      {
        buckets, errors := EnterScore(results, sliceBy, i, r, j, buckets, errors);
      }
      EndResult(results, sliceBy, i, buckets, errors);
    }
    assert results[..|results|] == results;
    metrics := BuildAll(results, sliceBy, buckets, errors);
  }

  lemma NothingCollected(results: seq<Scored>, sliceBy: seq<string>)
    requires results == []
    ensures Complete(results, sliceBy, map[], map[])
  {
  }

  /** The loop body over one score. */
  method EnterScore(
    ghost results: seq<Scored>, sliceBy: seq<string>, ghost i: nat, r: Scored, j: nat,
    buckets: map<Key, seq<real>>, errors: map<Key, nat>)
    returns (newBuckets: map<Key, seq<real>>, newErrors: map<Key, nat>)
    requires i <= |results| && j < |r.scores| && Collected(results, sliceBy, i, r, j, buckets, errors)
    ensures Collected(results, sliceBy, i, r, j + 1, newBuckets, newErrors)
  {
    hide Values, Errors, BucketAt, ErrorsAt, SlicesOf, Filled;
    var score := r.scores[j];
    newBuckets, newErrors := Enter(buckets, errors, score, SlicesOf(r, score, sliceBy));
    assert r.scores[..j + 1][..j] == r.scores[..j];
  }

  method BuildAll(
    ghost results: seq<Scored>, ghost sliceBy: seq<string>, buckets: map<Key, seq<real>>,
    errors: map<Key, nat>) returns (metrics: seq<Metric>)
    requires Complete(results, sliceBy, buckets, errors)
    ensures Summarises(metrics, results, sliceBy)
  {
    hide Complete, BucketAt, ErrorsAt, BuildMetric;
    metrics := [];
    ghost var keys: seq<Key> := [];
    var left := buckets.Keys + errors.Keys;
    while left != {}
      invariant left <= buckets.Keys + errors.Keys
      invariant |keys| == |metrics| && Distinct(keys)
      invariant forall key :: key in keys <==> key in buckets.Keys + errors.Keys - left
      invariant forall i :: 0 <= i < |keys| ==>
        metrics[i] == BuildMetric(keys[i], BucketAt(buckets, keys[i]), ErrorsAt(errors, keys[i]))
      decreases |left|
    {
      var key :| key in left;
      assert key !in keys;
      keys, left := keys + [key], left - {key};
      metrics := metrics + [BuildMetric(key, BucketAt(buckets, key), ErrorsAt(errors, key))];
    }
    BuiltAll(results, sliceBy, buckets, errors, keys, metrics);
  }

  lemma BuiltAll(
    results: seq<Scored>, sliceBy: seq<string>, buckets: map<Key, seq<real>>, errors: map<Key, nat>,
    keys: seq<Key>, metrics: seq<Metric>)
    requires Complete(results, sliceBy, buckets, errors)
    requires |keys| == |metrics| && Distinct(keys) && forall key :: key in keys <==> key in buckets || key in errors
    requires forall i :: 0 <= i < |keys| ==>
      metrics[i] == BuildMetric(keys[i], BucketAt(buckets, keys[i]), ErrorsAt(errors, keys[i]))
    ensures Summarises(metrics, results, sliceBy)
  {
    hide Values, Errors;
    forall i | 0 <= i < |metrics|
      ensures KeyOf(metrics[i]) == keys[i]
      ensures Describes(metrics[i], Values(results, sliceBy, keys[i]), Errors(results, sliceBy, keys[i]))
    {
      KeyOfBuilt(keys[i], BucketAt(buckets, keys[i]), ErrorsAt(errors, keys[i]));
    }
    hide BuildMetric, Describes;
    forall key: Key
      ensures (exists m :: m in metrics && KeyOf(m) == key) <==>
          Values(results, sliceBy, key) != [] || Errors(results, sliceBy, key) > 0
    {
      assert BucketAt(buckets, key) == Values(results, sliceBy, key);
      assert ErrorsAt(errors, key) == Errors(results, sliceBy, key);
      if key in keys {
        var i :| 0 <= i < |keys| && keys[i] == key;
        assert metrics[i] in metrics;
      }
    }
  }

  lemma KeyOfBuilt(key: Key, values: seq<real>, errorCount: nat)
    ensures KeyOf(BuildMetric(key, values, errorCount)) == key
    ensures Describes(BuildMetric(key, values, errorCount), values, errorCount)
  {
  }

  // ----------------------------------------------------------------- totals

  /** Any statistic that adds up over the scores of a bucket. */
  ghost function ScoreTotal(r: Scored, scores: seq<Score>, sliceBy: seq<string>, key: Key, f: Score -> real): real {
    if scores == [] then 0.0
    else
      var score := scores[|scores| - 1];
      ScoreTotal(r, scores[..|scores| - 1], sliceBy, key, f) + if Falls(r, score, sliceBy, key) then f(score) else 0.0
  }

  ghost function Total(results: seq<Scored>, sliceBy: seq<string>, key: Key, f: Score -> real): real {
    if results == [] then 0.0
    else
      var r := results[|results| - 1];
      Total(results[..|results| - 1], sliceBy, key, f) + ScoreTotal(r, r.scores, sliceBy, key, f)
  }

  function One(): Score -> real {
    (score: Score) => if score.Counts() then 1.0 else 0.0
  }

  function ValueOf(): Score -> real {
    (score: Score) => if score.Counts() then score.value.value else 0.0
  }

  function ErrorOf(): Score -> real {
    (score: Score) => if score.errored then 1.0 else 0.0
  }

  lemma {:induction false} SumAppend(a: seq<real>, b: seq<real>)
    ensures Sum(a + b) == Sum(a) + Sum(b)
  {
    if b == [] {
      assert a + b == a;
    } else {
      SumAppend(a, b[..|b| - 1]);
      assert (a + b)[..|a + b| - 1] == a + b[..|b| - 1];
    }
  }

  lemma {:induction false} ScoreTotalsAre(r: Scored, scores: seq<Score>, sliceBy: seq<string>, key: Key)
    ensures |ScoreValues(r, scores, sliceBy, key)| as real == ScoreTotal(r, scores, sliceBy, key, One())
    ensures Sum(ScoreValues(r, scores, sliceBy, key)) == ScoreTotal(r, scores, sliceBy, key, ValueOf())
    ensures ScoreErrors(r, scores, sliceBy, key) as real == ScoreTotal(r, scores, sliceBy, key, ErrorOf())
  {
    hide Falls;
    if scores != [] {
      var last := |scores| - 1;
      ScoreTotalsAre(r, scores[..last], sliceBy, key);
      var before := ScoreValues(r, scores[..last], sliceBy, key);
      if scores[last].Counts() && Falls(r, scores[last], sliceBy, key) {
        assert ScoreValues(r, scores, sliceBy, key) == before + [scores[last].value.value];
      } else {
        assert ScoreValues(r, scores, sliceBy, key) == before;
      }
    }
  }

  /** Counts, sums of values and error counts are such statistics. */
  lemma {:induction false} TotalsAre(results: seq<Scored>, sliceBy: seq<string>, key: Key)
    ensures |Values(results, sliceBy, key)| as real == Total(results, sliceBy, key, One())
    ensures Sum(Values(results, sliceBy, key)) == Total(results, sliceBy, key, ValueOf())
    ensures Errors(results, sliceBy, key) as real == Total(results, sliceBy, key, ErrorOf())
  {
    hide ScoreValues, ScoreErrors, ScoreTotal, One, ValueOf, ErrorOf;
    if results != [] {
      var last := |results| - 1;
      TotalsAre(results[..last], sliceBy, key);
      ScoreTotalsAre(results[last], results[last].scores, sliceBy, key);
      SumAppend(Values(results[..last], sliceBy, key), ScoreValues(results[last], results[last].scores, sliceBy, key));
    }
  }
}
