/** Matching two runs example by example (packages/evaluation-core/src/proofstep_core/significance.py). */
module Pairing {
  import opened Common
  import opened Sorting
  import opened Labels
  import opened Scores
  import opened Journal
  import opened Significance

  /** The last reading of the metric among the scores, if any. */
  function LastReading(scores: seq<Score>, metric: string): Option<real> {
    if scores == [] then None
    else
      var score := scores[|scores| - 1];
      if score.metric == metric &&
          score.Reading().Some? then score.Reading() else LastReading(scores[..|scores| - 1], metric)
  }

  /** The last reading of the metric for that example, if any. */
  function ReadingOf(results: seq<ExampleResult>, metric: string, id: string): Option<real> {
    if results == [] then None
    else
      var r := results[|results| - 1];
      var here := LastReading(r.scored.scores, metric);
      if r.id == id && here.Some? then here else ReadingOf(results[..|results| - 1], metric, id)
  }

  ghost predicate Reads(values: map<string, real>, results: seq<ExampleResult>, metric: string) {
    forall id :: (id in values <==> ReadingOf(results, metric, id).Some?) &&
        (id in values ==> ReadingOf(results, metric, id) == Some(values[id]))
  }

  method ScoreByExample(results: seq<ExampleResult>, metric: string) returns (values: map<string, real>)
    ensures Reads(values, results, metric)
  {
    values := map[];
    for i := 0 to |results|
      invariant Reads(values, results[..i], metric)
    {
      var r := results[i];
      ghost var before := values;
      for j := 0 to |r.scored.scores|
        invariant values == match LastReading(r.scored.scores[..j],
            metric) case None => before case Some(v) => before[r.id := v]
      {
        assert r.scored.scores[..j + 1][..j] == r.scored.scores[..j];
        var score := r.scored.scores[j];
        if score.metric != metric || score.errored {
          continue;
        }
        var value := score.value;
        if value.None? && score.passed.Some? {
          value := Some(if score.passed.value then 1.0 else 0.0);
        }
        if value.Some? { values := values[r.id := value.value]; }
      }
      assert r.scored.scores[..|r.scored.scores|] == r.scored.scores;
      assert results[..i + 1][..i] == results[..i];
    }
    assert results[..|results|] == results;
  }

  function IdsOf(results: seq<ExampleResult>): seq<string> {
    if results == [] then [] else IdsOf(results[..|results| - 1]) + [results[|results| - 1].id]
  }

  function IdSet(results: seq<ExampleResult>): set<string> {
    set r | r in results :: r.id
  }

  lemma {:induction false} IdsAre(results: seq<ExampleResult>)
    ensures forall id :: id in IdsOf(results) <==> id in IdSet(results)
  {
    if results != [] {
      var last := |results| - 1;
      IdsAre(results[..last]);
      assert results == results[..last] + [results[last]];
    }
  }

  lemma {:induction false} ReadingNamesId(results: seq<ExampleResult>, metric: string, id: string)
    requires ReadingOf(results, metric, id).Some?
    ensures id in IdSet(results)
  {
    var last := |results| - 1;
    if results[last].id == id {
      assert results[last] in results;
    } else {
      ReadingNamesId(results[..last], metric, id);
    }
  }

  function Both(ids: seq<string>, a: map<string, real>, b: map<string, real>): (r: seq<string>)
    ensures forall id :: id in r <==> id in ids && id in a && id in b
  {
    if ids == [] then []
    else
      var last := |ids| - 1;
      assert ids == ids[..last] + [ids[last]];
      Both(ids[..last], a, b) + if ids[last] in a && ids[last] in b then [ids[last]] else []
  }

  datatype Pairs = Pairs(shared: seq<string>, candidate: seq<real>, baseline: seq<real>, onlyCandidate: nat,
      onlyBaseline: nat, errored: nat)
  {
    function Dropped(): nat {
      onlyCandidate + onlyBaseline + errored
    }

    /** What the tests work on. */
    function ScoresFor(metric: string): PairedScores {
      PairedScores(metric, candidate, baseline, Dropped())
    }
  }

  /** Exactly the examples read on both sides are paired, once each, in id order, with both readings. */
  ghost predicate Matches(p: Pairs, candidate: seq<ExampleResult>, baseline: seq<ExampleResult>, metric: string) {
    && SortedBy(p.shared, StringLe) && Distinct(p.shared)
    && (forall id ::
      id in p.shared <==> ReadingOf(candidate, metric, id).Some? && ReadingOf(baseline, metric, id).Some?)
    && |p.candidate| == |p.baseline| == |p.shared|
    && (forall i :: 0 <= i < |p.shared| ==>
        Some(p.candidate[i]) == ReadingOf(candidate, metric, p.shared[i]) &&
            Some(p.baseline[i]) == ReadingOf(baseline, metric, p.shared[i]))
  }

  function ValuesAt(ids: seq<string>, values: map<string, real>): (r: seq<real>)
    requires forall id :: id in ids ==> id in values
    ensures |r| == |ids| && forall i :: 0 <= i < |ids| ==> r[i] == values[ids[i]]
  {
    if ids == [] then []
    else
      var last := |ids| - 1;
      assert ids[last] in ids && forall id :: id in ids[..last] ==> id in ids;
      ValuesAt(ids[..last], values) + [values[ids[last]]]
  }

  method MatchReadings(candidate: seq<ExampleResult>, baseline: seq<ExampleResult>, metric: string) returns (p: Pairs)
    ensures Matches(p, candidate, baseline, metric)
    ensures forall id :: id in p.shared ==> id in IdSet(candidate) && id in IdSet(baseline)
  {
    hide StringLe, SortedBy, ReadingOf, IdSet, IdsOf, Both, ValuesAt, SortedSet;
    var cand := ScoreByExample(candidate, metric);
    var base := ScoreByExample(baseline, metric);
    SharedAre(candidate, baseline, metric, cand, base);
    var shared := SortedSet(Both(IdsOf(candidate), cand, base));
    p := Pairs(shared, ValuesAt(shared, cand), ValuesAt(shared, base), 0, 0, 0);
  }

  /** And every other example is counted once: run on one side only, or without a reading on one. */
  ghost predicate IsPairing(p: Pairs, candidate: seq<ExampleResult>, baseline: seq<ExampleResult>, metric: string) {
    && Matches(p, candidate, baseline, metric)
    && |IdSet(candidate)| == |p.shared| + p.errored + p.onlyCandidate
    && |IdSet(baseline)| == |p.shared| + p.errored + p.onlyBaseline
    && |IdSet(candidate) + IdSet(baseline)| == |p.shared| + p.Dropped()
  }

  method Pair(candidate: seq<ExampleResult>, baseline: seq<ExampleResult>, metric: string) returns (p: Pairs)
    ensures IsPairing(p, candidate, baseline, metric)
  {
    hide StringLe, SortedBy, ReadingOf, IdSet;
    p := MatchReadings(candidate, baseline, metric);
    var candidateIds, baselineIds := IdSet(candidate), IdSet(baseline);
    var errored := |candidateIds * baselineIds - (set id | id in p.shared)|;
    Accounts(p.shared, candidateIds, baselineIds);
    p := p.(onlyCandidate := |candidateIds - baselineIds|, onlyBaseline := |baselineIds - candidateIds|,
        errored := errored);
  }

  lemma Accounts(shared: seq<string>, a: set<string>, b: set<string>)
    requires Distinct(shared) && forall id :: id in shared ==> id in a && id in b
    ensures var errored := |a * b - (set id | id in shared)|;
      && |a| == |shared| + errored + |a - b|
      && |b| == |shared| + errored + |b - a|
      && |a + b| == |shared| + errored + |a - b| + |b - a|
  {
    CommonSplit(shared, a * b);
    SetSplit(a, b);
    SetSplit(b, a);
    assert b * a == a * b;
    UnionSplit(a, b);
  }

  lemma SharedAre(
    candidate: seq<ExampleResult>, baseline: seq<ExampleResult>, metric: string, cand: map<string, real>,
    base: map<string, real>)
    requires Reads(cand, candidate, metric) && Reads(base, baseline, metric)
    ensures forall id :: id in Both(IdsOf(candidate), cand, base) <==> id in cand && id in base
    ensures forall id :: id in cand && id in base ==> id in IdSet(candidate) && id in IdSet(baseline)
  {
    IdsAre(candidate);
    forall id | id in cand && id in base
      ensures id in IdsOf(candidate) && id in IdSet(candidate) && id in IdSet(baseline)
    {
      ReadingNamesId(candidate, metric, id);
      ReadingNamesId(baseline, metric, id);
    }
  }

  lemma CommonSplit(shared: seq<string>, common: set<string>)
    requires Distinct(shared) && forall id :: id in shared ==> id in common
    ensures |common| == |shared| + |common - (set id | id in shared)|
  {
    SetOfSeqSize(shared);
    var paired := set id | id in shared;
    assert common == paired + (common - paired);
  }

  lemma SetSplit<T>(a: set<T>, b: set<T>)
    ensures |a| == |a * b| + |a - b|
  {
    assert a == a * b + (a - b);
  }

  lemma UnionSplit<T>(a: set<T>, b: set<T>)
    ensures |a + b| == |a * b| + |a - b| + |b - a|
  {
    assert a + b == a * b + (a - b) + (b - a);
  }

  /** Two runs pair in one way only. */
  lemma PairIsUnique(p: Pairs, q: Pairs, candidate: seq<ExampleResult>, baseline: seq<ExampleResult>, metric: string)
    requires IsPairing(p, candidate, baseline, metric) && IsPairing(q, candidate, baseline, metric)
    ensures p == q
  {
    hide ReadingOf, SortedBy, IdSet;
    SameShared(p.shared, q.shared);
    assert p.candidate == q.candidate && p.baseline == q.baseline;
  }

  /** Comparing the other way round pairs the same examples and negates every difference. */
  lemma PairMirrors(p: Pairs, q: Pairs, candidate: seq<ExampleResult>, baseline: seq<ExampleResult>, metric: string)
    requires Matches(p, candidate, baseline, metric) && Matches(q, baseline, candidate, metric)
    ensures q.shared == p.shared && q.candidate == p.baseline && q.baseline == p.candidate
    ensures forall i :: 0 <= i < |p.shared| ==> q.candidate[i] - q.baseline[i] == -(p.candidate[i] - p.baseline[i])
  {
    SameShared(p.shared, q.shared);
    forall i | 0 <= i < |p.shared|
      ensures q.candidate[i] == p.baseline[i] && q.baseline[i] == p.candidate[i]
    {
      assert p.shared[i] == q.shared[i];
    }
  }

  lemma SameShared(a: seq<string>, b: seq<string>)
    requires SortedBy(a, StringLe) && Distinct(a) && SortedBy(b, StringLe) && Distinct(b)
    requires forall id :: id in a <==> id in b
    ensures a == b
  {
    forall x
      ensures multiset(a)[x] == multiset(b)[x]
    {
      DistinctCount(a, x);
      DistinctCount(b, x);
    }
    forall x, y | StringLe(x, y) && StringLe(y, x)
      ensures x == y
    {
      StringTotal(x, y);
    }
    SortedUnique(a, b, StringLe);
  }

  function WithoutErrored(scores: seq<Score>): seq<Score> {
    if scores == [] then []
    else WithoutErrored(scores[..|scores| - 1]) + if scores[|scores| - 1].errored then [] else [scores[|scores| - 1]]
  }

  /** An errored score is an absence of measurement: it changes no reading. */
  lemma {:induction false} ErroredReadsNothing(scores: seq<Score>, metric: string)
    ensures LastReading(scores, metric) == LastReading(WithoutErrored(scores), metric)
  {
    if scores != [] {
      var last := |scores| - 1;
      var kept := WithoutErrored(scores[..last]);
      ErroredReadsNothing(scores[..last], metric);
      if scores[last].errored {
        assert kept + [] == kept;
      } else {
        assert (kept + [scores[last]])[..|kept|] == kept;
      }
    }
  }
}
