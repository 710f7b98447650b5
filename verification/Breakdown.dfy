/** Error direction and per-class behaviour of a judge (packages/evaluation-core/src/proofstep_core/calibration.py). */
module Breakdown {
  import opened Common
  import opened Reals
  import opened Sorting
  import opened Labels
  import opened Agreement
  import opened Kappa
  import opened KappaSums

  // ----------------------------------------------------------------- which way the errors go

  /** Pairs whose human label does, or does not, count as passing. */
  function HumanCount(pairs: seq<Pair>, passing: set<string>, passed: bool): nat {
    if pairs == [] then 0
    else
      var p := pairs[|pairs| - 1];
      HumanCount(pairs[..|pairs| - 1], passing, passed) + if (p.0 in passing) == passed then 1 else 0
  }

  /** Of those, the ones the judge sees the other way. */
  function Crossings(pairs: seq<Pair>, passing: set<string>, passed: bool): nat {
    if pairs == [] then 0
    else
      var p := pairs[|pairs| - 1];
      Crossings(pairs[..|pairs| - 1], passing, passed) +
        if (p.0 in passing) == passed && (p.1 in passing) != passed then 1 else 0
  }

  function Rate(part: nat, whole: nat): Option<real> {
    if whole == 0 then None else Some(part as real / whole as real)
  }

  /** False passes among what humans failed, false fails among what humans passed. */
  function DirectionalErrorRates(pairs: seq<Pair>, passing: set<string>): (Option<real>, Option<real>) {
    (Rate(Crossings(pairs, passing, false), HumanCount(pairs, passing, false)),
     Rate(Crossings(pairs, passing, true), HumanCount(pairs, passing, true)))
  }

  function Matches(pairs: seq<Pair>): nat {
    if pairs == [] then 0
    else Matches(pairs[..|pairs| - 1]) + if pairs[|pairs| - 1].0 == pairs[|pairs| - 1].1 then 1 else 0
  }

  /** Both counts are sizes of index sets. */
  lemma {:induction false} CrossingsCounted(pairs: seq<Pair>, passing: set<string>, passed: bool)
    ensures HumanCount(pairs, passing, passed) == |set i | 0 <= i < |pairs| && (pairs[i].0 in passing) == passed|
    ensures Crossings(pairs, passing, passed) ==
        |set i | 0 <= i < |pairs| && (pairs[i].0 in passing) == passed && (pairs[i].1 in passing) != passed|
  {
    var h := i => 0 <= i < |pairs| && (pairs[i].0 in passing) == passed;
    var x := i => 0 <= i < |pairs| && (pairs[i].0 in passing) == passed && (pairs[i].1 in passing) != passed;
    assert (set i | 0 <= i < |pairs| && (pairs[i].0 in passing) == passed) == Hits(|pairs|, h);
    assert (set i | 0 <= i < |pairs| && (pairs[i].0 in passing) == passed && (pairs[i].1 in passing) != passed)
        == Hits(|pairs|, x);
    if pairs != [] {
      var last := |pairs| - 1;
      var ps := pairs[..last];
      CrossingsCounted(ps, passing, passed);
      var h' := i => 0 <= i < last && (ps[i].0 in passing) == passed;
      var x' := i => 0 <= i < last && (ps[i].0 in passing) == passed && (ps[i].1 in passing) != passed;
      assert (set i | 0 <= i < last && (ps[i].0 in passing) == passed) == Hits(last, h');
      assert (set i | 0 <= i < last && (ps[i].0 in passing) == passed && (ps[i].1 in passing) != passed)
          == Hits(last, x');
      HitsNext(last, h, h');
      HitsNext(last, x, x');
    }
  }

  /** One rate: the share, among the pairs the human put on that side, of those the judge put on the other. */
  ghost predicate IsErrorRate(rate: Option<real>, pairs: seq<Pair>, passing: set<string>, passed: bool) {
    var side := set i | 0 <= i < |pairs| && (pairs[i].0 in passing) == passed;
    var crossed := set i | 0 <= i < |pairs| && (pairs[i].0 in passing) == passed && (pairs[i].1 in passing) != passed;
    rate == if side == {} then None else Some(|crossed| as real / |side| as real)
  }

  /** False passes are counted among what humans failed, false fails among what they passed. */
  lemma RatesAreShares(pairs: seq<Pair>, passing: set<string>)
    ensures IsErrorRate(DirectionalErrorRates(pairs, passing).0, pairs, passing, false)
    ensures IsErrorRate(DirectionalErrorRates(pairs, passing).1, pairs, passing, true)
  {
    CrossingsCounted(pairs, passing, false);
    CrossingsCounted(pairs, passing, true);
  }

  lemma {:induction false} CrossingCounts(pairs: seq<Pair>, passing: set<string>)
    ensures HumanCount(pairs, passing, false) + HumanCount(pairs, passing, true) == |pairs|
    ensures Crossings(pairs, passing, false) <= HumanCount(pairs, passing, false)
    ensures Crossings(pairs, passing, true) <= HumanCount(pairs, passing, true)
    ensures Crossings(pairs, passing, false) + Crossings(pairs, passing, true) + Matches(pairs) <= |pairs|
  {
    if pairs != [] { CrossingCounts(pairs[..|pairs| - 1], passing); }
  }

  /** A rate times its denominator, where it was measured. */
  ghost function Weighted(rate: Option<real>, whole: nat): real {
    if rate.Some? then rate.value * whole as real else 0.0
  }

  lemma RateTimesWhole(part: nat, whole: nat)
    requires part <= whole
    ensures Weighted(Rate(part, whole), whole) == part as real
    ensures Rate(part, whole).None? <==> whole == 0
    ensures Rate(part, whole).Some? ==> 0.0 <= Rate(part, whole).value <= 1.0
  {
    if whole > 0 {
      QuotientOrder(part as real, whole as real, 0.0);
      QuotientOrder(part as real, whole as real, 1.0);
    }
  }

  /** Each rate is absent exactly when unmeasured, else a share; together they count the pairs judged the other way. */
  lemma RatesAccountForCrossings(pairs: seq<Pair>, passing: set<string>)
    ensures
      var rates := DirectionalErrorRates(pairs, passing);
      var failed, passed := HumanCount(pairs, passing, false), HumanCount(pairs, passing, true);
      && (rates.0.None? <==> failed == 0) && (rates.1.None? <==> passed == 0)
      && (rates.0.Some? ==> 0.0 <= rates.0.value <= 1.0) && (rates.1.Some? ==> 0.0 <= rates.1.value <= 1.0)
      && failed + passed == |pairs|
      && Weighted(rates.0, failed) + Weighted(rates.1, passed)
         == (Crossings(pairs, passing, false) + Crossings(pairs, passing, true)) as real
         <= (|pairs| - Matches(pairs)) as real
  {
    hide Weighted, Rate;
    CrossingCounts(pairs, passing);
    RateTimesWhole(Crossings(pairs, passing, false), HumanCount(pairs, passing, false));
    RateTimesWhole(Crossings(pairs, passing, true), HumanCount(pairs, passing, true));
  }

  // ----------------------------------------------------------------- class by class

  datatype ClassBreakdown = ClassBreakdown(category: string, support: int, recall: real, precision: real,
      topConfusion: Option<(string, int)>)

  predicate MoreConfused(a: (string, int), b: (string, int)) {
    a.1 > b.1 || (a.1 == b.1 && StringLe(a.0, b.0))
  }

  lemma ConfusedOrder()
    ensures TotalPreorder(MoreConfused)
  {
    forall a, b
      ensures MoreConfused(a, b) || MoreConfused(b, a)
    {
      StringTotal(a.0, b.0);
    }
    forall a, b, c | MoreConfused(a, b) && MoreConfused(b, c)
      ensures MoreConfused(a, c)
    {
      if a.1 == b.1 == c.1 { StringTransitive(a.0, b.0, c.0); }
    }
  }

  /** The label the judge most often puts in place of x, the smallest such label on a tie; absent if there is none. */
  ghost predicate IsTopConfusion(m: ConfusionMatrix, x: string, top: Option<(string, int)>) {
    match top
    case None => forall other :: other in m.labels && other != x ==> m.Get(x, other) == 0
    case Some(t) =>
      && t.0 in m.labels && t.0 != x && t.1 == m.Get(x, t.0) > 0
      && forall other :: other in m.labels && other != x ==>
        && m.Get(x, other) <= t.1
        && (m.Get(x, other) == t.1 ==> StringLe(t.0, other))
  }

  method TopConfusion(m: ConfusionMatrix, x: string) returns (top: Option<(string, int)>)
    ensures IsTopConfusion(m, x, top)
  {
    var confusions: seq<(string, int)> := [];
    for i := 0 to |m.labels|
      invariant forall c :: c in confusions <==> c.0 in m.labels[..i] && c.0 != x && c.1 == m.Get(x, c.0)
    {
      assert m.labels[..i + 1] == m.labels[..i] + [m.labels[i]];
      if m.labels[i] != x { confusions := confusions + [(m.labels[i], m.Get(x, m.labels[i]))]; }
    }
    assert m.labels[..|m.labels|] == m.labels;
    ConfusedOrder();
    SortSorts(confusions, MoreConfused);
    SortMembers(confusions, MoreConfused);
    var sorted := StableSort(confusions, MoreConfused);
    if sorted != [] {
      assert sorted[0] in sorted;
      forall other | other in m.labels && other != x
        ensures MoreConfused(sorted[0], (other, m.Get(x, other)))
      {
        assert (other, m.Get(x, other)) in sorted;
        var k :| 0 <= k < |sorted| && sorted[k] == (other, m.Get(x, other));
      }
    } else {
      forall other | other in m.labels && other != x
        ensures (other, m.Get(x, other)) in sorted
      {
      }
    }
    top := if sorted != [] && sorted[0].1 > 0 then Some(sorted[0]) else None;
  }

  /** What the breakdown says of one label. */
  ghost predicate Describes(m: ConfusionMatrix, x: string, c: ClassBreakdown) {
    && c.category == x
    && c.support == m.RowTotal(x)
    && c.recall == Or(Rate(m.Get(x, x), m.RowTotal(x)), 0.0)
    && c.precision == Or(Rate(m.Get(x, x), m.ColumnTotal(x)), 0.0)
    && IsTopConfusion(m, x, c.topConfusion)
  }

  method PerClassBreakdown(m: ConfusionMatrix) returns (out: seq<ClassBreakdown>)
    ensures |out| == |m.labels| && forall i :: 0 <= i < |out| ==> Describes(m, m.labels[i], out[i])
  {
    hide IsTopConfusion;
    out := [];
    for i := 0 to |m.labels|
      invariant |out| == i && forall k :: 0 <= k < i ==> Describes(m, m.labels[k], out[k])
    {
      var x := m.labels[i];
      var support, predicted, hits := m.RowTotal(x), m.ColumnTotal(x), m.Get(x, x);
      var top := TopConfusion(m, x);
      out := out + [ClassBreakdown(x, support, Or(Rate(hits, support), 0.0), Or(Rate(hits, predicted), 0.0), top)];
    }
  }

  // ----------------------------------------------------------------- recall, precision and agreement

  /** Supports and support-weighted recalls, and the same for predictions and precision. */
  ghost function Supports(m: ConfusionMatrix, out: seq<ClassBreakdown>): (int, real, real)
    requires |out| <= |m.labels|
  {
    if out == [] then (0, 0.0, 0.0)
    else
      var c, before := out[|out| - 1], Supports(m, out[..|out| - 1]);
      (before.0 + c.support, before.1 + Times(c.support, c.recall), before.2 +
          Times(m.ColumnTotal(m.labels[|out| - 1]), c.precision))
  }

  ghost function Diagonal(labels: seq<string>, pairs: seq<Pair>): nat {
    if labels == [] then 0
    else Diagonal(labels[..|labels| - 1], pairs) + multiset(pairs)[(labels[|labels| - 1], labels[|labels| - 1])]
  }

  lemma {:induction false} DiagonalStep(labels: seq<string>, pairs: seq<Pair>)
    requires pairs != [] && Distinct(labels)
    ensures var p := pairs[|pairs| - 1];
      Diagonal(labels, pairs) == Diagonal(labels, pairs[..|pairs| - 1]) + if p.0 == p.1 && p.0 in labels then 1 else 0
  {
    var last := |pairs| - 1;
    assert pairs == pairs[..last] + [pairs[last]];
    if labels != [] {
      DiagonalStep(labels[..|labels| - 1], pairs);
      assert labels == labels[..|labels| - 1] + [labels[|labels| - 1]];
      if pairs[last].0 == labels[|labels| - 1] { assert labels[|labels| - 1] !in labels[..|labels| - 1]; }
    }
  }

  lemma {:induction false} NoDiagonal(labels: seq<string>)
    ensures Diagonal(labels, []) == 0
  {
    if labels != [] { NoDiagonal(labels[..|labels| - 1]); }
  }

  lemma {:induction false} DiagonalIsMatches(labels: seq<string>, pairs: seq<Pair>)
    requires Distinct(labels) && Covers(labels, pairs)
    ensures Diagonal(labels, pairs) == Matches(pairs)
  {
    if pairs == [] {
      NoDiagonal(labels);
    } else {
      DiagonalIsMatches(labels, pairs[..|pairs| - 1]);
      DiagonalStep(labels, pairs);
      assert pairs[|pairs| - 1] in pairs;
    }
  }

  lemma {:induction false} HitsWithin(pairs: seq<Pair>, x: string)
    ensures multiset(pairs)[(x, x)] <= multiset(Humans(pairs))[x]
    ensures multiset(pairs)[(x, x)] <= multiset(Judges(pairs))[x]
  {
    if pairs != [] {
      var last := |pairs| - 1;
      assert pairs == pairs[..last] + [pairs[last]];
      HitsWithin(pairs[..last], x);
    }
  }

  /** How often the labels occur in xs, together. */
  ghost function Occurrences(labels: seq<string>, xs: seq<string>): nat {
    if labels == [] then 0 else Occurrences(labels[..|labels| - 1], xs) + multiset(xs)[labels[|labels| - 1]]
  }

  lemma {:induction false} OccurrencesStep(labels: seq<string>, xs: seq<string>)
    requires xs != [] && Distinct(labels)
    ensures Occurrences(labels, xs) == Occurrences(labels, xs[..|xs| - 1]) + if xs[|xs| - 1] in labels then 1 else 0
  {
    var last := |xs| - 1;
    assert xs == xs[..last] + [xs[last]];
    if labels != [] {
      OccurrencesStep(labels[..|labels| - 1], xs);
      assert labels == labels[..|labels| - 1] + [labels[|labels| - 1]];
      if xs[last] == labels[|labels| - 1] { assert labels[|labels| - 1] !in labels[..|labels| - 1]; }
    }
  }

  lemma {:induction false} NoOccurrences(labels: seq<string>)
    ensures Occurrences(labels, []) == 0
  {
    if labels != [] { NoOccurrences(labels[..|labels| - 1]); }
  }

  lemma {:induction false} OccurrencesOfHumans(labels: seq<string>, pairs: seq<Pair>)
    requires Distinct(labels) && Covers(labels, pairs)
    ensures Occurrences(labels, Humans(pairs)) == |pairs|
  {
    if pairs == [] {
      NoOccurrences(labels);
    } else {
      OccurrencesOfHumans(labels, pairs[..|pairs| - 1]);
      OccurrencesStep(labels, Humans(pairs));
      assert Humans(pairs)[..|Humans(pairs)| - 1] == Humans(pairs[..|pairs| - 1]);
    }
  }

  lemma RateBack(part: nat, whole: nat)
    requires part <= whole
    ensures Times(whole, Or(Rate(part, whole), 0.0)) == part as real
    ensures 0.0 <= Or(Rate(part, whole), 0.0) <= 1.0
  {
    RateTimesWhole(part, whole);
  }

  /** What one label contributes to the sums. */
  lemma DescribedTerms(labels: seq<string>, pairs: seq<Pair>, x: string, c: ClassBreakdown)
    requires Distinct(labels) && Covers(labels, pairs) && Describes(Matrix(labels, pairs), x, c)
    ensures c.support == multiset(Humans(pairs))[x]
    ensures Times(c.support, c.recall) == multiset(pairs)[(x, x)] as real
    ensures Times(Matrix(labels, pairs).ColumnTotal(x), c.precision) == multiset(pairs)[(x, x)] as real
  {
    hide Times, Or, IsTopConfusion, Rate, Distinct, Covers, ConfusionMatrix.RowTotal, ConfusionMatrix.ColumnTotal;
    var m := Matrix(labels, pairs);
    TotalsAreCounts(labels, pairs, x);
    HitsWithin(pairs, x);
    RateBack(m.Get(x, x), m.RowTotal(x));
    RateBack(m.Get(x, x), m.ColumnTotal(x));
  }

  lemma {:induction false} SupportsUpTo(labels: seq<string>, pairs: seq<Pair>, out: seq<ClassBreakdown>, i: nat)
    requires Distinct(labels) && Covers(labels, pairs) && i <= |out| == |labels|
    requires forall k :: 0 <= k < |out| ==> Describes(Matrix(labels, pairs), labels[k], out[k])
    ensures
      var sums := Supports(Matrix(labels, pairs), out[..i]);
      && sums.0 == Occurrences(labels[..i], Humans(pairs))
      && sums.1 == sums.2 == Diagonal(labels[..i], pairs) as real
  {
    hide Times, Describes, Distinct, Covers, ConfusionMatrix.ColumnTotal, Humans, Matrix;
    if i > 0 {
      SupportsUpTo(labels, pairs, out, i - 1);
      var x := labels[i - 1];
      assert out[..i][..i - 1] == out[..i - 1];
      assert labels[..i][..i - 1] == labels[..i - 1];
      assert Describes(Matrix(labels, pairs), x, out[i - 1]);
      DescribedTerms(labels, pairs, x, out[i - 1]);
      MatrixLabels(labels, pairs);
    }
  }

  lemma MatrixLabels(labels: seq<string>, pairs: seq<Pair>)
    ensures Matrix(labels, pairs).labels == labels
  {
  }

  /**
   Supports add up to the pairs; weighted by support, recall adds up to the matches, and by
   predictions, precision does.
   */
  lemma BreakdownAddsUp(labels: seq<string>, pairs: seq<Pair>, out: seq<ClassBreakdown>)
    requires Distinct(labels) && Covers(labels, pairs) && |out| == |labels|
    requires forall k :: 0 <= k < |out| ==> Describes(Matrix(labels, pairs), labels[k], out[k])
    ensures Supports(Matrix(labels, pairs), out) == (|pairs|, Matches(pairs) as real, Matches(pairs) as real)
  {
    hide Describes, Supports, Diagonal, Occurrences, Matches, Distinct, Covers;
    SupportsUpTo(labels, pairs, out, |out|);
    assert out[..|out|] == out && labels[..|labels|] == labels;
    OccurrencesOfHumans(labels, pairs);
    DiagonalIsMatches(labels, pairs);
  }
}
