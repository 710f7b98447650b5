/**
 The paired percentile bootstrap (packages/evaluation-core/src/proofstep_core/significance.py), in
 exact arithmetic, for whatever indices the random generator draws.
 */
module Bootstrap {
  import opened Common
  import opened Reals
  import opened Sorting
  import opened McNemar

  function Mean(xs: seq<real>): real
    requires xs != []
  {
    Sum(xs) / |xs| as real
  }

  /** The values a draw of indices picks out. */
  function Resample(xs: seq<real>, draw: seq<nat>): (r: seq<real>)
    requires forall k :: 0 <= k < |draw| ==> draw[k] < |xs|
    ensures |r| == |draw|
  {
    seq(|draw|, k requires 0 <= k < |draw| => xs[draw[k]])
  }

  ghost predicate Within(xs: seq<real>, low: real, high: real) {
    forall k :: 0 <= k < |xs| ==> low <= xs[k] <= high
  }

  lemma {:induction false} SumWithin(xs: seq<real>, low: real, high: real)
    requires Within(xs, low, high)
    ensures |xs| as real * low <= Sum(xs) <= |xs| as real * high
  {
    if xs != [] {
      SumWithin(xs[..|xs| - 1], low, high);
      assert |xs| as real * low == (|xs| - 1) as real * low + low;
      assert |xs| as real * high == (|xs| - 1) as real * high + high;
    }
  }

  lemma MeanWithin(xs: seq<real>, low: real, high: real)
    requires xs != [] && Within(xs, low, high)
    ensures low <= Mean(xs) <= high
  {
    SumWithin(xs, low, high);
    hide Sum;
    QuotientOrder(Sum(xs), |xs| as real, low);
    QuotientOrder(Sum(xs), |xs| as real, high);
  }

  ghost predicate ValidDraws(n: nat, draws: seq<seq<nat>>) {
    forall i :: 0 <= i < |draws| ==> |draws[i]| == n && forall k :: 0 <= k < n ==> draws[i][k] < n
  }

  /** The resampled means, in the order they are drawn. */
  ghost function Means(xs: seq<real>, draws: seq<seq<nat>>): (r: seq<real>)
    requires xs != [] && ValidDraws(|xs|, draws)
    ensures |r| == |draws|
  {
    seq(|draws|, i requires 0 <= i < |draws| => Mean(Resample(xs, draws[i])))
  }

  function RealLe(): (real, real) -> bool {
    (a, b) => a <= b
  }

  ghost function SortedMeans(xs: seq<real>, draws: seq<seq<nat>>): (r: seq<real>)
    requires xs != [] && ValidDraws(|xs|, draws)
    ensures |r| == |draws|
  {
    StableSort(Means(xs, draws), RealLe())
  }

  // ----------------------------------------------------------------- percentile indices

  function CeilingOf(x: real): int {
    -((-x).Floor)
  }

  function Tails(confidence: real): real {
    (1.0 - confidence) / 2.0
  }

  /** How many of the resampled means one tail may hold. */
  function InTail(iterations: nat, confidence: real): real {
    Tails(confidence) * iterations as real
  }

  function LowIndex(iterations: nat, confidence: real): int {
    Max(0, InTail(iterations, confidence).Floor - 1)
  }

  function HighIndex(iterations: nat, confidence: real): int {
    Min(iterations - 1, CeilingOf((1.0 - Tails(confidence)) * iterations as real) - 1)
  }

  /** The share of the resamples either index leaves out on its side, before rounding. */
  ghost predicate IsTail(iterations: nat, confidence: real, below: real, upTo: real) {
    var tail := (1.0 - confidence) / 2.0;
    below == tail * iterations as real && upTo == (1.0 - tail) * iterations as real
  }

  lemma IndicesFrom(iterations: nat, confidence: real, below: real, upTo: real)
    requires IsTail(iterations, confidence, below, upTo)
    ensures LowIndex(iterations, confidence) == Max(0, below.Floor - 1)
    ensures HighIndex(iterations, confidence) == Min(iterations - 1, CeilingOf(upTo) - 1)
    ensures InTail(iterations, confidence) == below
  {
  }

  lemma TailBounds(iterations: nat, confidence: real, below: real, upTo: real)
    requires iterations >= 1 && 0.0 <= confidence <= 1.0 && IsTail(iterations, confidence, below, upTo)
    ensures 0.0 <= below <= upTo && upTo >= 0.5 && below + upTo == iterations as real
  {
    HalfProducts((1.0 - confidence) / 2.0, iterations as real, below, upTo);
  }

  /** The indices are in bounds and ordered; one below the floor of a tail, one below the ceiling of the rest. */
  lemma PercentileIndices(iterations: nat, confidence: real, below: real, upTo: real)
    requires iterations >= 1 && 0.0 <= confidence <= 1.0 && IsTail(iterations, confidence, below, upTo)
    ensures var low, high := LowIndex(iterations, confidence), HighIndex(iterations, confidence);
      && 0 <= low <= high < iterations
      && low as real <= InTail(iterations, confidence)
      && (iterations - 1 - high) as real <= InTail(iterations, confidence)
      && (low == 0 || (low + 1) as real <= below) && below < (low + 2) as real
      && high as real < upTo <= (high + 1) as real
  {
    hide *;
    IndicesFrom(iterations, confidence, below, upTo);
    TailBounds(iterations, confidence, below, upTo);
    FloorAndCeiling(iterations, below, upTo);
  }

  lemma IndicesInBounds(iterations: nat, confidence: real)
    requires iterations >= 1 && 0.0 <= confidence <= 1.0
    ensures var low, high := LowIndex(iterations, confidence), HighIndex(iterations, confidence);
      && 0 <= low <= high < iterations
      && low as real <= InTail(iterations, confidence)
      && (iterations - 1 - high) as real <= InTail(iterations, confidence)
  {
    var tail := (1.0 - confidence) / 2.0;
    PercentileIndices(iterations, confidence, tail * iterations as real, (1.0 - tail) * iterations as real);
  }

  lemma FloorAndCeiling(n: nat, x: real, y: real)
    requires n >= 1 && 0.0 <= x <= y && y >= 0.5 && x + y == n as real
    ensures var low, high := Max(0, x.Floor - 1), Min(n - 1, CeilingOf(y) - 1);
      && 0 <= low <= high < n
      && low as real <= x
      && (n - 1 - high) as real <= x
      && (low == 0 || (low + 1) as real <= x) && x < (low + 2) as real
      && high as real < y <= (high + 1) as real
  {
    assert CeilingOf(y) as real >= y;
    assert x.Floor as real <= x;
  }

  lemma HalfProducts(t: real, n: real, x: real, y: real)
    requires 0.0 <= t <= 0.5 && n >= 1.0
    requires x == t * n && y == (1.0 - t) * n
    ensures 0.0 <= x <= y && y >= 0.5
    ensures x + y == n
  {
    NonNegativeProduct(t, n);
    NonNegativeProduct(1.0 - 2.0 * t, n);
    NonNegativeProduct(0.5 - t, n);
    assert y - x == (1.0 - 2.0 * t) * n;
    assert (0.5 - t) * n == 0.5 * n - x;
  }

  // ----------------------------------------------------------------- p-values

  /** How many of the values are on the wrong side of zero. */
  function AtLeastZero(xs: seq<real>): nat {
    if xs == [] then 0 else AtLeastZero(xs[..|xs| - 1]) + if xs[|xs| - 1] >= 0.0 then 1 else 0
  }

  lemma {:induction false} SidesCounted(xs: seq<real>)
    ensures AtLeastZero(xs) == |set i | 0 <= i < |xs| && xs[i] >= 0.0|
    ensures AtMostZero(xs) == |set i | 0 <= i < |xs| && xs[i] <= 0.0|
  {
    var up, down := i => 0 <= i < |xs| && xs[i] >= 0.0, i => 0 <= i < |xs| && xs[i] <= 0.0;
    assert (set i | 0 <= i < |xs| && xs[i] >= 0.0) == Hits(|xs|, up);
    assert (set i | 0 <= i < |xs| && xs[i] <= 0.0) == Hits(|xs|, down);
    if xs != [] {
      var last := |xs| - 1;
      var ys := xs[..last];
      SidesCounted(ys);
      var up', down' := i => 0 <= i < last && ys[i] >= 0.0, i => 0 <= i < last && ys[i] <= 0.0;
      assert (set i | 0 <= i < last && ys[i] >= 0.0) == Hits(last, up');
      assert (set i | 0 <= i < last && ys[i] <= 0.0) == Hits(last, down');
      HitsNext(last, up, up');
      HitsNext(last, down, down');
    }
  }

  /** The p-value in plain terms: resamples on the wrong side of zero and one more, over all and one more. */
  ghost predicate IsPValue(means: seq<real>, alternative: Alternative, p: real) {
    var up, down := |set i | 0 <= i < |means| && means[i] >= 0.0|, |set i | 0 <= i < |means| && means[i] <= 0.0|;
    var extreme := match alternative case Less => up case Greater => down case TwoSided => 2 * Min(up, down);
    p == MinReal(1.0, (extreme + 1) as real / (|means| + 1) as real)
  }

  lemma PValueIs(means: seq<real>, alternative: Alternative)
    ensures IsPValue(means, alternative, PValue(Extreme(means, alternative), |means|))
  {
    SidesCounted(means);
  }

  lemma PValueRange(means: seq<real>, alternative: Alternative)
    ensures forall p :: IsPValue(means, alternative, p) ==> 0.0 < p <= 1.0
  {
    PValueIs(means, alternative);
    PValueInRange(Extreme(means, alternative), |means|);
  }

  lemma {:induction false} OneSided(xs: seq<real>)
    ensures (forall i :: 0 <= i < |xs| ==> xs[i] < 0.0) ==> AtLeastZero(xs) == 0 && AtMostZero(xs) == |xs|
    ensures (forall i :: 0 <= i < |xs| ==> xs[i] > 0.0) ==> AtLeastZero(xs) == |xs| && AtMostZero(xs) == 0
    ensures (forall i :: 0 <= i < |xs| ==> xs[i] >= 0.0) ==> AtLeastZero(xs) == |xs|
  {
    if xs != [] {
      var last := |xs| - 1;
      OneSided(xs[..last]);
      assert forall i :: 0 <= i < last ==> xs[..last][i] == xs[i];
    }
  }

  function AtMostZero(xs: seq<real>): nat {
    if xs == [] then 0 else AtMostZero(xs[..|xs| - 1]) + if xs[|xs| - 1] <= 0.0 then 1 else 0
  }

  function Extreme(means: seq<real>, alternative: Alternative): nat {
    match alternative
    case Less => AtLeastZero(means)
    case Greater => AtMostZero(means)
    case TwoSided => 2 * Min(AtLeastZero(means), AtMostZero(means))
  }

  function PValue(extreme: nat, iterations: nat): real {
    MinReal(1.0, (extreme + 1) as real / (iterations + 1) as real)
  }

  lemma PValueInRange(extreme: nat, iterations: nat)
    ensures 0.0 < PValue(extreme, iterations) <= 1.0
  {
    QuotientOrder((extreme + 1) as real, (iterations + 1) as real, 0.0);
  }

  // ----------------------------------------------------------------- the bootstrap

  datatype Interval = Interval(mean: real, low: real, high: real, pValue: real)

  /** Elements of xs strictly below x. */
  ghost function CountBelow(xs: seq<real>, x: real): nat {
    if xs == [] then 0 else CountBelow(xs[..|xs| - 1], x) + if xs[|xs| - 1] < x then 1 else 0
  }

  ghost function CountAbove(xs: seq<real>, x: real): nat {
    if xs == [] then 0 else CountAbove(xs[..|xs| - 1], x) + if xs[|xs| - 1] > x then 1 else 0
  }

  lemma {:induction false} SortedCounts(xs: seq<real>, k: nat)
    requires SortedBy(xs, RealLe()) && k < |xs|
    ensures CountBelow(xs, xs[k]) <= k
    ensures CountAbove(xs, xs[k]) <= |xs| - 1 - k
  {
    var last := |xs| - 1;
    assert RealLe()(xs[k], xs[last]) || k == last;
    if k < last {
      forall i, j | 0 <= i < j < last
        ensures RealLe()(xs[..last][i], xs[..last][j])
      {
        assert RealLe()(xs[i], xs[j]);
      }
      SortedCounts(xs[..last], k);
    } else {
      CountBelowBound(xs[..last], xs[k]);
      NoneAbove(xs, xs[k]);
    }
  }

  lemma {:induction false} CountBelowBound(xs: seq<real>, x: real)
    ensures CountBelow(xs, x) <= |xs|
  {
    if xs != [] { CountBelowBound(xs[..|xs| - 1], x); }
  }

  lemma {:induction false} NoneAbove(xs: seq<real>, x: real)
    requires xs != [] ==> SortedBy(xs, RealLe()) && xs[|xs| - 1] <= x
    ensures CountAbove(xs, x) == 0
  {
    if xs != [] {
      var last := |xs| - 1;
      if last > 0 { assert RealLe()(xs[last - 1], xs[last]); }
      forall i, j | 0 <= i < j < last
        ensures RealLe()(xs[..last][i], xs[..last][j])
      {
        assert RealLe()(xs[i], xs[j]);
      }
      NoneAbove(xs[..last], x);
    }
  }

  /**
   `draws` holds the generator's indices, one sequence an iteration. None stands for the errors of
   an empty sample and of no iterations.
   */
  method PairedBootstrap(differences: seq<real>, draws: seq<seq<nat>>, alternative: Alternative, confidence: real)
    returns (r: Option<Interval>)
    requires ValidDraws(|differences|, draws)
    requires 0.0 <= confidence <= 1.0
    ensures r.None? <==> differences == [] || draws == []
    ensures r.Some? ==> r.value.mean == Mean(differences)
    ensures r.Some? ==>
      var sorted := SortedMeans(differences, draws);
      var low, high := LowIndex(|draws|, confidence), HighIndex(|draws|, confidence);
      && 0 <= low <= high < |draws|
      && r.value.low == sorted[low]
      && r.value.high == sorted[high]
      && IsPValue(sorted, alternative, r.value.pValue)
  {
    var n, iterations := |differences|, |draws|;
    if n == 0 || iterations == 0 {
      return None;
    }
    var means: seq<real> := [];
    for i := 0 to iterations
      invariant means == Means(differences, draws)[..i]
    {
      var total := 0.0;
      for k := 0 to n
        invariant total == Sum(Resample(differences, draws[i])[..k])
      {
        assert Resample(differences, draws[i])[..k + 1][..k] == Resample(differences, draws[i])[..k];
        total := total + differences[draws[i][k]];
      }
      assert Resample(differences, draws[i])[..n] == Resample(differences, draws[i]);
      means := means + [total / n as real];
    }
    assert Means(differences, draws)[..iterations] == Means(differences, draws);
    means := StableSort(means, RealLe());
    IndicesInBounds(iterations, confidence);
    PValueIs(means, alternative);
    r := Some(Interval(
      Mean(differences),
      means[LowIndex(iterations, confidence)],
      means[HighIndex(iterations, confidence)],
      PValue(Extreme(means, alternative), iterations)));
  }

  lemma MeansWithin(xs: seq<real>, draws: seq<seq<nat>>, low: real, high: real)
    requires xs != [] && ValidDraws(|xs|, draws) && Within(xs, low, high)
    ensures Within(SortedMeans(xs, draws), low, high)
    ensures SortedBy(SortedMeans(xs, draws), RealLe())
  {
    var means, sorted := Means(xs, draws), SortedMeans(xs, draws);
    assert TotalPreorder(RealLe());
    SortSorts(means, RealLe());
    SortMembers(means, RealLe());
    forall k | 0 <= k < |sorted|
      ensures low <= sorted[k] <= high
    {
      assert sorted[k] in means;
      var i :| 0 <= i < |means| && means[i] == sorted[k];
      MeanWithin(Resample(xs, draws[i]), low, high);
    }
  }

  /**
   Whatever is drawn: the interval is ordered and inside the range of the differences, at least
   `confidence` of the resampled means lie in it, and the p-value is a nonzero probability.
   */
  lemma BootstrapSound(
    xs: seq<real>, draws: seq<seq<nat>>, alternative: Alternative, confidence: real, low: real, high: real)
    requires xs != [] && draws != [] && ValidDraws(|xs|, draws) && Within(xs, low, high)
    requires 0.0 <= confidence <= 1.0
    ensures
      var sorted := SortedMeans(xs, draws);
      var i, j := LowIndex(|draws|, confidence), HighIndex(|draws|, confidence);
      && 0 <= i <= j < |draws|
      && low <= sorted[i] <= sorted[j] <= high
      && (CountBelow(sorted, sorted[i]) + CountAbove(sorted, sorted[j])) as real <= 2.0 * InTail(|draws|, confidence)
      && forall p :: IsPValue(sorted, alternative, p) ==> 0.0 < p <= 1.0
  {
    var sorted := SortedMeans(xs, draws);
    var i, j := LowIndex(|draws|, confidence), HighIndex(|draws|, confidence);
    hide SortedMeans, LowIndex, HighIndex, Extreme, PValue, Means, Tails, InTail, CountBelow, CountAbove, SortedBy,
        ValidDraws, IsPValue;
    MeansWithin(xs, draws, low, high);
    IndicesInBounds(|draws|, confidence);
    PValueRange(sorted, alternative);
    OrderedEnds(sorted, i, j);
    SortedCounts(sorted, i);
    SortedCounts(sorted, j);
    OutsideBothTails(|draws|, confidence, CountBelow(sorted, sorted[i]), CountAbove(sorted, sorted[j]), i, j);
  }

  lemma OrderedEnds(sorted: seq<real>, i: int, j: int)
    requires SortedBy(sorted, RealLe()) && 0 <= i <= j < |sorted|
    ensures sorted[i] <= sorted[j]
  {
    assert i == j || RealLe()(sorted[i], sorted[j]);
  }

  /** What falls outside both ends, given what falls outside each. */
  lemma OutsideBothTails(n: nat, confidence: real, below: nat, above: nat, i: int, j: int)
    requires below <= i && above <= n - 1 - j
    requires i as real <= InTail(n, confidence)
    requires (n - 1 - j) as real <= InTail(n, confidence)
    ensures (below + above) as real <= 2.0 * InTail(n, confidence)
  {
    hide InTail;
  }

  lemma {:induction false} SumSign(xs: seq<real>)
    ensures (forall i :: 0 <= i < |xs| ==> xs[i] < 0.0) && xs != [] ==> Sum(xs) < 0.0
    ensures (forall i :: 0 <= i < |xs| ==> xs[i] >= 0.0) ==> Sum(xs) >= 0.0
  {
    if xs != [] {
      var last := |xs| - 1;
      SumSign(xs[..last]);
      assert forall i :: 0 <= i < last ==> xs[..last][i] == xs[i];
    }
  }

  /** Every resample of differences of one sign has a mean of that sign. */
  lemma MeansSign(xs: seq<real>, draws: seq<seq<nat>>, i: nat)
    requires xs != [] && ValidDraws(|xs|, draws) && i < |draws|
    ensures (forall k :: 0 <= k < |xs| ==> xs[k] < 0.0) ==> SortedMeans(xs, draws)[i] < 0.0
    ensures (forall k :: 0 <= k < |xs| ==> xs[k] >= 0.0) ==> SortedMeans(xs, draws)[i] >= 0.0
  {
    SortMembers(Means(xs, draws), RealLe());
    var m := SortedMeans(xs, draws)[i];
    assert m in SortedMeans(xs, draws);
    var j :| 0 <= j < |draws| && Means(xs, draws)[j] == m;
    var sample := Resample(xs, draws[j]);
    assert forall k :: 0 <= k < |sample| ==> sample[k] in xs;
    SumSign(sample);
    hide Sum;
    QuotientOrder(Sum(sample), |sample| as real, 0.0);
  }

  /**
   If every example got worse no resample speaks against it, and the p-value of "worse" is as small as the
   number of resamples allows; if none got worse it is 1.
   */
  lemma BootstrapLeans(xs: seq<real>, draws: seq<seq<nat>>)
    requires xs != [] && ValidDraws(|xs|, draws)
    ensures forall p :: IsPValue(SortedMeans(xs, draws), Less, p) ==>
      && ((forall k :: 0 <= k < |xs| ==> xs[k] < 0.0) ==> p == 1.0 / (|draws| + 1) as real)
      && ((forall k :: 0 <= k < |xs| ==> xs[k] >= 0.0) ==> p == 1.0)
  {
    var sorted := SortedMeans(xs, draws);
    forall i | 0 <= i < |sorted|
      ensures (forall k :: 0 <= k < |xs| ==> xs[k] < 0.0) ==> sorted[i] < 0.0
      ensures (forall k :: 0 <= k < |xs| ==> xs[k] >= 0.0) ==> sorted[i] >= 0.0
    {
      MeansSign(xs, draws, i);
    }
    hide SortedMeans;
    OneSided(sorted);
    PValueIs(sorted, Less);
    SmallestPValue(|draws|);
  }

  lemma SmallestPValue(n: nat)
    ensures PValue(0, n) == 1.0 / (n + 1) as real && PValue(n, n) == 1.0
  {
    QuotientOrder(1.0, (n + 1) as real, 1.0);
  }
}
