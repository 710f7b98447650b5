/** What cohens_kappa guarantees about its result, for every weighting. */
module KappaBounds {
  import opened Common
  import opened Reals
  import opened Labels
  import opened Agreement
  import opened Kappa
  import opened KappaSums

  // ----------------------------------------------------------------- penalties

  /** Disagreement weight: one minus the agreement weight. */
  ghost function Penalty(labels: seq<string>, kind: Kind): Weight {
    (a, b) => 1.0 - Weighting(labels, kind, a, b)
  }

  /** The least penalty of two different labels on the scale. */
  ghost function LeastPenalty(labels: seq<string>, kind: Kind): real {
    var step := Share(1, Span(labels));
    match kind
    case Unweighted => 1.0
    case Linear => step
    case Quadratic => step * step
  }

  lemma ShareFacts(part: nat, whole: nat)
    requires whole > 0
    ensures Share(part, whole) >= 0.0
    ensures Share(0, whole) == 0.0 && Share(1, whole) > 0.0
    ensures part >= 1 ==> Share(part, whole) >= Share(1, whole)
    ensures Share(part, whole) == Share(1, whole) * part as real
  {
    var s, x := whole as real, 1.0 / whole as real;
    assert part as real / s == x * part as real;
    assert x > 0.0;
    assert x * part as real >= 0.0;
    if part >= 1 { assert x * part as real >= x * 1.0; }
  }

  lemma DistanceBounds(labels: seq<string>, a: string, b: string)
    ensures Distance(labels, a, b) >= 0.0
    ensures a == b ==> Distance(labels, a, b) == 0.0
    ensures a in labels && b in labels && a != b ==> Distance(labels, a, b) >= Share(1, Span(labels))
  {
    hide Share;
    ShareFacts(Gap(labels, a, b), Span(labels));
  }

  lemma PenaltyFacts(labels: seq<string>, kind: Kind, a: string, b: string)
    ensures Penalty(labels, kind)(a, b) >= 0.0
    ensures a == b ==> Penalty(labels, kind)(a, b) == 0.0
    ensures a in labels && b in labels && a != b ==> Penalty(labels, kind)(a, b) >= LeastPenalty(labels, kind)
  {
    hide Share, Distance;
    DistanceBounds(labels, a, b);
    ShareFacts(1, Span(labels));
    var d, step := Distance(labels, a, b), Share(1, Span(labels));
    assert d * d >= 0.0;
    if a in labels && b in labels && a != b { SquareOrder(step, d); }
  }

  lemma PenaltyBounds(labels: seq<string>, kind: Kind, ps: seq<Pair>)
    requires Covers(labels, ps)
    ensures Penalises(Penalty(labels, kind), LeastPenalty(labels, kind))
    ensures CostsAtLeast(ps, ps, Penalty(labels, kind), LeastPenalty(labels, kind))
  {
    assert LeastPenalty(labels, kind) > 0.0 by {
      ShareFacts(1, Span(labels));
      hide Share;
      PositiveProduct(Share(1, Span(labels)), Share(1, Span(labels)), LeastPenalty(labels, Quadratic));
    }
    hide Penalty, LeastPenalty;
    forall a, b
      ensures Penalty(labels, kind)(a, b) >= 0.0
      ensures a == b ==> Penalty(labels, kind)(a, b) == 0.0
      ensures a in labels && b in labels && a != b ==> Penalty(labels, kind)(a, b) >= LeastPenalty(labels, kind)
    {
      PenaltyFacts(labels, kind, a, b);
    }
  }

  // ----------------------------------------------------------------- every penalty is a mixture of squared distances

  lemma {:induction false} SameOnPairs(xs: seq<Pair>, ps: seq<Pair>, v: Weight, w: Weight)
    requires forall p, q :: (p in xs || p in ps) && q in ps ==> v(p.0, q.1) == w(p.0, q.1)
    ensures Crossed(xs, ps, v) == Crossed(xs, ps, w)
  {
    if xs != [] {
      var last := |xs| - 1;
      assert xs == xs[..last] + [xs[last]];
      SameOnPairs(xs[..last], ps, v, w);
      SameAgainst(ps, v, w, xs[last].0);
    }
  }

  lemma {:induction false} SameAgainst(ps: seq<Pair>, v: Weight, w: Weight, h: string)
    requires forall q :: q in ps ==> v(h, q.1) == w(h, q.1)
    ensures AgainstAll(ps, v, h) == AgainstAll(ps, w, h)
  {
    if ps != [] {
      assert ps == ps[..|ps| - 1] + [ps[|ps| - 1]];
      SameAgainst(ps[..|ps| - 1], v, w, h);
    }
  }

  lemma {:induction false} SameMatched(ps: seq<Pair>, v: Weight, w: Weight)
    requires forall p :: p in ps ==> v(p.0, p.1) == w(p.0, p.1)
    ensures Matched(ps, v) == Matched(ps, w)
  {
    if ps != [] {
      assert ps == ps[..|ps| - 1] + [ps[|ps| - 1]];
      SameMatched(ps[..|ps| - 1], v, w);
    }
  }

  lemma SameTwice(ps: seq<Pair>, v: Weight, w: Weight)
    requires forall p, q :: p in ps && q in ps ==> v(p.0, q.1) == w(p.0, q.1)
    requires AtMostTwiceChance(ps, w)
    ensures AtMostTwiceChance(ps, v)
  {
    SameMatched(ps, v, w);
    SameOnPairs(ps, ps, v, w);
    hide Matched, Crossed;
  }

  ghost function Scaled(c: real, v: Weight): Weight {
    (x, y) => c * v(x, y)
  }

  lemma ScaledTwice(ps: seq<Pair>, c: real, v: Weight)
    requires c >= 0.0 && AtMostTwiceChance(ps, v)
    ensures AtMostTwiceChance(ps, Scaled(c, v))
  {
    var zero: Weight := (x, y) => 0.0;
    ZeroWeight(ps, ps, zero);
    AtMostTwiceLinear(ps, Scaled(c, v), c, v, zero);
  }

  /** "Is it label k?" */
  ghost function IsLabel(labels: seq<string>): (nat, string) -> bool {
    (k: nat, x: string) => k < |labels| && labels[k] == x
  }

  lemma {:induction false} LabelCuts(labels: seq<string>, m: nat, x: string, y: string)
    requires Distinct(labels) && m <= |labels|
    ensures x == y ==> Cuts(IsLabel(labels), m, x, y) == 0.0
    ensures x != y ==>
      Cuts(IsLabel(labels), m, x, y) == (if x in labels[..m] then 1.0 else 0.0) +
          (if y in labels[..m] then 1.0 else 0.0)
  {
    if m > 0 {
      LabelCuts(labels, m - 1, x, y);
      assert labels[..m] == labels[..m - 1] + [labels[m - 1]];
    }
  }

  /** "Is it at or below step k of the scale?" */
  ghost function AtMost(labels: seq<string>): (nat, string) -> bool {
    (k: nat, x: string) => Position(labels, x) <= k
  }

  lemma {:induction false} ScaleCuts(labels: seq<string>, m: nat, x: string, y: string)
    ensures
      var a, b := Min(Position(labels, x), m), Min(Position(labels, y), m);
      Cuts(AtMost(labels), m, x, y) == (if a < b then b - a else a - b) as real
  {
    if m > 0 { ScaleCuts(labels, m - 1, x, y); }
  }

  ghost function ScaleReading(labels: seq<string>): string -> real {
    x => Share(Position(labels, x), Span(labels))
  }

  lemma UnweightedTwice(labels: seq<string>, ps: seq<Pair>)
    requires Distinct(labels) && Covers(labels, ps)
    ensures AtMostTwiceChance(ps, Penalty(labels, Unweighted))
  {
    var g, m := IsLabel(labels), |labels|;
    CutsAtMostTwice(ps, g, m);
    ScaledTwice(ps, 0.5, CutWeight(g, m));
    forall p, q | p in ps && q in ps
      ensures Penalty(labels, Unweighted)(p.0, q.1) == Scaled(0.5, CutWeight(g, m))(p.0, q.1)
    {
      LabelCuts(labels, m, p.0, q.1);
      assert labels[..m] == labels;
    }
    SameTwice(ps, Penalty(labels, Unweighted), Scaled(0.5, CutWeight(g, m)));
  }

  lemma LinearTwice(labels: seq<string>, ps: seq<Pair>)
    requires Covers(labels, ps)
    ensures AtMostTwiceChance(ps, Penalty(labels, Linear))
  {
    var g, m := AtMost(labels), Max(0, |labels| - 1);
    var c := Share(1, Span(labels));
    var mixture := Scaled(c, CutWeight(g, m));
    forall p, q | p in ps && q in ps
      ensures Penalty(labels, Linear)(p.0, q.1) == mixture(p.0, q.1)
    {
      LinearPenalty(labels, m, p.0, q.1);
    }
    ShareFacts(1, Span(labels));
    hide *;
    CutsAtMostTwice(ps, g, m);
    ScaledTwice(ps, c, CutWeight(g, m));
    SameTwice(ps, Penalty(labels, Linear), mixture);
  }

  lemma LinearPenalty(labels: seq<string>, m: nat, x: string, y: string)
    requires m == Max(0, |labels| - 1) && x in labels && y in labels
    ensures Distance(labels, x, y) == Share(1, Span(labels)) * Cuts(AtMost(labels), m, x, y)
  {
    assert Cuts(AtMost(labels), m, x, y) == Gap(labels, x, y) as real by {
      hide Share, Cuts;
      ScaleCuts(labels, m, x, y);
    }
    assert Distance(labels, x, y) == Share(Gap(labels, x, y), Span(labels)) by { hide Share, Gap, Cuts; }
    hide *;
    ShareFacts(Gap(labels, x, y), Span(labels));
  }

  lemma QuadraticPenalty(labels: seq<string>, x: string, y: string)
    ensures Penalty(labels, Quadratic)(x, y) == SquaredDistance(ScaleReading(labels))(x, y)
  {
    var a, b, s := Position(labels, x), Position(labels, y), Span(labels);
    ShareDifference(a, b, s);
    hide Share;
    var d, e := Share(a, s) - Share(b, s), Distance(labels, x, y);
    assert e == d || e == -d;
    assert e * e == d * d;
  }

  lemma ShareDifference(a: nat, b: nat, s: nat)
    requires s > 0
    ensures a >= b ==> Share(a - b, s) == Share(a, s) - Share(b, s)
    ensures a <= b ==> Share(b - a, s) == Share(b, s) - Share(a, s)
  {
    var x := Share(1, s);
    ShareFacts(a, s);
    ShareFacts(b, s);
    if a >= b { ShareFacts(a - b, s); } else { ShareFacts(b - a, s); }
    hide Share;
    assert x * a as real - x * b as real == x * (a as real - b as real);
  }

  lemma QuadraticTwice(labels: seq<string>, ps: seq<Pair>)
    ensures AtMostTwiceChance(ps, Penalty(labels, Quadratic))
  {
    SquaresAtMostTwice(ps, ScaleReading(labels));
    forall p, q | p in ps && q in ps
      ensures Penalty(labels, Quadratic)(p.0, q.1) == SquaredDistance(ScaleReading(labels))(p.0, q.1)
    {
      QuadraticPenalty(labels, p.0, q.1);
    }
    SameTwice(ps, Penalty(labels, Quadratic), SquaredDistance(ScaleReading(labels)));
  }

  lemma PenaltyTwice(labels: seq<string>, kind: Kind, ps: seq<Pair>)
    requires Distinct(labels) && Covers(labels, ps)
    ensures AtMostTwiceChance(ps, Penalty(labels, kind))
  {
    match kind
    case Unweighted => UnweightedTwice(labels, ps);
    case Linear => LinearTwice(labels, ps);
    case Quadratic => QuadraticTwice(labels, ps);
  }

  // ----------------------------------------------------------------- kappa as a ratio of disagreements

  lemma {:induction false} Ones(xs: seq<Pair>, ps: seq<Pair>, one: Weight)
    requires forall x, y :: one(x, y) == 1.0
    ensures Matched(xs, one) == |xs| as real
    ensures Crossed(xs, ps, one) == |xs| as real * |ps| as real
  {
    if xs != [] {
      Ones(xs[..|xs| - 1], ps, one);
      OnesAgainst(ps, one, xs[|xs| - 1].0);
      assert |xs| as real * |ps| as real == (|xs| - 1) as real * |ps| as real + |ps| as real;
    }
  }

  lemma {:induction false} OnesAgainst(ps: seq<Pair>, one: Weight, h: string)
    requires forall x, y :: one(x, y) == 1.0
    ensures AgainstAll(ps, one, h) == |ps| as real
  {
    if ps != [] { OnesAgainst(ps[..|ps| - 1], one, h); }
  }

  lemma ComplementarySums(labels: seq<string>, kind: Kind, ps: seq<Pair>)
    ensures Matched(ps, WeightOf(labels, kind)) == |ps| as real - Matched(ps, Penalty(labels, kind))
    ensures Crossed(ps, ps, WeightOf(labels, kind)) ==
        |ps| as real * |ps| as real - Crossed(ps, ps, Penalty(labels, kind))
  {
    var w, v := WeightOf(labels, kind), Penalty(labels, kind);
    var one: Weight := (x, y) => 1.0;
    hide Weighting, Matched, Crossed;
    MatchedLinear(ps, w, -1.0, v, one);
    CrossedLinear(ps, ps, w, -1.0, v, one);
    Ones(ps, ps, one);
  }

  /** Agreement and penalty sums are complementary. */
  lemma Complementary(labels: seq<string>, kind: Kind, ps: seq<Pair>)
    requires ps != [] && Distinct(labels) && Covers(labels, ps)
    ensures |ps| as real * (1.0 - Observed(Matrix(labels, ps), kind, labels)) == Matched(ps, Penalty(labels, kind))
    ensures |ps| as real * |ps| as real * (1.0 - Expected(Matrix(labels, ps), kind, labels)) ==
        Crossed(ps, ps, Penalty(labels, kind))
  {
    hide Observed, Expected, Matched, Crossed, WeightOf, Penalty, Covers, Distinct;
    var m, n := Matrix(labels, ps), |ps| as real;
    ObservedIsMatched(labels, ps, kind);
    ExpectedIsCrossed(labels, ps, kind);
    ComplementarySums(labels, kind, ps);
    Spread(n, Observed(m, kind, labels));
    Spread(n * n, Expected(m, kind, labels));
  }

  lemma Spread(n: real, x: real)
    ensures n * (1.0 - x) == n - n * x
  {
  }

  /** The labels cohens_kappa works over, when the declared order repeats none. */
  lemma LabelSetCovers(ps: seq<Pair>, order: Option<seq<string>>)
    requires order.Some? ==> Distinct(order.value)
    ensures Distinct(LabelSet(ps, order)) && Covers(LabelSet(ps, order), ps)
  {
    BothLabelsIn(ps);
    var observed := SortedSet(BothLabels(ps));
    forall p | p in ps
      ensures p.0 in observed && p.1 in observed
    {
    }
    if order.Some? {
      OutsideSplits(observed, order.value);
      DistinctConcat(order.value, Outside(observed, order.value));
    }
  }

  lemma DistinctConcat(a: seq<string>, b: seq<string>)
    requires Distinct(a) && Distinct(b) && forall x :: x in a ==> x !in b
    ensures Distinct(a + b)
  {
    forall i, j | 0 <= i < j < |a + b|
      ensures (a + b)[i] != (a + b)[j]
    {
      if i < |a| <= j { assert a[i] in a && b[j - |a|] in b; }
    }
  }

  lemma {:induction false} OutsideSplits(xs: seq<string>, known: seq<string>)
    requires Distinct(xs)
    ensures Distinct(Outside(xs, known))
    ensures forall x :: x in Outside(xs, known) <==> x in xs && x !in known
  {
    if xs != [] {
      var last := |xs| - 1;
      OutsideSplits(xs[..last], known);
      assert xs == xs[..last] + [xs[last]];
    }
  }

  lemma KappaUnfolded(ps: seq<Pair>, kind: Kind, order: Option<seq<string>>)
    requires KappaOf(ps, kind, order).Kappa?
    ensures ps != []
    ensures
      var labels := LabelSet(ps, order);
      var po, pe := Observed(Matrix(labels, ps), kind, labels), Expected(Matrix(labels, ps), kind, labels);
      pe != 1.0 && KappaOf(ps, kind, order).value == (po - pe) / (1.0 - pe)
  {
    hide Observed, LabelSet;
  }

  /** n times the observed penalty D, the crossed penalty E, and the value (E - n D) / E. */
  lemma KappaIsRatio(ps: seq<Pair>, kind: Kind, order: Option<seq<string>>)
    requires order.Some? ==> Distinct(order.value)
    requires KappaOf(ps, kind, order).Kappa?
    ensures ps != []
    ensures
      var v := Penalty(LabelSet(ps, order), kind);
      var d, e := |ps| as real * Matched(ps, v), Crossed(ps, ps, v);
      e > 0.0 && KappaOf(ps, kind, order).value * e == e - d
  {
    hide Observed, Expected, Matched, Crossed, Penalty, LabelSet, KappaOf, Covers, Distinct;
    var labels := LabelSet(ps, order);
    var m, v := Matrix(labels, ps), Penalty(labels, kind);
    KappaUnfolded(ps, kind, order);
    LabelSetCovers(ps, order);
    Complementary(labels, kind, ps);
    PenaltyBounds(labels, kind, ps);
    CrossedNonNegative(ps, ps, v);
    RatioForm(|ps| as real, Observed(m, kind, labels), Expected(m, kind, labels), Matched(ps, v), Crossed(ps, ps, v));
  }

  lemma RatioForm(n: real, po: real, pe: real, d: real, e: real)
    requires n > 0.0 && pe != 1.0 && e >= 0.0
    requires n * (1.0 - po) == d && n * n * (1.0 - pe) == e
    ensures e > 0.0 && (po - pe) / (1.0 - pe) * e == e - n * d
  {
    var k := (po - pe) / (1.0 - pe);
    assert k * (1.0 - pe) == po - pe;
    var sq, gap := n * n, 1.0 - pe;
    PositiveProduct(n, n, sq);
    assert sq * gap == e;
    NonZeroProduct(sq, gap);
    assert k * e == sq * (k * gap);
    assert n * n * (po - pe) == n * n * (1.0 - pe) - n * (n * (1.0 - po));
  }

  lemma RatioBounds(k: real, e: real, nd: real)
    requires e > 0.0 && k * e == e - nd && 0.0 <= nd <= 2.0 * e
    ensures -1.0 <= k <= 1.0
    ensures k == 1.0 <==> nd == 0.0
    ensures k == 0.0 <==> nd == e
  {
    assert e * (1.0 - k) == nd;
    assert e * (k + 1.0) == 2.0 * e - nd;
    PositiveFactor(e, 1.0 - k);
    PositiveFactor(e, k + 1.0);
    if k != 1.0 { NonZeroProduct(e, 1.0 - k); }
    if k != 0.0 { NonZeroProduct(e, k); }
  }

  lemma NoPenaltyIffAgree(labels: seq<string>, kind: Kind, ps: seq<Pair>)
    requires Covers(labels, ps)
    ensures Matched(ps, Penalty(labels, kind)) >= 0.0
    ensures Matched(ps, Penalty(labels, kind)) == 0.0 <==> forall p :: p in ps ==> p.0 == p.1
  {
    hide Penalty, LeastPenalty, Matched;
    PenaltyBounds(labels, kind, ps);
    MatchedZeroIff(ps, Penalty(labels, kind), LeastPenalty(labels, kind));
  }

  /** Whatever the weighting, kappa lies in [-1, 1], and is 1 exactly when every pair agrees. */
  lemma KappaInRange(ps: seq<Pair>, kind: Kind, order: Option<seq<string>>)
    requires order.Some? ==> Distinct(order.value)
    requires KappaOf(ps, kind, order).Kappa?
    ensures -1.0 <= KappaOf(ps, kind, order).value <= 1.0
    ensures KappaOf(ps, kind, order).value == 1.0 <==> forall p :: p in ps ==> p.0 == p.1
  {
    var labels := LabelSet(ps, order);
    var v := Penalty(labels, kind);
    hide Matched, Crossed, KappaOf, LabelSet, Penalty, LeastPenalty, Covers, Distinct;
    LabelSetCovers(ps, order);
    KappaIsRatio(ps, kind, order);
    PenaltyTwice(labels, kind, ps);
    NoPenaltyIffAgree(labels, kind, ps);
    PenaltyProduct(|ps| as real, Matched(ps, v));
    RatioBounds(KappaOf(ps, kind, order).value, Crossed(ps, ps, v), |ps| as real * Matched(ps, v));
  }

  lemma PenaltyProduct(n: real, d: real)
    requires n > 0.0 && d >= 0.0
    ensures n * d >= 0.0 && (n * d == 0.0 <==> d == 0.0)
  {
  }

  // ----------------------------------------------------------------- when kappa is undefined

  /** How many times the least penalty goes into the worst. */
  function PenaltyScale(labels: seq<string>, kind: Kind): (k: nat)
    ensures k >= 1
  {
    match kind
    case Unweighted => 1
    case Linear => Span(labels)
    case Quadratic => Span(labels) * Span(labels)
  }

  lemma LeastTimesScale(labels: seq<string>, kind: Kind)
    ensures LeastPenalty(labels, kind) * PenaltyScale(labels, kind) as real == 1.0
  {
    var s := Span(labels) as real;
    var step := 1.0 / s;
    assert step * s == 1.0;
    assert (step * step) * (s * s) == (step * s) * (step * s);
    assert (Span(labels) * Span(labels)) as real == s * s;
  }

  /** No guard but the degenerate one can fire. */
  ghost predicate Computable(ps: seq<Pair>, kind: Kind, order: Option<seq<string>>) {
    ps != [] && (kind == Unweighted || (order.Some? && OnScale(ps, order.value)))
  }

  /** What the guard tolerates of the crossed penalty of n pairs. */
  ghost function Tolerance(n: nat): real {
    n as real * n as real / 1000000000.0
  }

  /** One difference's worth of penalty per pair clears the guard's tolerance below a billion. */
  lemma ClearsIff(labels: seq<string>, kind: Kind, n: nat)
    requires n > 0
    ensures Times(n, LeastPenalty(labels, kind)) > Tolerance(n) <==> n * PenaltyScale(labels, kind) < 1000000000
  {
    var k, l, q := n as real, LeastPenalty(labels, kind), PenaltyScale(labels, kind);
    LeastTimesScale(labels, kind);
    hide LeastPenalty, PenaltyScale;
    CastProduct(n, q);
    FloorIff(k, l, q as real, 1000000000.0);
  }

  lemma FloorIff(k: real, l: real, q: real, g: real)
    requires k > 0.0 && q > 0.0 && g > 0.0 && l * q == 1.0
    ensures k * l > k * k / g <==> k * q < g
  {
    var share := k / g;
    assert share * g == k;
    assert k * k / g == k * share;
    ScaleOrder(share, l, k);
    ScaleOrder(share, l, g);
    ScaleOrder(k, l * g, q);
    assert l * g * q == g;
  }

  /**
   Below a billion (pairs times penalty scale), the tolerance of the guard is immaterial: kappa is
   undefined exactly when both raters used one and the same label throughout.
   */
  lemma UndefinedIffOneLabel(ps: seq<Pair>, kind: Kind, order: Option<seq<string>>)
    requires order.Some? ==> Distinct(order.value)
    requires Computable(ps, kind, order)
    requires |ps| * PenaltyScale(LabelSet(ps, order), kind) < 1000000000
    ensures KappaOf(ps, kind, order).ChanceIsOne? <==> OneLabel(ps)
    ensures KappaOf(ps, kind, order).Kappa? <==> !OneLabel(ps)
  {
    hide Expected, KappaOf, LabelSet, OneLabel, IsCloseToOne, PenaltyScale, LeastPenalty, Tolerance, Times, Distinct,
        Covers;
    GuardDecides(ps, kind, order);
    LabelSetCovers(ps, order);
    ClearsIff(LabelSet(ps, order), kind, |ps|);
    GuardIsFloor(LabelSet(ps, order), kind, ps);
  }

  lemma GuardIsFloor(labels: seq<string>, kind: Kind, ps: seq<Pair>)
    requires ps != [] && Distinct(labels) && Covers(labels, ps)
    requires Times(|ps|, LeastPenalty(labels, kind)) > Tolerance(|ps|)
    ensures IsCloseToOne(Expected(Matrix(labels, ps), kind, labels)) <==> OneLabel(ps)
  {
    hide Expected, Crossed, Penalty, OneLabel, LeastPenalty, IsCloseToOne, Distinct, Covers, Times, Tolerance,
        Penalises, CostsAtLeast;
    PenaltyBounds(labels, kind, ps);
    ChanceDisagreementFloor(ps, Penalty(labels, kind), LeastPenalty(labels, kind));
    GuardOfMatrix(labels, kind, ps);
  }

  /** The guard fires exactly when the crossed penalty is within its tolerance. */
  lemma GuardOfMatrix(labels: seq<string>, kind: Kind, ps: seq<Pair>)
    requires ps != [] && Distinct(labels) && Covers(labels, ps)
    ensures IsCloseToOne(Expected(Matrix(labels, ps), kind, labels)) <==>
        Crossed(ps, ps, Penalty(labels, kind)) <= Tolerance(|ps|)
    ensures Tolerance(|ps|) > 0.0
  {
    hide Expected, Crossed, Penalty, IsCloseToOne, Distinct, Covers, Tolerance, PerPairing;
    CrossedIsGap(labels, kind, ps);
    CrossedFloor(labels, kind, ps);
    GuardFires(|ps|, Expected(Matrix(labels, ps), kind, labels), Crossed(ps, ps, Penalty(labels, kind)));
  }

  /** x for each pairing of two of n pairs. */
  ghost function PerPairing(n: nat, x: real): real {
    n as real * n as real * x
  }

  lemma CrossedIsGap(labels: seq<string>, kind: Kind, ps: seq<Pair>)
    requires ps != [] && Distinct(labels) && Covers(labels, ps)
    ensures PerPairing(|ps|, 1.0 - Expected(Matrix(labels, ps), kind, labels)) == Crossed(ps, ps, Penalty(labels, kind))
  {
    hide Expected, Observed, Crossed, Matched, Penalty, Distinct, Covers;
    Complementary(labels, kind, ps);
  }

  lemma CrossedFloor(labels: seq<string>, kind: Kind, ps: seq<Pair>)
    requires Covers(labels, ps)
    ensures Crossed(ps, ps, Penalty(labels, kind)) >= 0.0
  {
    hide Crossed, Penalty, LeastPenalty;
    PenaltyBounds(labels, kind, ps);
    CrossedNonNegative(ps, ps, Penalty(labels, kind));
  }

  lemma GuardDecides(ps: seq<Pair>, kind: Kind, order: Option<seq<string>>)
    requires Computable(ps, kind, order)
    ensures
      var labels := LabelSet(ps, order);
      var close := IsCloseToOne(Expected(Matrix(labels, ps), kind, labels));
      (KappaOf(ps, kind, order).ChanceIsOne? <==> close) && (KappaOf(ps, kind, order).Kappa? <==> !close)
  {
    hide Observed, Expected, LabelSet;
  }

  /** The guard fires exactly when the crossed penalty is at most its tolerance. */
  lemma GuardFires(n: nat, pe: real, e: real)
    requires n > 0 && e >= 0.0 && PerPairing(n, 1.0 - pe) == e
    ensures IsCloseToOne(pe) <==> e <= Tolerance(n)
    ensures Tolerance(n) > 0.0
  {
    var k := n as real;
    var sq := k * k;
    PositiveProduct(k, k, sq);
    GuardFiresSquared(sq, pe, e);
    assert Tolerance(n) == sq / 1000000000.0;
  }

  lemma GuardFiresSquared(sq: real, pe: real, e: real)
    requires sq > 0.0 && e >= 0.0 && sq * (1.0 - pe) == e
    ensures IsCloseToOne(pe) <==> e <= sq / 1000000000.0
  {
    var gap, step := 1.0 - pe, 1.0 / 1000000000.0;
    PositiveFactor(sq, gap);
    assert IsCloseToOne(pe) <==> gap <= step;
    CompareScaled(sq, gap, step, e, sq / 1000000000.0);
  }

  lemma CompareScaled(c: real, x: real, y: real, cx: real, cy: real)
    requires c > 0.0 && cx == c * x && cy == c * y
    ensures x <= y <==> cx <= cy
  {
    assert cy - cx == c * (y - x);
    if cx <= cy { PositiveFactor(c, y - x); }
  }
}
