/**
 Disagreement between two raters, pair by pair. The two quantities behind Cohen's kappa are the
 disagreement observed on the rated items and the disagreement expected if the second rater's
 labels were dealt out at random; here both are plain sums over the pairs.
 */
module Agreement {
  import opened Common
  import opened Reals

  /** (human label, judge label) */
  type Pair = (string, string)
  type Weight = (string, string) -> real

  /** Sum of v over the rated pairs. */
  ghost function Matched(ps: seq<Pair>, v: Weight): real {
    if ps == [] then 0.0
    else
      var last := |ps| - 1;
      Matched(ps[..last], v) + v(ps[last].0, ps[last].1)
  }

  /** Sum of v(h, j) over every judge label j. */
  ghost function AgainstAll(ps: seq<Pair>, v: Weight, h: string): real {
    if ps == [] then 0.0
    else
      var last := |ps| - 1;
      AgainstAll(ps[..last], v, h) + v(h, ps[last].1)
  }

  /** Sum of v(h, j) over every human label of xs and every judge label of ps. */
  ghost function Crossed(xs: seq<Pair>, ps: seq<Pair>, v: Weight): real {
    if xs == [] then 0.0
    else
      var last := |xs| - 1;
      Crossed(xs[..last], ps, v) + AgainstAll(ps, v, xs[last].0)
  }

  /** Observed disagreement never exceeds twice what chance predicts. */
  ghost predicate AtMostTwiceChance(ps: seq<Pair>, v: Weight) {
    |ps| as real * Matched(ps, v) <= 2.0 * Crossed(ps, ps, v)
  }

  // ----------------------------------------------------------------- linearity

  lemma {:induction false} MatchedLinear(ps: seq<Pair>, v: Weight, c: real, a: Weight, b: Weight)
    requires forall x, y :: v(x, y) == c * a(x, y) + b(x, y)
    ensures Matched(ps, v) == c * Matched(ps, a) + Matched(ps, b)
  {
    if ps != [] { MatchedLinear(ps[..|ps| - 1], v, c, a, b); }
  }

  lemma {:induction false} AgainstAllLinear(ps: seq<Pair>, v: Weight, c: real, a: Weight, b: Weight, h: string)
    requires forall x, y :: v(x, y) == c * a(x, y) + b(x, y)
    ensures AgainstAll(ps, v, h) == c * AgainstAll(ps, a, h) + AgainstAll(ps, b, h)
  {
    if ps != [] { AgainstAllLinear(ps[..|ps| - 1], v, c, a, b, h); }
  }

  lemma {:induction false} CrossedLinear(xs: seq<Pair>, ps: seq<Pair>, v: Weight, c: real, a: Weight, b: Weight)
    requires forall x, y :: v(x, y) == c * a(x, y) + b(x, y)
    ensures Crossed(xs, ps, v) == c * Crossed(xs, ps, a) + Crossed(xs, ps, b)
  {
    if xs != [] {
      CrossedLinear(xs[..|xs| - 1], ps, v, c, a, b);
      AgainstAllLinear(ps, v, c, a, b, xs[|xs| - 1].0);
    }
  }

  lemma AtMostTwiceLinear(ps: seq<Pair>, v: Weight, c: real, a: Weight, b: Weight)
    requires c >= 0.0
    requires forall x, y :: v(x, y) == c * a(x, y) + b(x, y)
    requires AtMostTwiceChance(ps, a) && AtMostTwiceChance(ps, b)
    ensures AtMostTwiceChance(ps, v)
  {
    MatchedLinear(ps, v, c, a, b);
    CrossedLinear(ps, ps, v, c, a, b);
    assert |ps| as real * (c * Matched(ps, a)) == c * (|ps| as real * Matched(ps, a));
  }

  // ----------------------------------------------------------------- squared distances

  /** Counts, sums and products of one numeric reading f of the labels. */
  datatype Moments = Moments(n: real, a: real, b: real, aa: real, bb: real, ab: real)
  {
    /** One more pair, read as x and y. */
    ghost function Add(x: real, y: real): Moments {
      Moments(n + 1.0, a + x, b + y, aa + x * x, bb + y * y, ab + x * y)
    }

    /** Sum of (x - y)^2 over the pairs. */
    ghost function Observed(): real {
      aa + bb - 2.0 * ab
    }

    /** Sum of (x - y)^2 over all judge readings y. */
    ghost function Against(x: real): real {
      n * (x * x) - 2.0 * (x * b) + bb
    }

    /** Sum of (x - y)^2 over all human readings x of this and judge readings y of that. */
    ghost function Across(that: Moments): real {
      that.n * aa - 2.0 * (a * that.b) + n * that.bb
    }

    /** Sum of (x + y)^2 over the pairs. */
    ghost function Doubled(): real {
      aa + bb + 2.0 * ab
    }

    lemma AddObserved(x: real, y: real)
      ensures Add(x, y).Observed() == Observed() + (x - y) * (x - y)
    {
    }

    lemma AddAgainst(h: real, x: real, y: real)
      ensures Add(x, y).Against(h) == Against(h) + (h - y) * (h - y)
    {
    }

    lemma AddAcross(that: Moments, x: real, y: real)
      ensures Add(x, y).Across(that) == Across(that) + that.Against(x)
    {
    }

    lemma AddDoubled(x: real, y: real, z: real)
      requires z == x + y
      ensures Add(x, y).Doubled() == Doubled() + z * z
      ensures Add(x, y).n == n + 1.0 && Add(x, y).a + Add(x, y).b == (a + b) + z
    {
    }

    /** Cauchy-Schwarz for the sums x + y. */
    ghost predicate Cauchy() {
      MeanBelow(n, a + b, Doubled())
    }

    lemma AddCauchy(x: real, y: real)
      requires n >= 1.0 && Cauchy()
      ensures Add(x, y).Cauchy()
    {
      hide MeanBelow, Doubled, Add;
      var z := x + y;
      AddDoubled(x, y, z);
      CauchyStep(n, a + b, Doubled(), z);
    }

    lemma TwiceChance()
      requires Cauchy()
      ensures n * Observed() <= 2.0 * Across(this)
    {
      assert (a + b) * (a + b) == (a - b) * (a - b) + 4.0 * (a * b);
      assert n * (aa + bb + 2.0 * ab) == n * aa + n * bb + 2.0 * (n * ab);
      assert n * (aa + bb - 2.0 * ab) == n * aa + n * bb - 2.0 * (n * ab);
    }
  }

  /** The square of a sum of n numbers against n times the sum of their squares. */
  ghost predicate MeanBelow(n: real, sum: real, squares: real) {
    sum * sum <= n * squares
  }

  lemma CauchyStep(n: real, s: real, q: real, z: real)
    requires n >= 1.0 && MeanBelow(n, s, q)
    ensures MeanBelow(n + 1.0, s + z, q + z * z)
  {
    // n (q + n z^2 - 2 s z) is at least (s - n z)^2.
    var gap := q + n * (z * z) - 2.0 * (s * z);
    CompleteSquare(n, s, q, z);
    assert (s + z) * (s + z) == s * s + 2.0 * (s * z) + z * z;
    assert (n + 1.0) * (q + z * z) == n * q + q + n * (z * z) + z * z;
  }

  lemma CompleteSquare(n: real, s: real, q: real, z: real)
    ensures n * (q + n * (z * z) - 2.0 * (s * z)) == (s - n * z) * (s - n * z) + (n * q - s * s)
    ensures (s - n * z) * (s - n * z) >= 0.0
  {
  }

  ghost function MomentsOf(ps: seq<Pair>, f: string -> real): (m: Moments)
    ensures m.n == |ps| as real
  {
    if ps == [] then Moments(0.0, 0.0, 0.0, 0.0, 0.0, 0.0)
    else
      var last := |ps| - 1;
      MomentsOf(ps[..last], f).Add(f(ps[last].0), f(ps[last].1))
  }

  ghost function SquaredDistance(f: string -> real): Weight {
    (x, y) => (f(x) - f(y)) * (f(x) - f(y))
  }

  lemma {:induction false} MatchedSquares(ps: seq<Pair>, f: string -> real)
    ensures Matched(ps, SquaredDistance(f)) == MomentsOf(ps, f).Observed()
  {
    if ps != [] {
      var last := |ps| - 1;
      MatchedSquares(ps[..last], f);
      MomentsOf(ps[..last], f).AddObserved(f(ps[last].0), f(ps[last].1));
      hide Moments.Observed, Moments.Add;
    }
  }

  lemma EmptyAgainst(x: real)
    ensures Moments(0.0, 0.0, 0.0, 0.0, 0.0, 0.0).Against(x) == 0.0
  {
  }

  lemma {:induction false} AgainstAllSquares(ps: seq<Pair>, f: string -> real, h: string)
    ensures AgainstAll(ps, SquaredDistance(f), h) == MomentsOf(ps, f).Against(f(h))
  {
    hide Moments.Against, Moments.Add;
    if ps == [] {
      EmptyAgainst(f(h));
    } else {
      var last := |ps| - 1;
      AgainstAllSquares(ps[..last], f, h);
      MomentsOf(ps[..last], f).AddAgainst(f(h), f(ps[last].0), f(ps[last].1));
    }
  }

  lemma {:induction false} CrossedSquares(xs: seq<Pair>, ps: seq<Pair>, f: string -> real)
    ensures Crossed(xs, ps, SquaredDistance(f)) == MomentsOf(xs, f).Across(MomentsOf(ps, f))
  {
    if xs != [] {
      var last := |xs| - 1;
      CrossedSquares(xs[..last], ps, f);
      AgainstAllSquares(ps, f, xs[last].0);
      MomentsOf(xs[..last], f).AddAcross(MomentsOf(ps, f), f(xs[last].0), f(xs[last].1));
      hide Moments.Against, Moments.Add, Moments.Across;
    }
  }

  lemma {:induction false} MomentsCauchy(ps: seq<Pair>, f: string -> real)
    ensures MomentsOf(ps, f).Cauchy()
  {
    if |ps| == 1 {
      assert ps[..0] == [];
    } else if ps != [] {
      var last := |ps| - 1;
      MomentsCauchy(ps[..last], f);
      MomentsOf(ps[..last], f).AddCauchy(f(ps[last].0), f(ps[last].1));
      hide Moments.Cauchy, Moments.Add;
    }
  }

  /** Any squared distance between readings of the labels is at most twice chance. */
  lemma SquaresAtMostTwice(ps: seq<Pair>, f: string -> real)
    ensures AtMostTwiceChance(ps, SquaredDistance(f))
  {
    hide Moments.Cauchy, Moments.Across, Moments.Observed, MomentsOf, SquaredDistance, Matched, Crossed;
    MatchedSquares(ps, f);
    CrossedSquares(ps, ps, f);
    MomentsCauchy(ps, f);
    MomentsOf(ps, f).TwiceChance();
  }

  // ----------------------------------------------------------------- mixtures of cuts

  /** How many of the first m yes/no readings of a label pair differ. */
  ghost function Cuts(g: (nat, string) -> bool, m: nat, x: string, y: string): real {
    if m == 0 then 0.0
    else Cuts(g, m - 1, x, y) + if g(m - 1, x) == g(m - 1, y) then 0.0 else 1.0
  }

  ghost function CutWeight(g: (nat, string) -> bool, m: nat): Weight {
    (x, y) => Cuts(g, m, x, y)
  }

  ghost function Reading(g: (nat, string) -> bool, k: nat): string -> real {
    x => if g(k, x) then 1.0 else 0.0
  }

  lemma {:induction false} ZeroWeight(xs: seq<Pair>, ps: seq<Pair>, v: Weight)
    requires forall x, y :: v(x, y) == 0.0
    ensures Matched(ps, v) == 0.0 && Crossed(xs, ps, v) == 0.0
  {
    MatchedLinear(ps, v, 1.0, v, v);
    CrossedLinear(xs, ps, v, 1.0, v, v);
  }

  /** Counting differing cuts is a sum of squared distances, so it too is at most twice chance. */
  lemma {:induction false} CutsAtMostTwice(ps: seq<Pair>, g: (nat, string) -> bool, m: nat)
    ensures AtMostTwiceChance(ps, CutWeight(g, m))
  {
    if m == 0 {
      ZeroWeight(ps, ps, CutWeight(g, 0));
    } else {
      CutsAtMostTwice(ps, g, m - 1);
      SquaresAtMostTwice(ps, Reading(g, m - 1));
      AtMostTwiceLinear(ps, CutWeight(g, m), 1.0, SquaredDistance(Reading(g, m - 1)), CutWeight(g, m - 1));
    }
  }

  // ----------------------------------------------------------------- bounds on chance disagreement

  /** v never rewards a difference, and any difference costs at least `least`. */
  ghost predicate Penalises(v: Weight, least: real) {
    && least > 0.0
    && (forall x :: v(x, x) == 0.0)
    && (forall x, y :: v(x, y) >= 0.0)
  }

  /** A human label of xs and a judge label of ps that differ cost at least `least`. */
  ghost predicate CostsAtLeast(xs: seq<Pair>, ps: seq<Pair>, v: Weight, least: real) {
    forall p, q :: p in xs && q in ps && p.0 != q.1 ==> v(p.0, q.1) >= least
  }

  /** Both raters used one label and no other. */
  ghost predicate OneLabel(ps: seq<Pair>) {
    forall p, q :: p in ps && q in ps ==> p.0 == q.1
  }

  /** Some judge label differs from h. */
  ghost predicate Misses(ps: seq<Pair>, h: string) {
    exists q :: q in ps && q.1 != h
  }

  lemma {:induction false} AgainstAllBounds(ps: seq<Pair>, v: Weight, least: real, h: string)
    requires Penalises(v, least)
    requires forall q :: q in ps && q.1 != h ==> v(h, q.1) >= least
    ensures AgainstAll(ps, v, h) >= 0.0
    ensures Misses(ps, h) ==> AgainstAll(ps, v, h) >= least
    ensures (forall q :: q in ps ==> q.1 != h) ==> AgainstAll(ps, v, h) >= Times(|ps|, least)
    ensures !Misses(ps, h) ==> AgainstAll(ps, v, h) == 0.0
  {
    if ps == [] {
      TimesFacts(0, least);
    } else {
      hide Times;
      var last := |ps| - 1;
      AgainstAllBounds(ps[..last], v, least, h);
      assert ps == ps[..last] + [ps[last]];
      TimesFacts(last, least);
    }
  }

  lemma {:induction false} CrossedNonNegative(xs: seq<Pair>, ps: seq<Pair>, v: Weight)
    requires forall x, y :: v(x, y) >= 0.0
    ensures Crossed(xs, ps, v) >= 0.0
    ensures Matched(ps, v) >= 0.0
    decreases |xs| + |ps|
  {
    if xs != [] {
      CrossedNonNegative(xs[..|xs| - 1], ps, v);
      AgainstAllNonNegative(ps, v, xs[|xs| - 1].0);
    } else if ps != [] {
      CrossedNonNegative([], ps[..|ps| - 1], v);
    }
  }

  lemma {:induction false} AgainstAllNonNegative(ps: seq<Pair>, v: Weight, h: string)
    requires forall x, y :: v(x, y) >= 0.0
    ensures AgainstAll(ps, v, h) >= 0.0
  {
    if ps != [] { AgainstAllNonNegative(ps[..|ps| - 1], v, h); }
  }

  /** If every human label meets some judge label it differs from, each contributes. */
  lemma {:induction false} CrossedEachRow(xs: seq<Pair>, ps: seq<Pair>, v: Weight, least: real)
    requires Penalises(v, least) && CostsAtLeast(xs, ps, v, least)
    requires forall p :: p in xs ==> Misses(ps, p.0)
    ensures Crossed(xs, ps, v) >= Times(|xs|, least)
  {
    if xs == [] {
      TimesFacts(0, least);
    } else {
      hide Times, Misses, Penalises;
      var last := |xs| - 1;
      assert xs[last] in xs;
      CrossedEachRow(xs[..last], ps, v, least);
      AgainstAllBounds(ps, v, least, xs[last].0);
      TimesFacts(last, least);
    }
  }

  /** One human label no judge label matches contributes once per pair. */
  lemma {:induction false} CrossedOneRow(xs: seq<Pair>, ps: seq<Pair>, v: Weight, least: real, p: Pair)
    requires Penalises(v, least) && CostsAtLeast(xs, ps, v, least)
    requires p in xs && forall q :: q in ps ==> q.1 != p.0
    ensures Crossed(xs, ps, v) >= Times(|ps|, least)
  {
    hide Times;
    var last := |xs| - 1;
    assert xs == xs[..last] + [xs[last]];
    AgainstAllBounds(ps, v, least, xs[last].0);
    if xs[last] == p {
      CrossedNonNegative(xs[..last], ps, v);
    } else {
      CrossedOneRow(xs[..last], ps, v, least, p);
    }
  }

  lemma {:induction false} CrossedZero(xs: seq<Pair>, ps: seq<Pair>, v: Weight, least: real)
    requires Penalises(v, least)
    requires forall p, q :: p in xs && q in ps ==> p.0 == q.1
    ensures Crossed(xs, ps, v) == 0.0
  {
    if xs != [] {
      var last := |xs| - 1;
      assert xs == xs[..last] + [xs[last]];
      CrossedZero(xs[..last], ps, v, least);
      AgainstAllBounds(ps, v, least, xs[last].0);
    }
  }

  /** Unless both raters used one common label, chance disagreement is at least n differences' worth. */
  lemma ChanceDisagreementFloor(ps: seq<Pair>, v: Weight, least: real)
    requires Penalises(v, least) && CostsAtLeast(ps, ps, v, least)
    ensures OneLabel(ps) ==> Crossed(ps, ps, v) == 0.0
    ensures !OneLabel(ps) ==> Crossed(ps, ps, v) >= Times(|ps|, least)
  {
    hide Times, Penalises;
    if OneLabel(ps) {
      CrossedZero(ps, ps, v, least);
    } else if forall p :: p in ps ==> Misses(ps, p.0) {
      CrossedEachRow(ps, ps, v, least);
    } else {
      // Some human label matches every judge label, so the judge used one label only.
      var p :| p in ps && !Misses(ps, p.0);
      var r, s :| r in ps && s in ps && r.0 != s.1;
      assert s.1 == p.0;
      assert forall q :: q in ps ==> q.1 != r.0;
      CrossedOneRow(ps, ps, v, least, r);
    }
  }

  /** A judge that always answers c does exactly as well as chance. */
  lemma {:induction false} ConstantJudgeIsChance(xs: seq<Pair>, ps: seq<Pair>, v: Weight, c: string)
    requires forall q :: q in xs || q in ps ==> q.1 == c
    ensures Crossed(xs, ps, v) == |ps| as real * Matched(xs, v)
  {
    if xs != [] {
      var last := |xs| - 1;
      assert xs == xs[..last] + [xs[last]];
      ConstantJudgeIsChance(xs[..last], ps, v, c);
      AgainstConstant(ps, v, xs[last].0, c);
    }
  }

  lemma {:induction false} AgainstConstant(ps: seq<Pair>, v: Weight, h: string, c: string)
    requires forall q :: q in ps ==> q.1 == c
    ensures AgainstAll(ps, v, h) == |ps| as real * v(h, c)
  {
    if ps != [] {
      var last := |ps| - 1;
      assert ps == ps[..last] + [ps[last]];
      AgainstConstant(ps[..last], v, h, c);
      assert |ps| as real * v(h, c) == last as real * v(h, c) + v(h, c);
    }
  }

  /** The observed disagreement vanishes exactly when every pair agrees. */
  lemma {:induction false} MatchedZeroIff(ps: seq<Pair>, v: Weight, least: real)
    requires Penalises(v, least)
    requires forall p :: p in ps && p.0 != p.1 ==> v(p.0, p.1) >= least
    ensures Matched(ps, v) >= 0.0
    ensures Matched(ps, v) == 0.0 <==> forall p :: p in ps ==> p.0 == p.1
  {
    if ps != [] {
      var last := |ps| - 1;
      assert ps == ps[..last] + [ps[last]];
      MatchedZeroIff(ps[..last], v, least);
    }
  }
}
