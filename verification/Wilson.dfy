/** The Wilson score interval (packages/evaluation-core/src/proofstep_core/stats.py), in exact arithmetic. */
module Wilson {
  import opened Common
  import opened Reals

  /** What the square root is taken of. */
  function Radicand(p: real, n: real, z: real): real
    requires n > 0.0
  {
    p * (1.0 - p) / n + z * z / (4.0 * (n * n))
  }

  /**
   `root` is the square root of the radicand; `z` the quantile for the confidence asked for.
   Both are numeric results of the mathematics library.
   */
  function WilsonCi(successes: int, total: int, z: real, root: real): (real, real)
    requires total > 0 ==> root >= 0.0 && root * root == Radicand(successes as real / total as real, total as real, z)
  {
    if total <= 0 then (0.0, 1.0)
    else
      var ends := Ends(successes as real / total as real, total as real, z, root);
      (MaxReal(0.0, ends.0), MinReal(1.0, ends.1))
  }

  /** Centre minus and plus margin, before the clamps to [0, 1]. */
  function Ends(p: real, n: real, z: real, root: real): (real, real)
    requires n > 0.0
  {
    NonNegativeShare(z, n);
    var denominator := 1.0 + z * z / n;
    var center := (p + z * z / (2.0 * n)) / denominator;
    var margin := z / denominator * root;
    (center - margin, center + margin)
  }

  /** p0 survives the score test: the observed share is within z standard errors, computed under p0. */
  ghost predicate NotRejected(p: real, n: real, z: real, p0: real)
    requires n > 0.0
  {
    (p - p0) * (p - p0) <= z * z * (p0 * (1.0 - p0)) / n
  }

  // ----------------------------------------------------------------- with a = z^2 / n

  lemma ScoreIdentity(p: real, a: real, p0: real)
    ensures (1.0 + a) * ((p - p0) * (p - p0) - a * (p0 * (1.0 - p0)))
         == ((1.0 + a) * p0 - (p + a / 2.0)) * ((1.0 + a) * p0 - (p + a / 2.0)) - (a * (p * (1.0 - p)) + a * a / 4.0)
  {
  }

  lemma MarginIdentities(p: real, a: real)
    ensures (p + a / 2.0) * (p + a / 2.0) - (a * (p * (1.0 - p)) + a * a / 4.0) == (1.0 + a) * (p * p)
    ensures (1.0 - p + a / 2.0) * (1.0 - p + a / 2.0) - (a * (p * (1.0 - p)) + a * a / 4.0) ==
        (1.0 + a) * ((1.0 - p) * (1.0 - p))
  {
  }

  lemma ShareTimes(x: real, w: real, n: real)
    requires n > 0.0
    ensures x * w / n == x / n * w
  {
    var u := x / n;
    assert u * n == x;
    assert x * w == u * w * n;
  }

  lemma ScaledSign(d: real, x: real, dx: real)
    requires d > 0.0 && dx == d * x
    ensures x <= 0.0 <==> dx <= 0.0
  {
  }

  /** g is the margin times 1 + a. Membership in the interval, before dividing by 1 + a, is the score test. */
  lemma InsideIffSmall(p: real, a: real, g: real, p0: real)
    requires a >= 0.0 && g >= 0.0 && g * g == a * (p * (1.0 - p)) + a * a / 4.0
    ensures (p - p0) * (p - p0) <= a * (p0 * (1.0 - p0)) <==>
            p + a / 2.0 - g <= (1.0 + a) * p0 <= p + a / 2.0 + g
  {
    var gap := (p - p0) * (p - p0) - a * (p0 * (1.0 - p0));
    var x := (1.0 + a) * p0 - (p + a / 2.0);
    ScoreIdentity(p, a, p0);
    ScaledSign(1.0 + a, gap, x * x - g * g);
    var y := if x < 0.0 then -x else x;
    assert x * x == y * y;
    SquareOrder(y, g);
  }

  /** g is also the margin that keeps both ends of the interval inside [0, 1 + a]. */
  lemma EndsInside(p: real, a: real, g: real)
    requires 0.0 <= p <= 1.0 && a >= 0.0 && g >= 0.0
    requires g * g == a * (p * (1.0 - p)) + a * a / 4.0
    ensures g <= p + a / 2.0 && g <= 1.0 - p + a / 2.0
  {
    MarginIdentities(p, a);
    NonNegative(1.0 + a, p);
    NonNegative(1.0 + a, 1.0 - p);
    SquareOrder(g, p + a / 2.0);
    SquareOrder(g, 1.0 - p + a / 2.0);
  }

  lemma NonNegative(d: real, x: real)
    requires d > 0.0
    ensures d * (x * x) >= 0.0
  {
    assert x * x >= 0.0;
  }

  lemma ProportionRange(s: int, n: int)
    requires 0 <= s <= n && n > 0
    ensures 0.0 <= s as real / n as real <= 1.0
  {
    var q := s as real / n as real;
    assert q * n as real == s as real;
  }

  /** The two forms of the margin: z times the root is the g of the lemmas above. */
  lemma MarginSquare(p: real, n: real, z: real, root: real, a: real)
    requires n > 0.0 && a == z * z / n && root * root == Radicand(p, n, z)
    ensures (z * root) * (z * root) == a * (p * (1.0 - p)) + a * a / 4.0
  {
    var q := p * (1.0 - p);
    var u := 1.0 / n;
    assert a == z * z * u;
    assert q / n == q * u;
    assert z * z / (4.0 * (n * n)) == z * z * (u * u) / 4.0 by {
      assert n * u == 1.0;
      assert (n * n) * (u * u) == 1.0 by { assert (n * n) * (u * u) == (n * u) * (n * u); }
      QuarterShare(z * z, n * n, u * u);
    }
    assert root * root == q * u + z * z * (u * u) / 4.0;
    assert (z * root) * (z * root) == z * z * (root * root);
    assert z * z * (q * u + z * z * (u * u) / 4.0) == (z * z * u) * q + (z * z * u) * (z * z * u) / 4.0;
  }

  lemma QuarterShare(w: real, m: real, v: real)
    requires m > 0.0 && m * v == 1.0
    ensures w / (4.0 * m) == w * v / 4.0
  {
    var x := w / (4.0 * m);
    assert x * (4.0 * m) == w;
    assert x * 4.0 * (m * v) == w * v;
  }

  /** Centre and half-width over the common denominator. */
  lemma EndsOverDenominator(p: real, n: real, z: real, root: real, a: real)
    requires n > 0.0 && a == z * z / n && a >= 0.0
    ensures (p + z * z / (2.0 * n)) / (1.0 + z * z / n) - z / (1.0 + z * z / n) * root ==
        (p + a / 2.0 - z * root) / (1.0 + a)
    ensures (p + z * z / (2.0 * n)) / (1.0 + z * z / n) + z / (1.0 + z * z / n) * root ==
        (p + a / 2.0 + z * root) / (1.0 + a)
  {
    var d := 1.0 + a;
    assert z * z / (2.0 * n) == a / 2.0;
    var u := 1.0 / d;
    assert z / d * root == z * root * u;
    assert (p + a / 2.0) / d == (p + a / 2.0) * u;
    assert (p + a / 2.0 - z * root) / d == (p + a / 2.0 - z * root) * u;
    assert (p + a / 2.0 + z * root) / d == (p + a / 2.0 + z * root) * u;
  }

  lemma NonNegativeShare(z: real, n: real)
    requires n > 0.0
    ensures z * z / n >= 0.0
  {
    assert z * z >= 0.0;
  }

  /** z^2 / n, and the margin times 1 + z^2 / n. */
  ghost function A(n: real, z: real): real
    requires n > 0.0
  {
    z * z / n
  }

  ghost function G(z: real, root: real): real {
    z * root
  }

  /** g is the margin before dividing by 1 + a. */
  ghost predicate IsMargin(p: real, a: real, g: real) {
    a >= 0.0 && g >= 0.0 && g * g == a * (p * (1.0 - p)) + a * a / 4.0
  }

  /** The score test, before dividing. */
  ghost predicate Close(p: real, a: real, p0: real) {
    (p - p0) * (p - p0) <= a * (p0 * (1.0 - p0))
  }

  ghost function EndAt(centre: real, a: real): real
    requires 1.0 + a > 0.0
  {
    centre / (1.0 + a)
  }

  lemma EndsForm(p: real, n: real, z: real, root: real)
    requires n > 0.0 && z >= 0.0 && root >= 0.0 && root * root == Radicand(p, n, z)
    ensures var a, g := A(n, z), G(z, root);
      && a >= 0.0 && IsMargin(p, a, g)
      && Ends(p, n, z, root) == (EndAt(p + a / 2.0 - g, a), EndAt(p + a / 2.0 + g, a))
  {
    NonNegativeShare(z, n);
    NonNegativeProduct(z, root);
    MarginSquare(p, n, z, root, A(n, z));
    EndsOverDenominator(p, n, z, root, A(n, z));
    hide Radicand;
  }

  lemma RejectionForm(p: real, n: real, z: real, p0: real)
    requires n > 0.0
    ensures NotRejected(p, n, z, p0) <==> Close(p, A(n, z), p0)
  {
    ShareTimes(z * z, p0 * (1.0 - p0), n);
  }

  lemma BetweenEnds(c: real, g: real, a: real, p0: real)
    requires a >= 0.0
    ensures EndAt(c - g, a) <= p0 <= EndAt(c + g, a) <==> c - g <= (1.0 + a) * p0 <= c + g
  {
    QuotientOrder(c - g, 1.0 + a, p0);
    QuotientOrder(c + g, 1.0 + a, p0);
  }

  lemma EndsOf(p: real, a: real, g: real, p0: real)
    requires 0.0 <= p <= 1.0 && a >= 0.0 && IsMargin(p, a, g)
    ensures EndAt(p + a / 2.0 - g, a) <= p0 <= EndAt(p + a / 2.0 + g, a) <==> Close(p, a, p0)
  {
    InsideIffSmall(p, a, g, p0);
    hide IsMargin, EndAt;
    BetweenEnds(p + a / 2.0, g, a, p0);
  }

  /** With no trials nothing is known. */
  lemma NoTrials(successes: int, total: int, z: real, root: real)
    requires total <= 0
    ensures WilsonCi(successes, total, z, root) == (0.0, 1.0)
  {
  }

  lemma ClampsNeverBind(p: real, a: real, g: real)
    requires 0.0 <= p <= 1.0 && a >= 0.0 && IsMargin(p, a, g)
    ensures EndAt(p + a / 2.0 - g, a) >= 0.0
    ensures EndAt(p + a / 2.0 + g, a) <= 1.0
  {
    EndsInside(p, a, g);
    QuotientOrder(p + a / 2.0 - g, 1.0 + a, 0.0);
    QuotientOrder(p + a / 2.0 + g, 1.0 + a, 1.0);
  }

  /** The unclamped interval is the set of proportions the score test does not reject, and it lies in [0, 1]. */
  lemma EndsInvertScoreTest(p: real, n: real, z: real, root: real, p0: real)
    requires 0.0 <= p <= 1.0 && n > 0.0 && z >= 0.0 && root >= 0.0
    requires root * root == Radicand(p, n, z)
    ensures Ends(p, n, z, root).0 <= p0 <= Ends(p, n, z, root).1 <==> NotRejected(p, n, z, p0)
    ensures 0.0 <= Ends(p, n, z, root).0 && Ends(p, n, z, root).1 <= 1.0
  {
    hide *;
    EndsForm(p, n, z, root);
    RejectionForm(p, n, z, p0);
    EndsOf(p, A(n, z), G(z, root), p0);
    ClampsNeverBind(p, A(n, z), G(z, root));
  }

  /**
   The interval is exactly the set of proportions the score test does not reject, and the clamps
   to [0, 1] change nothing.
   */
  lemma WilsonInvertsScoreTest(successes: int, total: int, z: real, root: real, p0: real)
    requires 0 <= successes <= total && total > 0 && z >= 0.0
    requires root >= 0.0 && root * root == Radicand(successes as real / total as real, total as real, z)
    ensures
      var p, n := successes as real / total as real, total as real;
      var (low, high) := WilsonCi(successes, total, z, root);
      && (low <= p0 <= high <==> NotRejected(p, n, z, p0))
      && (low, high) == Ends(p, n, z, root)
  {
    hide Ends, NotRejected;
    ProportionRange(successes, total);
    EndsInvertScoreTest(successes as real / total as real, total as real, z, root, p0);
  }

  /** The observed share is never outside its own interval, and the interval never outside [0, 1]. */
  lemma WilsonContainsShare(successes: int, total: int, z: real, root: real)
    requires 0 <= successes <= total && total > 0 && z >= 0.0
    requires root >= 0.0 && root * root == Radicand(successes as real / total as real, total as real, z)
    ensures
      var (low, high) := WilsonCi(successes, total, z, root);
      0.0 <= low <= successes as real / total as real <= high <= 1.0
  {
    var p, n := successes as real / total as real, total as real;
    hide Ends, NotRejected;
    ProportionRange(successes, total);
    EndsInvertScoreTest(p, n, z, root, p);
    NonNegativeVariance(p, n, z);
  }

  lemma NonNegativeVariance(p: real, n: real, z: real)
    requires 0.0 <= p <= 1.0 && n > 0.0
    ensures NotRejected(p, n, z, p)
  {
    var q, w := p * (1.0 - p), z * z;
    NonNegativeProduct(p, 1.0 - p);
    assert w >= 0.0;
    NonNegativeProduct(w, q);
    assert w * q / n >= 0.0;
  }

}
