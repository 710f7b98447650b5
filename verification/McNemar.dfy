/**
 The exact McNemar test (packages/evaluation-core/src/proofstep_core/significance.py): integer
 binomial sums, divided once at the end.
 */
module McNemar {
  import opened Common
  import opened Reals

  datatype Alternative = Less | Greater | TwoSided

  // ----------------------------------------------------------------- binomial sums

  function Comb(n: nat, k: nat): nat {
    if k == 0 then 1
    else if n == 0 then 0
    else Comb(n - 1, k - 1) + Comb(n - 1, k)
  }

  function Pow2(n: nat): (r: nat)
    ensures r > 0
  {
    if n == 0 then 1 else 2 * Pow2(n - 1)
  }

  /** sum(comb(n, k) for k in range(atMost + 1)) */
  function Ways(n: nat, atMost: nat): (r: nat)
    ensures r > 0
  {
    if atMost == 0 then 1 else Ways(n, atMost - 1) + Comb(n, atMost)
  }

  lemma {:induction false} CombZeroIff(n: nat, k: nat)
    ensures Comb(n, k) == 0 <==> k > n
  {
    if k > 0 && n > 0 {
      CombZeroIff(n - 1, k - 1);
      CombZeroIff(n - 1, k);
    }
  }

  lemma {:induction false} CombSymmetric(n: nat, k: nat)
    requires k <= n
    ensures Comb(n, k) == Comb(n, n - k)
  {
    if 0 < k < n {
      CombSymmetric(n - 1, k - 1);
      CombSymmetric(n - 1, k);
    } else if n > 0 {
      CombDiagonal(n);
    }
  }

  lemma {:induction false} CombDiagonal(n: nat)
    ensures Comb(n, n) == 1
  {
    if n > 0 {
      CombDiagonal(n - 1);
      CombZeroIff(n - 1, n);
    }
  }

  function Factorial(n: nat): nat {
    if n == 0 then 1 else n * Factorial(n - 1)
  }

  /** Pascal's rule counts what math.comb does: n! / (k! (n - k)!). */
  lemma {:induction false} CombIsFactorialQuotient(n: nat, k: nat)
    requires k <= n
    ensures Comb(n, k) * Factorial(k) * Factorial(n - k) == Factorial(n)
  {
    if k == n {
      CombDiagonal(n);
    } else if k > 0 {
      CombIsFactorialQuotient(n - 1, k - 1);
      CombIsFactorialQuotient(n - 1, k);
      PascalFactorials(n, k, Comb(n - 1, k - 1), Comb(n - 1, k), Factorial(k - 1), Factorial(n - 1 - k),
          Factorial(n - 1));
    }
  }

  lemma PascalFactorials(n: nat, k: nat, a: nat, b: nat, fk: nat, fn: nat, f: nat)
    requires 0 < k < n
    requires a * fk * ((n - k) * fn) == f
    requires b * (k * fk) * fn == f
    ensures (a + b) * (k * fk) * ((n - k) * fn) == n * f
  {
    assert a * (k * fk) * ((n - k) * fn) == k * (a * fk * ((n - k) * fn));
    assert b * (k * fk) * ((n - k) * fn) == (n - k) * (b * (k * fk) * fn);
  }

  lemma {:induction false} WaysStep(n: nat, k: nat)
    ensures Ways(n + 1, k) == Ways(n, k) + if k == 0 then 0 else Ways(n, k - 1)
  {
    if k > 0 { WaysStep(n, k - 1); }
  }

  lemma {:induction false} WaysAll(n: nat)
    ensures Ways(n, n) == Pow2(n)
  {
    if n > 0 {
      WaysAll(n - 1);
      WaysStep(n - 1, n);
      CombZeroIff(n - 1, n);
    }
  }

  lemma {:induction false} WaysMonotone(n: nat, j: nat, k: nat)
    requires j <= k
    ensures Ways(n, j) <= Ways(n, k)
  {
    if j < k { WaysMonotone(n, j, k - 1); }
  }

  lemma WaysAtMostAll(n: nat, k: nat)
    requires k <= n
    ensures Ways(n, k) <= Pow2(n)
  {
    WaysAll(n);
    WaysMonotone(n, k, n);
  }

  /** At most k improvements, or at most n - k - 1 regressions: one or the other, never both. */
  lemma {:induction false} WaysComplement(n: nat, k: nat)
    requires k < n
    ensures Ways(n, k) + Ways(n, n - k - 1) == Pow2(n)
  {
    if k == 0 {
      WaysAll(n);
      CombDiagonal(n);
    } else {
      WaysComplement(n, k - 1);
      CombSymmetric(n, k);
    }
  }

  // ----------------------------------------------------------------- what the sum counts

  /** Every sequence of a, with one more flip at its end. */
  ghost function Appended(a: set<seq<bool>>, b: bool): set<seq<bool>> {
    set s | s in a :: s + [b]
  }

  lemma AppendedIn(a: set<seq<bool>>, b: bool, s: seq<bool>)
    ensures s in Appended(a, b) <==> s != [] && s[..|s| - 1] in a && s[|s| - 1] == b
  {
    if s != [] {
      assert s == s[..|s| - 1] + [s[|s| - 1]];
      forall t | t in a && s == t + [b]
        ensures t == s[..|s| - 1]
      {
      }
    }
  }

  lemma {:induction false} AppendedSize(a: set<seq<bool>>, b: bool)
    ensures |Appended(a, b)| == |a|
    decreases |a|
  {
    if a != {} {
      var x :| x in a;
      AppendedSize(a - {x}, b);
      AppendedIn(a - {x}, b, x + [b]);
      assert (x + [b])[..|x|] == x;
      assert Appended(a, b) == Appended(a - {x}, b) + {x + [b]};
    }
  }

  /** Every way n fair coins can fall; true is an improvement. */
  ghost function Flips(n: nat): set<seq<bool>> {
    if n == 0 then {[]}
    else Appended(Flips(n - 1), true) + Appended(Flips(n - 1), false)
  }

  ghost function Improvements(s: seq<bool>): nat {
    if s == [] then 0 else Improvements(s[..|s| - 1]) + if s[|s| - 1] then 1 else 0
  }

  /** The outcomes with at most k improvements. */
  ghost function Few(n: nat, k: int): set<seq<bool>> {
    set s | s in Flips(n) && Improvements(s) <= k
  }

  lemma {:induction false} FlipsAre(n: nat, s: seq<bool>)
    ensures s in Flips(n) <==> |s| == n
  {
    if n > 0 {
      AppendedIn(Flips(n - 1), true, s);
      AppendedIn(Flips(n - 1), false, s);
      if |s| > 0 { FlipsAre(n - 1, s[..|s| - 1]); }
    }
  }

  lemma FewStep(n: nat, k: int)
    ensures |Few(n + 1, k)| == |Few(n, k - 1)| + |Few(n, k)|
  {
    var up, down := Appended(Few(n, k - 1), true), Appended(Few(n, k), false);
    AppendedSize(Few(n, k - 1), true);
    AppendedSize(Few(n, k), false);
    forall s: seq<bool>
      ensures s in Few(n + 1, k) <==> s in up || s in down
      ensures !(s in up && s in down)
    {
      FlipsAre(n + 1, s);
      AppendedIn(Few(n, k - 1), true, s);
      AppendedIn(Few(n, k), false, s);
      if s != [] { FlipsAre(n, s[..|s| - 1]); }
    }
    hide *;
    assert Few(n + 1, k) == up + down;
    assert up !! down;
  }

  lemma {:induction false} FewNone(n: nat, k: int)
    requires k < 0
    ensures Few(n, k) == {}
  {
  }

  lemma {:induction false} WaysCountsOutcomes(n: nat, k: nat)
    ensures |Few(n, k)| == Ways(n, k)
  {
    hide Few, Ways;
    if n == 0 {
      FewNoCoins(k);
      NoCoins(k);
    } else {
      FewStep(n - 1, k);
      WaysStep(n - 1, k);
      WaysCountsOutcomes(n - 1, k);
      if k > 0 { WaysCountsOutcomes(n - 1, k - 1); } else { FewNone(n - 1, -1); }
    }
  }

  lemma FewNoCoins(k: nat)
    ensures |Few(0, k)| == 1
  {
    assert Few(0, k) == {[]};
  }

  lemma {:induction false} NoCoins(k: nat)
    ensures Ways(0, k) == 1
  {
    if k > 0 { NoCoins(k - 1); }
  }

  // ----------------------------------------------------------------- the test

  function Tail(n: nat, atMost: nat): real {
    Ways(n, atMost) as real / Pow2(n) as real
  }

  function McNemarExact(regressed: nat, improved: nat, alternative: Alternative): real {
    var n := regressed + improved;
    if n == 0 then 1.0
    else
      match alternative
      case Less => MinReal(1.0, Tail(n, improved))
      case Greater => MinReal(1.0, Tail(n, regressed))
      case TwoSided => MinReal(1.0, 2.0 * Tail(n, Min(regressed, improved)))
  }

  lemma TailInRange(n: nat, k: nat)
    requires k <= n
    ensures 0.0 < Tail(n, k) <= 1.0
  {
    WaysAtMostAll(n, k);
    RatioInRange(Ways(n, k), Pow2(n));
  }

  lemma RatioInRange(a: nat, b: nat)
    requires 0 < a <= b
    ensures 0.0 < a as real / b as real <= 1.0
  {
    var q := a as real / b as real;
    assert q * b as real == a as real;
  }

  /** A p-value is a probability, and never exactly zero. */
  lemma McNemarInRange(regressed: nat, improved: nat, alternative: Alternative)
    ensures 0.0 < McNemarExact(regressed, improved, alternative) <= 1.0
  {
    var n := regressed + improved;
    TailInRange(n, improved);
    TailInRange(n, regressed);
    hide Tail;
  }

  // ----------------------------------------------------------------- the call

  /** Integers whose nearest double would be 2^1024 are refused by the conversion. */
  predicate TooLarge(k: nat) {
    k + Pow2(970) >= Pow2(1024)
  }

  /** The source divides after converting both counts to double. */
  function McNemarCall(regressed: nat, improved: nat, alternative: Alternative): Fallible<real> {
    var n := regressed + improved;
    var atMost :=
      match alternative
      case Less => improved
      case Greater => regressed
      case TwoSided => Min(regressed, improved);
    if n > 0 && (TooLarge(Ways(n, atMost)) || TooLarge(Pow2(n))) then Raises
    else Yields(McNemarExact(regressed, improved, alternative))
  }

  lemma {:induction false} Pow2Monotone(m: nat, n: nat)
    requires m <= n
    ensures Pow2(m) <= Pow2(n)
  {
    if m < n { Pow2Monotone(m, n - 1); }
  }

  lemma {:induction false} Pow2Step(n: nat)
    ensures Pow2(n + 1) == 2 * Pow2(n)
  {
  }

  /** e is the first power of two a double cannot hold, and 2^d half the distance between the doubles before it. */
  lemma {:induction false} TooLargeIff(n: nat, e: nat, d: nat)
    requires d + 1 < e
    ensures Pow2(n) + Pow2(d) >= Pow2(e) <==> n >= e
  {
    hide Pow2;
    if n < e {
      Pow2Monotone(n, e - 1);
      Pow2Monotone(d, e - 2);
      Pow2Step(e - 1);
      Pow2Step(e - 2);
    } else {
      Pow2Monotone(e, n);
    }
  }

  /** The test raises exactly from 1024 discordant pairs on; else it returns the exact value, a nonzero probability. */
  lemma McNemarRaisesIff(regressed: nat, improved: nat, alternative: Alternative)
    ensures McNemarCall(regressed, improved, alternative).Raises? <==> regressed + improved >= 1024
    ensures var r := McNemarCall(regressed, improved, alternative);
      r.Yields? ==> r.value == McNemarExact(regressed, improved, alternative) && 0.0 < r.value <= 1.0
  {
    McNemarInRange(regressed, improved, alternative);
    hide Pow2, Ways, McNemarExact;
    var n := regressed + improved;
    TooLargeIff(n, 1024, 970);
    WaysAtMostAll(n, improved);
    WaysAtMostAll(n, regressed);
  }

  /** The cap never binds one-sidedly, and no discordant pair at all is the same formula with n = 0. */
  lemma LessIsTail(regressed: nat, improved: nat)
    ensures McNemarExact(regressed, improved, Less) == Tail(regressed + improved, improved)
  {
    TailInRange(regressed + improved, improved);
    if regressed + improved == 0 { assert Tail(0, 0) == 1.0; }
  }

  lemma {:induction false} AllRegressed(k: nat)
    ensures McNemarExact(k, 0, Less) == 1.0 / Pow2(k) as real
  {
    LessIsTail(k, 0);
    hide McNemarExact;
  }

  lemma {:induction false} AllImproved(k: nat)
    ensures McNemarExact(0, k, Less) == 1.0
  {
    LessIsTail(0, k);
    WaysAll(k);
    WholeShare(Ways(k, k), Pow2(k));
    hide McNemarExact, Ways, Pow2;
  }

  lemma WholeShare(a: nat, b: nat)
    requires a == b > 0
    ensures a as real / b as real == 1.0
  {
  }

  /** It is the share of equally likely outcomes with at most this many improvements. */
  lemma McNemarIsShareOfOutcomes(regressed: nat, improved: nat)
    ensures |Flips(regressed + improved)| == Pow2(regressed + improved)
    ensures McNemarExact(regressed, improved, Less)
         == |Few(regressed + improved, improved)| as real / |Flips(regressed + improved)| as real
  {
    var n := regressed + improved;
    WaysCountsOutcomes(n, improved);
    WaysCountsOutcomes(n, n);
    WaysAll(n);
    AllFew(n);
    LessIsTail(regressed, improved);
    hide McNemarExact, Few, Flips, Ways, Pow2;
  }

  lemma {:induction false} AllFew(n: nat)
    ensures Few(n, n) == Flips(n)
  {
    forall s | s in Flips(n)
      ensures Improvements(s) <= n
    {
      FlipsAre(n, s);
      ImprovementsBound(s);
    }
  }

  lemma {:induction false} ImprovementsBound(s: seq<bool>)
    ensures Improvements(s) <= |s|
  {
    if s != [] { ImprovementsBound(s[..|s| - 1]); }
  }

  /** Swapping the runs swaps the one-sided tests and leaves the two-sided one alone. */
  lemma McNemarMirror(regressed: nat, improved: nat)
    ensures McNemarExact(regressed, improved, Less) == McNemarExact(improved, regressed, Greater)
    ensures McNemarExact(regressed, improved, TwoSided) == McNemarExact(improved, regressed, TwoSided)
  {
    assert regressed + improved == improved + regressed;
  }

  /** The two one-sided tests overlap in the observed outcome and in nothing else. */
  lemma McNemarOneSidedSum(regressed: nat, improved: nat)
    ensures McNemarExact(regressed, improved, Less) + McNemarExact(regressed, improved, Greater)
         == 1.0 + Comb(regressed + improved, improved) as real / Pow2(regressed + improved) as real
  {
    var n := regressed + improved;
    TailInRange(n, improved);
    TailInRange(n, regressed);
    var p := Pow2(n) as real;
    if n > 0 {
      assert Ways(n, improved) + Ways(n, regressed) == Pow2(n) + Comb(n, improved) by {
        if improved == 0 {
          WaysAll(n);
        } else {
          WaysComplement(n, improved - 1);
        }
      }
      SumOfShares(Ways(n, improved), Ways(n, regressed), Comb(n, improved), Pow2(n));
    }
  }

  lemma SumOfShares(a: nat, b: nat, c: nat, p: nat)
    requires p > 0 && a + b == p + c
    ensures a as real / p as real + b as real / p as real == 1.0 + c as real / p as real
  {
    AddQuotients(a as real, b as real, p as real);
    AddQuotients(p as real, c as real, p as real);
    assert a as real + b as real == p as real + c as real;
  }

  /** One more regression strictly lowers the p-value of "worse". */
  lemma McNemarMoreRegressions(regressed: nat, improved: nat)
    ensures McNemarExact(regressed + 1, improved, Less) < McNemarExact(regressed, improved, Less)
  {
    var n := regressed + improved;
    LessIsTail(regressed, improved);
    LessIsTail(regressed + 1, improved);
    WaysStep(n, improved);
    CombZeroIff(n, improved);
    assert Pow2(n + 1) == 2 * Pow2(n);
    assert Ways(n + 1, improved) < 2 * Ways(n, improved);
    CompareTails(n + 1, improved, n, improved);
  }

  /** One more improvement never lowers it, and raises it unless nothing regressed. */
  lemma McNemarMoreImprovements(regressed: nat, improved: nat)
    ensures McNemarExact(regressed, improved + 1, Less) >= McNemarExact(regressed, improved, Less)
    ensures McNemarExact(regressed, improved + 1, Less) > McNemarExact(regressed, improved, Less) <==> regressed > 0
  {
    var n := regressed + improved;
    LessIsTail(regressed, improved);
    LessIsTail(regressed, improved + 1);
    WaysStep(n, improved + 1);
    CombZeroIff(n, improved + 1);
    assert Pow2(n + 1) == 2 * Pow2(n);
    assert Ways(n + 1, improved + 1) == 2 * Ways(n, improved) + Comb(n, improved + 1);
    CompareTails(n + 1, improved + 1, n, improved);
  }

  lemma CompareTails(m: nat, j: nat, n: nat, k: nat)
    requires Pow2(m) == 2 * Pow2(n)
    ensures Tail(m, j) < Tail(n, k) <==> Ways(m, j) < 2 * Ways(n, k)
    ensures Tail(m, j) > Tail(n, k) <==> Ways(m, j) > 2 * Ways(n, k)
  {
    var a, b, p := Ways(m, j), Ways(n, k), Pow2(n);
    CompareShares(a, 2 * p, b, p);
    CancelFactor(p, a, 2 * b);
    assert b * (2 * p) == 2 * b * p;
  }

  lemma CancelFactor(p: nat, x: nat, y: nat)
    requires p > 0
    ensures x * p < y * p <==> x < y
    ensures x * p == y * p <==> x == y
  {
    if x < y { assert x * p < y * p; }
    if y < x { assert y * p < x * p; }
  }

  lemma CompareShares(a: nat, p: nat, b: nat, q: nat)
    requires p > 0 && q > 0
    ensures a as real / p as real < b as real / q as real <==> a * q < b * p
    ensures a as real / p as real == b as real / q as real <==> a * q == b * p
  {
    var x, y := a as real / p as real, b as real / q as real;
    assert x * p as real == a as real && y * q as real == b as real;
    var pq := p as real * q as real;
    assert (a * q) as real == x * pq;
    assert (b * p) as real == y * pq;
    assert pq > 0.0;
  }

  lemma TailMonotone(n: nat, j: nat, k: nat)
    requires j <= k
    ensures Tail(n, j) <= Tail(n, k)
  {
    WaysMonotone(n, j, k);
    CompareShares(Ways(n, j), Pow2(n), Ways(n, k), Pow2(n));
    hide Ways, Pow2;
    CancelFactor(Pow2(n), Ways(n, j), Ways(n, k));
  }

  /** The two-sided value doubles the smaller of the one-sided ones, up to 1. */
  lemma McNemarTwoSided(regressed: nat, improved: nat)
    ensures McNemarExact(regressed, improved, TwoSided)
         == MinReal(1.0, 2.0 * MinReal(McNemarExact(regressed, improved, Less),
             McNemarExact(regressed, improved, Greater)))
  {
    var n := regressed + improved;
    TailInRange(n, improved);
    TailInRange(n, regressed);
    TailMonotone(n, Min(regressed, improved), Max(regressed, improved));
    hide Tail;
  }

  /** The two-sided cap binds exactly when the two counts are equal. */
  lemma McNemarTwoSidedCap(regressed: nat, improved: nat)
    ensures McNemarExact(regressed, improved, TwoSided) == 1.0 &&
        (regressed + improved == 0 || 2.0 * Tail(regressed + improved, Min(regressed, improved)) > 1.0)
        <==> regressed == improved
  {
    var n, k := regressed + improved, Min(regressed, improved);
    var w, p := Ways(n, k), Pow2(n);
    if n > 0 {
      WaysComplement(n, k);
      if regressed == improved {
        assert Ways(n, k) == Ways(n, n - k - 1) + Comb(n, k);
        CombZeroIff(n, k);
        assert 2 * w > p;
      } else {
        WaysMonotone(n, k, n - k - 1);
        assert 2 * w <= p;
      }
      DoubleShare(w, p);
    }
  }

  lemma DoubleShare(w: nat, p: nat)
    requires p > 0
    ensures 2.0 * (w as real / p as real) > 1.0 <==> 2 * w > p
  {
    CompareShares(1, 1, 2 * w, p);
    assert (2 * w) as real / p as real == 2.0 * (w as real / p as real);
  }
}
