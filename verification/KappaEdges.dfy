/** Where cohens_kappa says nothing, and where it says something it should not. */
module KappaEdges {
  import opened Common
  import opened Reals
  import opened Labels
  import opened Agreement
  import opened Kappa
  import opened KappaSums
  import opened KappaBounds

  // ----------------------------------------------------------------- a judge with one answer

  /** A judge that always answers c gets kappa 0, under any weighting, whenever kappa is defined at all. */
  lemma ConstantJudgeScoresZero(ps: seq<Pair>, kind: Kind, order: Option<seq<string>>, c: string)
    requires order.Some? ==> Distinct(order.value)
    requires forall p :: p in ps ==> p.1 == c
    requires KappaOf(ps, kind, order).Kappa?
    ensures KappaOf(ps, kind, order).value == 0.0
  {
    var v := Penalty(LabelSet(ps, order), kind);
    hide KappaOf, Penalty, LabelSet, Matched, Crossed, Distinct;
    KappaIsRatio(ps, kind, order);
    ConstantJudgeIsChance(ps, ps, v, c);
  }

  /** Against humans who use any other label, and below the guard's tolerance, it is defined and it is 0. */
  lemma ConstantJudgeIsCaught(ps: seq<Pair>, kind: Kind, order: Option<seq<string>>, c: string)
    requires order.Some? ==> Distinct(order.value)
    requires Computable(ps, kind, order)
    requires |ps| * PenaltyScale(LabelSet(ps, order), kind) < 1000000000
    requires forall p :: p in ps ==> p.1 == c
    requires exists p :: p in ps && p.0 != c
    ensures KappaOf(ps, kind, order) == Kappa.Kappa(0.0)
  {
    var p :| p in ps && p.0 != c;
    assert p.0 != p.1;
    hide KappaOf, PenaltyScale, LabelSet, Distinct;
    UndefinedIffOneLabel(ps, kind, order);
    ConstantJudgeScoresZero(ps, kind, order, c);
  }

  // ----------------------------------------------------------------- the guard's tolerance

  lemma {:induction false} CrossedOneHuman(xs: seq<Pair>, ps: seq<Pair>, v: Weight, a: string)
    requires forall p :: p in xs ==> p.0 == a
    ensures Crossed(xs, ps, v) == Times(|xs|, AgainstAll(ps, v, a))
  {
    if xs == [] {
      TimesFacts(0, AgainstAll(ps, v, a));
    } else {
      hide Times;
      var last := |xs| - 1;
      assert xs[last] in xs;
      CrossedOneHuman(xs[..last], ps, v, a);
      TimesFacts(last, AgainstAll(ps, v, a));
    }
  }

  /** n pairs of which all but the last agree on a. */
  ghost function AlmostConstant(n: nat, a: string, b: string): seq<Pair>
    requires n > 0
  {
    seq(n - 1, i => (a, a)) + [(a, b)]
  }

  /** Its crossed penalty is one difference per pair: the least a set that uses two labels can have. */
  lemma AlmostConstantCrossed(n: nat, a: string, b: string, v: Weight)
    requires n > 0 && a != b && v(a, a) == 0.0
    ensures !OneLabel(AlmostConstant(n, a, b))
    ensures Crossed(AlmostConstant(n, a, b), AlmostConstant(n, a, b), v) == Times(n, v(a, b))
  {
    var ps := AlmostConstant(n, a, b);
    assert ps[n - 1] == (a, b) && ps[n - 1] in ps;
    var first := ps[..n - 1];
    assert first == seq(n - 1, i => (a, a));
    NothingAgainst(first, v, a);
    assert AgainstAll(ps, v, a) == v(a, b);
    hide AgainstAll, Times;
    CrossedOneHuman(ps, ps, v, a);
  }

  lemma {:induction false} NothingAgainst(ps: seq<Pair>, v: Weight, a: string)
    requires v(a, a) == 0.0 && forall q :: q in ps ==> q.1 == a
    ensures AgainstAll(ps, v, a) == 0.0
  {
    if ps != [] {
      assert ps[|ps| - 1] in ps;
      NothingAgainst(ps[..|ps| - 1], v, a);
    }
  }

  /** Neighbours on the scale differ by the least penalty. */
  lemma NeighboursDiffer(labels: seq<string>, kind: Kind)
    requires Distinct(labels) && |labels| >= 2
    ensures Penalty(labels, kind)(labels[0], labels[1]) == LeastPenalty(labels, kind)
  {
    PositionOf(labels, 0);
    PositionOf(labels, 1);
    hide Position, Share, Span;
    assert Gap(labels, labels[0], labels[1]) == 1;
  }

  lemma {:induction false} PositionOf(labels: seq<string>, i: nat)
    requires Distinct(labels) && i < |labels|
    ensures Position(labels, labels[i]) == i
  {
    if i < |labels| - 1 {
      assert labels[i] != labels[|labels| - 1];
      PositionOf(labels[..|labels| - 1], i);
    }
  }

  /** All but one pair agreeing, on neighbours of the scale: the first rating to fall inside the tolerance. */
  lemma GuardMisfires(n: nat, labels: seq<string>, kind: Kind)
    requires Distinct(labels) && |labels| >= 2
    requires n > 0 && n * PenaltyScale(labels, kind) >= 1000000000
    ensures var ps := AlmostConstant(n, labels[0], labels[1]);
      IsCloseToOne(Expected(Matrix(labels, ps), kind, labels)) && !OneLabel(ps) && OnScale(ps, labels)
  {
    var ps := AlmostConstant(n, labels[0], labels[1]);
    var v := Penalty(labels, kind);
    PenaltyFacts(labels, kind, labels[0], labels[0]);
    NeighboursDiffer(labels, kind);
    ClearsIff(labels, kind, n);
    AlmostConstantCrossed(n, labels[0], labels[1], v);
    assert OnScale(ps, labels) && Covers(labels, ps) && |ps| == n;
    hide LeastPenalty, PenaltyScale, Penalty, Expected, IsCloseToOne, Crossed, Times, Tolerance, OneLabel, Distinct,
        Covers,
        AlmostConstant, OnScale;
    GuardOfMatrix(labels, kind, ps);
  }

  lemma {:induction false} OutsideNone(xs: seq<string>, known: seq<string>)
    requires forall x :: x in xs ==> x in known
    ensures Outside(xs, known) == []
  {
    if xs != [] {
      assert xs[|xs| - 1] in xs;
      OutsideNone(xs[..|xs| - 1], known);
    }
  }

  lemma OnScaleLabels(ps: seq<Pair>, order: seq<string>)
    requires OnScale(ps, order)
    ensures LabelSet(ps, Some(order)) == order
  {
    BothLabelsIn(ps);
    OutsideNone(SortedSet(BothLabels(ps)), order);
  }

  /** The guard calls n ratings on this scale undefined only where one label was used. */
  ghost predicate GuardExact(n: nat, order: seq<string>, kind: Kind) {
    forall ps :: |ps| == n && OnScale(ps, order) ==> (KappaOf(ps, kind, Some(order)).ChanceIsOne? <==> OneLabel(ps))
  }

  /**
   On a declared scale the guard is exact for n ratings if and only if n times the penalty scale is below
   a billion, or the scale has only one label to use.
   */
  lemma GuardExactIff(n: nat, order: seq<string>, kind: Kind)
    requires Distinct(order) && n > 0
    ensures GuardExact(n, order, kind) <==> |order| < 2 || n * PenaltyScale(order, kind) < 1000000000
  {
    hide KappaOf, PenaltyScale, LabelSet, OneLabel, OnScale, IsCloseToOne, Expected, AlmostConstant, Distinct;
    if |order| < 2 {
      forall ps | |ps| == n && OnScale(ps, order)
        ensures KappaOf(ps, kind, Some(order)).ChanceIsOne? && OneLabel(ps)
      {
        ShortScale(ps, order, kind);
      }
    } else if n * PenaltyScale(order, kind) < 1000000000 {
      forall ps | |ps| == n && OnScale(ps, order)
        ensures KappaOf(ps, kind, Some(order)).ChanceIsOne? <==> OneLabel(ps)
      {
        OnScaleLabels(ps, order);
        UndefinedIffOneLabel(ps, kind, Some(order));
      }
    } else {
      var ps := AlmostConstant(n, order[0], order[1]);
      assert |ps| == n by { AlmostConstantSize(n, order[0], order[1]); }
      GuardMisfires(n, order, kind);
      OnScaleLabels(ps, order);
      GuardDecides(ps, kind, Some(order));
    }
  }

  /** With one label to use, both raters use it, and the guard says so. */
  lemma ShortScale(ps: seq<Pair>, order: seq<string>, kind: Kind)
    requires Distinct(order) && |order| < 2 && ps != [] && OnScale(ps, order)
    ensures KappaOf(ps, kind, Some(order)).ChanceIsOne? && OneLabel(ps)
  {
    assert OneLabel(ps);
    assert Covers(order, ps);
    hide KappaOf, LabelSet, OneLabel, IsCloseToOne, Expected, Distinct, Covers, Crossed, Penalty, LeastPenalty,
        Penalises, CostsAtLeast, Times, Tolerance;
    OnScaleLabels(ps, order);
    PenaltyBounds(order, kind, ps);
    ChanceDisagreementFloor(ps, Penalty(order, kind), LeastPenalty(order, kind));
    GuardOfMatrix(order, kind, ps);
    GuardDecides(ps, kind, Some(order));
  }

  lemma AlmostConstantSize(n: nat, a: string, b: string)
    requires n > 0
    ensures |AlmostConstant(n, a, b)| == n
  {
  }

  /** Without a declared scale, and so without weights, if and only if there are fewer than a billion ratings. */
  lemma GuardExactUnordered(n: nat)
    requires n > 0
    ensures (forall ps: seq<Pair> :: |ps| == n ==> (KappaOf(ps, Unweighted, None).ChanceIsOne? <==> OneLabel(ps)))
      <==> n < 1000000000
  {
    hide KappaOf, LabelSet, OneLabel, IsCloseToOne, Expected, AlmostConstant, Distinct, Covers;
    if n < 1000000000 {
      forall ps: seq<Pair> | |ps| == n
        ensures KappaOf(ps, Unweighted, None).ChanceIsOne? <==> OneLabel(ps)
      {
        UndefinedIffOneLabel(ps, Unweighted, None);
      }
    } else {
      var ps := AlmostConstant(n, "a", "b");
      AlmostConstantSize(n, "a", "b");
      LabelSetCovers(ps, None);
      UnorderedMisfires(n, "a", "b", LabelSet(ps, None));
      GuardDecides(ps, Unweighted, None);
    }
  }

  lemma UnorderedMisfires(n: nat, a: string, b: string, labels: seq<string>)
    requires n >= 1000000000 && a != b && Distinct(labels) && Covers(labels, AlmostConstant(n, a, b))
    ensures var ps := AlmostConstant(n, a, b);
      IsCloseToOne(Expected(Matrix(labels, ps), Unweighted, labels)) && !OneLabel(ps)
  {
    var ps, v := AlmostConstant(n, a, b), Penalty(labels, Unweighted);
    assert v(a, a) == 0.0 && v(a, b) == LeastPenalty(labels, Unweighted);
    ClearsIff(labels, Unweighted, n);
    AlmostConstantCrossed(n, a, b, v);
    AlmostConstantSize(n, a, b);
    hide LeastPenalty, Penalty, Expected, IsCloseToOne, Crossed, Times, Tolerance, OneLabel, Distinct, Covers,
        AlmostConstant;
    GuardOfMatrix(labels, Unweighted, ps);
  }

  // ----------------------------------------------------------------- a declared order that repeats a label

  /** A string longer than every member of xs. */
  ghost function Unused(xs: seq<string>): (z: string)
    ensures z !in xs
  {
    LongerThanAll(xs);
    seq(LongestOf(xs) + 1, i => 'z')
  }

  ghost function LongestOf(xs: seq<string>): nat {
    if xs == [] then 0 else Max(LongestOf(xs[..|xs| - 1]), |xs[|xs| - 1]|)
  }

  lemma {:induction false} LongerThanAll(xs: seq<string>)
    ensures forall x :: x in xs ==> |x| <= LongestOf(xs)
  {
    if xs != [] {
      LongerThanAll(xs[..|xs| - 1]);
      assert xs == xs[..|xs| - 1] + [xs[|xs| - 1]];
    }
  }

  /** Two raters who disagree on both items. */
  ghost function Swapped(x: string, z: string): seq<Pair> {
    [(x, z), (z, x)]
  }

  lemma SwappedCells(m: ConfusionMatrix, x: string, z: string, a: string, b: string)
    requires m.counts == multiset(Swapped(x, z)) && x != z
    ensures m.Get(a, b) == if (a == x && b == z) || (a == z && b == x) then 1 else 0
  {
    assert m.counts == multiset{(x, z), (z, x)};
  }

  lemma {:induction false} SwappedRow(m: ConfusionMatrix, x: string, z: string, a: string, js: seq<string>)
    requires m.counts == multiset(Swapped(x, z)) && x != z
    ensures a == x ==> m.RowOver(a, js) == multiset(js)[z] && m.ColumnOver(a, js) == multiset(js)[z]
    ensures a == z ==> m.RowOver(a, js) == multiset(js)[x] && m.ColumnOver(a, js) == multiset(js)[x]
    ensures a != x && a != z ==> m.RowOver(a, js) == 0 && m.ColumnOver(a, js) == 0
  {
    hide ConfusionMatrix.Get;
    if js != [] {
      var last := |js| - 1;
      SwappedRow(m, x, z, a, js[..last]);
      MultisetLast(js);
      SwappedCells(m, x, z, a, js[last]);
      SwappedCells(m, x, z, js[last], a);
    }
  }

  lemma {:induction false} SwappedObserved(m: ConfusionMatrix, x: string, z: string, a: string, js: seq<string>)
    requires m.counts == multiset(Swapped(x, z)) && x != z
    ensures ObservedRow(m, Unweighted, a, js) == 0.0
  {
    if js != [] {
      SwappedObserved(m, x, z, a, js[..|js| - 1]);
      var j := js[|js| - 1];
      assert a == j ==> m.Get(a, j) == 0;
      assert ObservedTerm(m, Unweighted, a, j) == 0.0;
    }
  }

  lemma {:induction false} SwappedObservedAll(m: ConfusionMatrix, x: string, z: string, hs: seq<string>)
    requires m.counts == multiset(Swapped(x, z)) && x != z
    ensures Observed(m, Unweighted, hs) == 0.0
  {
    if hs != [] {
      SwappedObservedAll(m, x, z, hs[..|hs| - 1]);
      SwappedObserved(m, x, z, hs[|hs| - 1], m.labels);
    }
  }

  /** Without weights only the diagonal counts, once per listing of the label. */
  lemma {:induction false} DiagonalRow(m: ConfusionMatrix, a: string, js: seq<string>)
    requires m.Total() > 0
    ensures ExpectedRow(m, Unweighted, a, js)
         == Times(multiset(js)[a], ByChance(1.0, m.RowTotal(a), m.ColumnTotal(a), m.Total()))
  {
    var q := ByChance(1.0, m.RowTotal(a), m.ColumnTotal(a), m.Total());
    if js == [] {
      TimesFacts(0, q);
    } else {
      var last := |js| - 1;
      DiagonalRow(m, a, js[..last]);
      MultisetLast(js);
      TimesFacts(multiset(js[..last])[a], q);
    }
  }

  /** With x listed k times and z once: k^2 quarters for each of them. */
  ghost function SwappedRowValue(a: string, x: string, z: string, k: nat): real {
    if a == x then Times(k, 0.25) else if a == z then Times(k * k, 0.25) else 0.0
  }

  lemma SwappedExpected(m: ConfusionMatrix, x: string, z: string, k: nat, a: string)
    requires m.counts == multiset(Swapped(x, z)) && x != z
    requires multiset(m.labels)[x] == k && multiset(m.labels)[z] == 1
    ensures ExpectedRow(m, Unweighted, a, m.labels) == SwappedRowValue(a, x, z, k)
  {
    SwappedRow(m, x, z, a, m.labels);
    DiagonalRow(m, a, m.labels);
    assert m.Total() == 2;
    var r, c := m.RowTotal(a), m.ColumnTotal(a);
    if a == x {
      assert r == c == 1;
      assert ByChance(1.0, 1, 1, 2) == 0.25;
    } else if a == z {
      assert r == c == k;
      HalfOfEach(k);
    } else {
      assert r == c == 0;
      assert ByChance(1.0, 0, 0, 2) == 0.0;
    }
  }

  lemma HalfOfEach(k: nat)
    ensures Times(1, ByChance(1.0, k, k, 2)) == Times(k * k, 0.25)
  {
    var x := k as real;
    assert x / 2.0 * (x / 2.0) == x * x * 0.25;
    assert (k * k) as real == x * x;
  }

  lemma {:induction false} SwappedExpectedAll(m: ConfusionMatrix, x: string, z: string, k: nat, hs: seq<string>)
    requires m.counts == multiset(Swapped(x, z)) && x != z
    requires multiset(m.labels)[x] == k && multiset(m.labels)[z] == 1
    ensures Expected(m, Unweighted, hs)
         == Times(multiset(hs)[x], SwappedRowValue(x, x, z, k)) + Times(multiset(hs)[z], SwappedRowValue(z, x, z, k))
  {
    hide Times, ExpectedRow;
    var p, q := SwappedRowValue(x, x, z, k), SwappedRowValue(z, x, z, k);
    if hs == [] {
      TimesFacts(0, p);
      TimesFacts(0, q);
    } else {
      var last := |hs| - 1;
      SwappedExpectedAll(m, x, z, k, hs[..last]);
      SwappedExpected(m, x, z, k, hs[last]);
      MultisetLast(hs);
      TimesFacts(multiset(hs[..last])[x], p);
      TimesFacts(multiset(hs[..last])[z], q);
    }
  }

  lemma SwappedLabels(order: seq<string>, x: string, z: string)
    requires x in order && z !in order
    ensures multiset(LabelSet(Swapped(x, z), Some(order)))[x] == multiset(order)[x]
    ensures multiset(LabelSet(Swapped(x, z), Some(order)))[z] == 1
  {
    var ps := Swapped(x, z);
    BothLabelsIn(ps);
    var observed := SortedSet(BothLabels(ps));
    var extra := Outside(observed, order);
    OutsideSplits(observed, order);
    assert ps[0] in ps;
    assert z in observed && z in extra;
    assert x !in extra;
    DistinctCount(extra, z);
    assert z !in multiset(order);
    assert multiset(order + extra) == multiset(order) + multiset(extra);
  }

  /** Declaring an order with a repeated label lets two raters who never agree score above 1. */
  lemma RepeatedLabelExceedsOne(order: seq<string>, i: nat, j: nat)
    requires i < j < |order| && order[i] == order[j]
    ensures
      var k := KappaOf(Swapped(order[i], Unused(order)), Unweighted, Some(order));
      k.Kappa? && k.value > 1.0
  {
    var x, z := order[i], Unused(order);
    var ps := Swapped(x, z);
    var labels := LabelSet(ps, Some(order));
    var m, k := Matrix(labels, ps), multiset(order)[x];
    assert x in order;
    RepeatedCount(order, i, j);
    SwappedLabels(order, x, z);
    SwappedObservedAll(m, x, z, labels);
    SwappedExpectedAll(m, x, z, k, labels);
    HalfSquare(k);
    hide Observed, Expected, LabelSet;
    assert Expected(m, Unweighted, labels) == (k * k) as real / 2.0;
    AboveOne((k * k) as real / 2.0);
  }

  lemma HalfSquare(k: nat)
    requires k >= 2
    ensures Times(k, Times(k, 0.25)) + Times(1, Times(k * k, 0.25)) == (k * k) as real / 2.0
    ensures (k * k) as real / 2.0 >= 2.0
  {
    var x := k as real;
    assert (k * k) as real == x * x;
    assert x * (x * 0.25) == x * x * 0.25;
    assert k * k >= 2 * k;
  }

  lemma AboveOne(pe: real)
    requires pe >= 2.0
    ensures !IsCloseToOne(pe)
    ensures pe != 1.0 && (0.0 - pe) / (1.0 - pe) > 1.0
  {
    var d := pe - 1.0;
    assert (0.0 - pe) / (1.0 - pe) == 1.0 + 1.0 / d by {
      assert (1.0 + 1.0 / d) * (1.0 - pe) == 0.0 - pe by {
        assert 1.0 / d * d == 1.0;
        assert 1.0 - pe == -d;
      }
    }
  }

  /** Kappa stays in [-1, 1] for every rating exactly when the declared order repeats no label. */
  lemma InRangeIffOrderDistinct(order: seq<string>)
    ensures
      (forall ps, kind :: KappaOf(ps, kind, Some(order)).Kappa? ==> -1.0 <= KappaOf(ps, kind, Some(order)).value <= 1.0)
      <==> Distinct(order)
  {
    hide KappaOf;
    if Distinct(order) {
      forall ps, kind | KappaOf(ps, kind, Some(order)).Kappa?
        ensures -1.0 <= KappaOf(ps, kind, Some(order)).value <= 1.0
      {
        KappaInRange(ps, kind, Some(order));
      }
    } else {
      var i, j :| 0 <= i < j < |order| && order[i] == order[j];
      RepeatedLabelExceedsOne(order, i, j);
    }
  }
}
