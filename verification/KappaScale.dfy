/**
 Kappa said in positions on the declared scale
 (packages/evaluation-core/src/proofstep_core/calibration.py).
 */
module KappaScale {
  import opened Common
  import opened Sorting
  import opened Labels
  import opened Agreement
  import opened Kappa
  import opened KappaBounds
  import opened KappaEdges

  // ----------------------------------------------------------------- the penalties

  /** The cost of rating at position i what the other rates at position j, in steps of the scale. */
  ghost function Steps(kind: Kind, i: nat, j: nat): real {
    match kind
    case Unweighted => if i == j then 0.0 else 1.0
    case Linear => if i < j then (j - i) as real else (i - j) as real
    case Quadratic => ((i - j) * (i - j)) as real
  }

  lemma GapByPosition(order: seq<string>, i: nat, j: nat)
    requires Distinct(order) && i < |order| && j < |order|
    ensures Distance(order, order[i], order[j]) == Share(if i < j then j - i else i - j, Max(1, |order| - 1))
  {
    PositionOf(order, i);
    PositionOf(order, j);
    hide Share, Position;
  }

  lemma ShareTimes(d: nat, s: nat)
    requires s > 0
    ensures Share(d, s) * s as real == d as real
    ensures Share(d, s) * Share(d, s) * (s * s) as real == (d * d) as real
  {
    var x, y := Share(d, s), s as real;
    assert x * y == d as real;
    assert x * x * (y * y) == (x * y) * (x * y);
    assert (s * s) as real == y * y;
  }

  /** Linear weights: the penalty is the number of steps between the labels, over the steps of the scale. */
  lemma LinearByPosition(order: seq<string>, i: nat, j: nat)
    requires Distinct(order) && i <= j < |order|
    ensures Penalty(order, Linear)(order[i], order[j]) * Max(1, |order| - 1) as real == (j - i) as real
    ensures Penalty(order, Linear)(order[j], order[i]) == Penalty(order, Linear)(order[i], order[j])
  {
    GapByPosition(order, i, j);
    GapByPosition(order, j, i);
    ShareTimes(j - i, Max(1, |order| - 1));
    hide Share, Distance;
  }

  /** Quadratic weights: its square. */
  lemma QuadraticByPosition(order: seq<string>, i: nat, j: nat)
    requires Distinct(order) && i <= j < |order|
    ensures var span := Max(1, |order| - 1);
      Penalty(order, Quadratic)(order[i], order[j]) * (span * span) as real == ((j - i) * (j - i)) as real
    ensures Penalty(order, Quadratic)(order[j], order[i]) == Penalty(order, Quadratic)(order[i], order[j])
  {
    GapByPosition(order, i, j);
    GapByPosition(order, j, i);
    ShareTimes(j - i, Max(1, |order| - 1));
    hide Share, Distance;
  }

  // ----------------------------------------------------------------- the value

  /** v is that cost, label by label. */
  ghost predicate CountsSteps(order: seq<string>, kind: Kind, v: Weight) {
    forall i, j :: 0 <= i < |order| && 0 <= j < |order| ==> v(order[i], order[j]) == Steps(kind, i, j)
  }

  lemma {:induction false} ScaledMatched(ps: seq<Pair>, c: real, v: Weight)
    ensures Matched(ps, Scaled(c, v)) == c * Matched(ps, v)
  {
    if ps != [] { ScaledMatched(ps[..|ps| - 1], c, v); }
  }

  lemma {:induction false} ScaledAgainst(ps: seq<Pair>, c: real, v: Weight, h: string)
    ensures AgainstAll(ps, Scaled(c, v), h) == c * AgainstAll(ps, v, h)
  {
    if ps != [] { ScaledAgainst(ps[..|ps| - 1], c, v, h); }
  }

  lemma {:induction false} ScaledCrossed(xs: seq<Pair>, ps: seq<Pair>, c: real, v: Weight)
    ensures Crossed(xs, ps, Scaled(c, v)) == c * Crossed(xs, ps, v)
  {
    if xs != [] {
      ScaledCrossed(xs[..|xs| - 1], ps, c, v);
      ScaledAgainst(ps, c, v, xs[|xs| - 1].0);
    }
  }

  /** The penalty scale times a penalty, kept as one term. */
  ghost function InSteps(order: seq<string>, kind: Kind, a: string, b: string): real {
    Penalty(order, kind)(a, b) * PenaltyScale(order, kind) as real
  }

  lemma InStepsIs(order: seq<string>, kind: Kind, a: string, b: string)
    ensures InSteps(order, kind, a, b) == Scaled(PenaltyScale(order, kind) as real, Penalty(order, kind))(a, b)
  {
    hide Penalty, PenaltyScale;
  }

  lemma LinearInSteps(order: seq<string>, i: nat, j: nat)
    requires Distinct(order) && i <= j < |order|
    ensures InSteps(order, Linear, order[i], order[j]) == (j - i) as real
    ensures InSteps(order, Linear, order[j], order[i]) == (j - i) as real
  {
    LinearByPosition(order, i, j);
    assert PenaltyScale(order, Linear) == Max(1, |order| - 1);
    hide Penalty, PenaltyScale, Max;
  }

  lemma QuadraticInSteps(order: seq<string>, i: nat, j: nat)
    requires Distinct(order) && i <= j < |order|
    ensures InSteps(order, Quadratic, order[i], order[j]) == ((j - i) * (j - i)) as real
    ensures InSteps(order, Quadratic, order[j], order[i]) == ((j - i) * (j - i)) as real
  {
    QuadraticByPosition(order, i, j);
    assert PenaltyScale(order, Quadratic) == Max(1, |order| - 1) * Max(1, |order| - 1);
    hide Penalty, PenaltyScale, Max;
  }

  /** Steps are penalties in units of one step. */
  lemma StepsArePenalties(order: seq<string>, kind: Kind, i: nat, j: nat)
    requires Distinct(order) && i < |order| && j < |order|
    ensures Steps(kind, i, j) == InSteps(order, kind, order[i], order[j])
  {
    match kind {
      case Unweighted =>
        UnweightedPenalty(order);
      case Linear =>
        hide InSteps;
        if i <= j { LinearInSteps(order, i, j); } else { LinearInSteps(order, j, i); }
      case Quadratic =>
        hide InSteps;
        assert (i - j) * (i - j) == (j - i) * (j - i);
        if i <= j { QuadraticInSteps(order, i, j); } else { QuadraticInSteps(order, j, i); }
    }
  }

  lemma PairSteps(order: seq<string>, kind: Kind, v: Weight, a: string, b: string)
    requires Distinct(order) && CountsSteps(order, kind, v) && a in order && b in order
    ensures v(a, b) == Scaled(PenaltyScale(order, kind) as real, Penalty(order, kind))(a, b)
  {
    hide Penalty, PenaltyScale, Steps, InSteps, Scaled;
    var i :| 0 <= i < |order| && order[i] == a;
    var j :| 0 <= j < |order| && order[j] == b;
    StepsArePenalties(order, kind, i, j);
    InStepsIs(order, kind, a, b);
  }

  lemma RatedOnScale(ps: seq<Pair>, order: seq<string>, p: Pair, q: Pair)
    requires OnScale(ps, order) && p in ps && q in ps
    ensures p.0 in order && q.1 in order
  {
  }

  lemma StepSums(ps: seq<Pair>, kind: Kind, order: seq<string>, v: Weight)
    requires Distinct(order) && OnScale(ps, order) && CountsSteps(order, kind, v)
    ensures Matched(ps, v) == PenaltyScale(order, kind) as real * Matched(ps, Penalty(order, kind))
    ensures Crossed(ps, ps, v) == PenaltyScale(order, kind) as real * Crossed(ps, ps, Penalty(order, kind))
  {
    hide *;
    var pen, c := Penalty(order, kind), PenaltyScale(order, kind) as real;
    forall p, q | p in ps && q in ps
      ensures v(p.0, q.1) == Scaled(c, pen)(p.0, q.1)
    {
      RatedOnScale(ps, order, p, q);
      PairSteps(order, kind, v, p.0, q.1);
    }
    SameMatched(ps, v, Scaled(c, pen));
    SameOnPairs(ps, ps, v, Scaled(c, pen));
    ScaledMatched(ps, c, pen);
    ScaledCrossed(ps, ps, c, pen);
  }

  lemma ScaledRatio(k: real, c: real, n: real, e: real, m: real, chance: real, seen: real)
    requires c > 0.0 && e > 0.0 && k * e == e - n * m && chance == c * e && seen == c * m
    ensures chance > 0.0 && k * chance == chance - n * seen
  {
    assert k * chance == c * (k * e);
    assert c * (e - n * m) == c * e - n * (c * m);
  }

  /**
   A defined kappa is one minus the steps between the two ratings of each example, over what they would be
   with every human rating against every judge rating: steps, their squares, or mere difference.
   */
  lemma KappaByPosition(ps: seq<Pair>, kind: Kind, order: seq<string>, v: Weight)
    requires Distinct(order) && OnScale(ps, order) && CountsSteps(order, kind, v)
    requires KappaOf(ps, kind, Some(order)).Kappa?
    ensures var k, chance := KappaOf(ps, kind, Some(order)).value, Crossed(ps, ps, v);
      chance > 0.0 && k * chance == chance - |ps| as real * Matched(ps, v)
  {
    hide *;
    var pen, c := Penalty(order, kind), PenaltyScale(order, kind) as real;
    OnScaleLabels(ps, order);
    StepSums(ps, kind, order, v);
    KappaIsRatio(ps, kind, Some(order));
    ScaledRatio(KappaOf(ps, kind, Some(order)).value, c, |ps| as real, Crossed(ps, ps, pen), Matched(ps, pen),
                Crossed(ps, ps, v), Matched(ps, v));
  }

  /** Without a scale, mere difference. */
  lemma UnweightedKappa(ps: seq<Pair>, order: Option<seq<string>>, v: Weight)
    requires order.Some? ==> Distinct(order.value)
    requires forall a, b :: v(a, b) == if a == b then 0.0 else 1.0
    requires KappaOf(ps, Unweighted, order).Kappa?
    ensures var k, chance := KappaOf(ps, Unweighted, order).value, Crossed(ps, ps, v);
      chance > 0.0 && k * chance == chance - |ps| as real * Matched(ps, v)
  {
    var pen := Penalty(LabelSet(ps, order), Unweighted);
    UnweightedPenalty(LabelSet(ps, order));
    hide *;
    SameMatched(ps, v, pen);
    SameOnPairs(ps, ps, v, pen);
    KappaIsRatio(ps, Unweighted, order);
  }

  lemma UnweightedPenalty(labels: seq<string>)
    ensures forall a, b :: Penalty(labels, Unweighted)(a, b) == if a == b then 0.0 else 1.0
  {
  }

  // ----------------------------------------------------------------- the labels

  /** The declared labels in their order, then whatever else was used, sorted, each once. */
  lemma LabelsOf(pairs: seq<Pair>, declared: Option<seq<string>>)
    ensures var labels, n := LabelSet(pairs, declared), if declared.Some? then |declared.value| else 0;
      && n <= |labels| && (declared.Some? ==> labels[..n] == declared.value)
      && Distinct(labels[n..]) && SortedBy(labels[n..], StringLe)
      && forall x :: x in labels[n..] <==>
        (declared.Some? ==> x !in declared.value) && exists p :: p in pairs && (p.0 == x || p.1 == x)
  {
    var observed := SortedSet(BothLabels(pairs));
    BothLabelsIn(pairs);
    if declared.Some? {
      OutsideSplits(observed, declared.value);
      OutsideSorted(observed, declared.value);
      assert LabelSet(pairs, declared)[|declared.value|..] == Outside(observed, declared.value);
    } else {
      assert LabelSet(pairs, declared)[0..] == observed;
    }
  }

  lemma {:induction false} OutsideSorted(xs: seq<string>, known: seq<string>)
    requires SortedBy(xs, StringLe) && Distinct(xs)
    ensures SortedBy(Outside(xs, known), StringLe)
  {
    if xs != [] {
      var last := |xs| - 1;
      OutsideSorted(xs[..last], known);
      OutsideSplits(xs[..last], known);
      var kept := Outside(xs[..last], known);
      forall i | 0 <= i < |kept|
        ensures StringLe(kept[i], xs[last])
      {
        assert kept[i] in xs[..last];
        var k :| 0 <= k < last && xs[k] == kept[i];
      }
    }
  }
}
