/**
 Cohen's kappa over a confusion matrix (packages/evaluation-core/src/proofstep_core/calibration.py),
 in exact arithmetic.
 */
module Kappa {
  import opened Common
  import opened Labels
  import opened Agreement

  datatype Kind = Unweighted | Linear | Quadratic

  /** Counts by (human, judge); a dictionary of counts with default 0 is a multiset. */
  datatype ConfusionMatrix = ConfusionMatrix(labels: seq<string>, counts: multiset<Pair>)
  {
    function Get(human: string, judge: string): nat {
      counts[(human, judge)]
    }

    function Total(): nat {
      |counts|
    }

    function RowTotal(human: string): nat {
      RowOver(human, labels)
    }

    function RowOver(human: string, judges: seq<string>): nat {
      if judges == [] then 0
      else
        var last := |judges| - 1;
        RowOver(human, judges[..last]) + Get(human, judges[last])
    }

    function ColumnTotal(judge: string): nat {
      ColumnOver(judge, labels)
    }

    function ColumnOver(judge: string, humans: seq<string>): nat {
      if humans == [] then 0
      else
        var last := |humans| - 1;
        ColumnOver(judge, humans[..last]) + Get(humans[last], judge)
    }
  }

  function BothLabels(pairs: seq<Pair>): seq<string> {
    if pairs == [] then []
    else
      var last := |pairs| - 1;
      BothLabels(pairs[..last]) + [pairs[last].0, pairs[last].1]
  }

  lemma {:induction false} BothLabelsIn(pairs: seq<Pair>)
    ensures forall x :: x in BothLabels(pairs) <==> exists p :: p in pairs && (p.0 == x || p.1 == x)
  {
    if pairs != [] {
      var last := |pairs| - 1;
      BothLabelsIn(pairs[..last]);
      assert pairs == pairs[..last] + [pairs[last]];
    }
  }

  /** The members of xs outside `known`, in order. */
  function Outside(xs: seq<string>, known: seq<string>): seq<string> {
    if xs == [] then []
    else
      var last := |xs| - 1;
      Outside(xs[..last], known) + if xs[last] in known then [] else [xs[last]]
  }

  /** The declared labels first, then whatever else was observed. */
  function LabelSet(pairs: seq<Pair>, labels: Option<seq<string>>): seq<string> {
    var observed := SortedSet(BothLabels(pairs));
    if labels.None? then observed else labels.value + Outside(observed, labels.value)
  }

  method BuildConfusionMatrix(pairs: seq<Pair>, labels: Option<seq<string>>) returns (m: ConfusionMatrix)
    ensures m == ConfusionMatrix(LabelSet(pairs, labels), multiset(pairs))
  {
    var counts: multiset<Pair> := multiset{};
    for i := 0 to |pairs|
      invariant counts == multiset(pairs[..i])
    {
      assert pairs[..i + 1] == pairs[..i] + [pairs[i]];
      counts := counts[pairs[i] := counts[pairs[i]] + 1];
    }
    assert pairs[..|pairs|] == pairs;
    m := ConfusionMatrix(LabelSet(pairs, labels), counts);
  }

  // ----------------------------------------------------------------- weights

  /** Index of a label; a repeated label keeps its last index. */
  function Position(labels: seq<string>, a: string): (i: nat)
    ensures labels != [] ==> i < |labels|
    ensures a in labels ==> labels[i] == a
  {
    if labels == [] then 0
    else
      var last := |labels| - 1;
      if labels[last] == a then last else Position(labels[..last], a)
  }

  function Span(labels: seq<string>): (s: nat)
    ensures s >= 1
  {
    Max(1, |labels| - 1)
  }

  function Gap(labels: seq<string>, a: string, b: string): nat {
    var i, j := Position(labels, a), Position(labels, b);
    if i < j then j - i else i - j
  }

  /** How far apart two labels are, as a share of the scale. */
  function Distance(labels: seq<string>, a: string, b: string): real {
    Share(Gap(labels, a, b), Span(labels))
  }

  function Share(part: nat, whole: nat): real
    requires whole > 0
  {
    part as real / whole as real
  }

  /** Agreement weights: 1 for a match, less for a near miss, 0 for the extremes. */
  function Weighting(labels: seq<string>, kind: Kind, a: string, b: string): real {
    match kind
    case Unweighted => if a == b then 1.0 else 0.0
    case Linear => 1.0 - Distance(labels, a, b)
    case Quadratic => 1.0 - Distance(labels, a, b) * Distance(labels, a, b)
  }

  // ----------------------------------------------------------------- kappa

  datatype Outcome =
    | NoExamples
    | NeedsOrder      // raises ValueError: weighting without a declared order
    | OffScale        // undefined: a label outside the declared order
    | ChanceIsOne     // undefined: chance agreement is 1
    | Kappa(value: real)

  /** math.isclose(x, 1.0, abs_tol=1e-12), whose default relative tolerance is 1e-9. */
  predicate IsCloseToOne(x: real) {
    var gap := if x < 1.0 then 1.0 - x else x - 1.0;
    var scale := MaxReal(if x < 0.0 then -x else x, 1.0);
    gap <= MaxReal(scale / 1000000000.0, 1.0 / 1000000000000.0)
  }

  function ObservedTerm(m: ConfusionMatrix, kind: Kind, human: string, judge: string): real
    requires m.Total() > 0
  {
    Weighting(m.labels, kind, human, judge) * m.Get(human, judge) as real / m.Total() as real
  }

  function ExpectedTerm(m: ConfusionMatrix, kind: Kind, human: string, judge: string): real
    requires m.Total() > 0
  {
    ByChance(Weighting(m.labels, kind, human, judge), m.RowTotal(human), m.ColumnTotal(judge), m.Total())
  }

  /** A weight times the chance that two independent draws land on its row and its column. */
  function ByChance(weight: real, row: nat, column: nat, n: nat): real
    requires n > 0
  {
    weight * (row as real / n as real) * (column as real / n as real)
  }

  function ObservedRow(m: ConfusionMatrix, kind: Kind, human: string, judges: seq<string>): real
    requires m.Total() > 0
  {
    if judges == [] then 0.0
    else
      var last := |judges| - 1;
      ObservedRow(m, kind, human, judges[..last])
      + ObservedTerm(m, kind, human, judges[last])
  }

  function ExpectedRow(m: ConfusionMatrix, kind: Kind, human: string, judges: seq<string>): real
    requires m.Total() > 0
  {
    if judges == [] then 0.0
    else
      var last := |judges| - 1;
      ExpectedRow(m, kind, human, judges[..last])
      + ExpectedTerm(m, kind, human, judges[last])
  }

  function Observed(m: ConfusionMatrix, kind: Kind, humans: seq<string>): real
    requires m.Total() > 0
  {
    if humans == [] then 0.0
    else
      var last := |humans| - 1;
      Observed(m, kind, humans[..last]) + ObservedRow(m, kind, humans[last], m.labels)
  }

  function Expected(m: ConfusionMatrix, kind: Kind, humans: seq<string>): real
    requires m.Total() > 0
  {
    if humans == [] then 0.0
    else
      var last := |humans| - 1;
      Expected(m, kind, humans[..last]) + ExpectedRow(m, kind, humans[last], m.labels)
  }

  predicate OnScale(pairs: seq<Pair>, order: seq<string>) {
    forall p :: p in pairs ==> p.0 in order && p.1 in order
  }

  /** The value cohens_kappa defines, before any question of how it is computed. */
  function KappaOf(pairs: seq<Pair>, kind: Kind, order: Option<seq<string>>): Outcome {
    if pairs == [] then NoExamples
    else if kind != Unweighted && order.None? then NeedsOrder
    else if kind != Unweighted && !OnScale(pairs, order.value) then OffScale
    else
      var m := ConfusionMatrix(LabelSet(pairs, order), multiset(pairs));
      var po, pe := Observed(m, kind, m.labels), Expected(m, kind, m.labels);
      if IsCloseToOne(pe) then ChanceIsOne
      else
        assert pe != 1.0;
        Kappa((po - pe) / (1.0 - pe))
  }

  lemma EmptyTerm(m: ConfusionMatrix, kind: Kind, human: string, judge: string)
    requires m.Total() > 0 && m.RowTotal(human) == 0 && m.Get(human, judge) == 0
    ensures ObservedTerm(m, kind, human, judge) == 0.0 && ExpectedTerm(m, kind, human, judge) == 0.0
  {
    hide Weighting, ConfusionMatrix.ColumnTotal;
    var w, n := Weighting(m.labels, kind, human, judge), m.Total() as real;
    assert w * 0.0 / n == 0.0;
    assert w * (0.0 / n) * (m.ColumnTotal(judge) as real / n) == 0.0;
    assert ByChance(w, 0, m.ColumnTotal(judge), m.Total()) == 0.0;
  }

  lemma {:induction false} EmptyRow(m: ConfusionMatrix, kind: Kind, human: string, judges: seq<string>)
    requires m.Total() > 0 && m.RowTotal(human) == 0 && m.RowOver(human, judges) == 0
    ensures ObservedRow(m, kind, human, judges) == 0.0 && ExpectedRow(m, kind, human, judges) == 0.0
  {
    hide ObservedTerm, ExpectedTerm;
    if judges != [] {
      var last := |judges| - 1;
      EmptyRow(m, kind, human, judges[..last]);
      EmptyTerm(m, kind, human, judges[last]);
    }
  }

  /** The inner loop: one human label against every judge label. */
  method ScoreRow(m: ConfusionMatrix, kind: Kind, human: string) returns (observed: real, expected: real)
    requires m.Total() > 0
    ensures observed == ObservedRow(m, kind, human, m.labels)
    ensures expected == ExpectedRow(m, kind, human, m.labels)
  {
    hide ObservedTerm, ExpectedTerm;
    var labels := m.labels;
    observed, expected := 0.0, 0.0;
    for j := 0 to |labels|
      invariant observed == ObservedRow(m, kind, human, labels[..j])
      invariant expected == ExpectedRow(m, kind, human, labels[..j])
    {
      assert labels[..j + 1][..j] == labels[..j];
      observed := observed + ObservedTerm(m, kind, human, labels[j]);
      expected := expected + ExpectedTerm(m, kind, human, labels[j]);
    }
    assert labels[..|labels|] == labels;
  }

  method CohensKappa(pairs: seq<Pair>, kind: Kind, order: Option<seq<string>>) returns (r: Outcome)
    ensures r == KappaOf(pairs, kind, order)
  {
    hide ObservedRow, ExpectedRow, IsCloseToOne, LabelSet;
    if |pairs| == 0 {
      return NoExamples;
    }
    var m := BuildConfusionMatrix(pairs, order);
    var labels := m.labels;
    if kind != Unweighted {
      if order.None? {
        return NeedsOrder;
      }
      if !OnScale(pairs, order.value) {
        return OffScale;
      }
    }
    var observed, expected := 0.0, 0.0;
    for i := 0 to |labels|
      invariant observed == Observed(m, kind, labels[..i])
      invariant expected == Expected(m, kind, labels[..i])
    {
      assert labels[..i + 1][..i] == labels[..i];
      if m.RowTotal(labels[i]) == 0 {
        EmptyRow(m, kind, labels[i], labels);
        continue;
      }
      var o, e := ScoreRow(m, kind, labels[i]);
      observed, expected := observed + o, expected + e;
    }
    assert labels[..|labels|] == labels;
    if IsCloseToOne(expected) {
      return ChanceIsOne;
    }
    NotOne(expected);
    r := Kappa((observed - expected) / (1.0 - expected));
  }

  lemma NotOne(x: real)
    requires !IsCloseToOne(x)
    ensures x != 1.0
  {
  }
}
