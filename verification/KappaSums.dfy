/**
 The confusion-matrix sums of cohens_kappa are sums over the rated pairs: summing a weight times a
 count over all label combinations visits every pair once, provided no label is listed twice.
 */
module KappaSums {
  import opened Common
  import opened Labels
  import opened Agreement
  import opened Kappa

  ghost function Humans(ps: seq<Pair>): seq<string> {
    if ps == [] then [] else Humans(ps[..|ps| - 1]) + [ps[|ps| - 1].0]
  }

  ghost function Judges(ps: seq<Pair>): seq<string> {
    if ps == [] then [] else Judges(ps[..|ps| - 1]) + [ps[|ps| - 1].1]
  }

  ghost function Matrix(labels: seq<string>, ps: seq<Pair>): ConfusionMatrix {
    ConfusionMatrix(labels, multiset(ps))
  }

  ghost predicate Covers(labels: seq<string>, ps: seq<Pair>) {
    forall p :: p in ps ==> p.0 in labels && p.1 in labels
  }

  lemma MultisetLast<T>(s: seq<T>)
    requires s != []
    ensures multiset(s) == multiset(s[..|s| - 1]) + multiset{s[|s| - 1]}
  {
    assert s == s[..|s| - 1] + [s[|s| - 1]];
  }

  // ----------------------------------------------------------------- products, kept out of the solver's way

  ghost function Mul(x: real, y: real): real {
    x * y
  }

  lemma MulAdd(a: real, x: real, y: real)
    ensures Mul(a, x + y) == Mul(a, x) + Mul(a, y)
    ensures Mul(a, 0.0) == 0.0
  {
  }

  lemma MulOneMore(a: real, c: nat)
    ensures Mul(a, (c + 1) as real) == Mul(a, c as real) + a
  {
    MulAdd(a, c as real, 1.0);
  }

  // ----------------------------------------------------------------- one-dimensional sums

  /** Sum over the list js of g times the number of occurrences in xs. */
  ghost function Tally(js: seq<string>, xs: seq<string>, g: string -> real): real {
    if js == [] then 0.0
    else
      var last := |js| - 1;
      Tally(js[..last], xs, g) + Mul(g(js[last]), multiset(xs)[js[last]] as real)
  }

  ghost function Total(xs: seq<string>, g: string -> real): real {
    if xs == [] then 0.0 else Total(xs[..|xs| - 1], g) + g(xs[|xs| - 1])
  }

  lemma {:induction false} TallyStep(js: seq<string>, xs: seq<string>, g: string -> real)
    requires Distinct(js) && xs != []
    ensures Tally(js, xs, g) == Tally(js, xs[..|xs| - 1], g) + if xs[|xs| - 1] in js then g(xs[|xs| - 1]) else 0.0
  {
    hide Mul;
    if js != [] {
      var last, x := |js| - 1, xs[|xs| - 1];
      TallyStep(js[..last], xs, g);
      MultisetLast(xs);
      assert js == js[..last] + [js[last]];
      var c := multiset(xs[..|xs| - 1])[js[last]];
      if x == js[last] {
        assert x !in js[..last];
        MulOneMore(g(x), c);
      }
    }
  }

  lemma {:induction false} TallyEmpty(js: seq<string>, g: string -> real)
    ensures Tally(js, [], g) == 0.0
  {
    if js != [] { TallyEmpty(js[..|js| - 1], g); }
  }

  lemma {:induction false} TallyIsTotal(js: seq<string>, xs: seq<string>, g: string -> real)
    requires Distinct(js) && forall x :: x in xs ==> x in js
    ensures Tally(js, xs, g) == Total(xs, g)
  {
    if xs == [] {
      TallyEmpty(js, g);
    } else {
      TallyStep(js, xs, g);
      assert xs[|xs| - 1] in xs;
      TallyIsTotal(js, xs[..|xs| - 1], g);
    }
  }

  lemma {:induction false} AgainstAllIsTotal(ps: seq<Pair>, w: Weight, h: string, g: string -> real)
    requires forall j :: g(j) == w(h, j)
    ensures AgainstAll(ps, w, h) == Total(Judges(ps), g)
  {
    if ps != [] {
      AgainstAllIsTotal(ps[..|ps| - 1], w, h, g);
      assert Judges(ps)[..|Judges(ps)| - 1] == Judges(ps[..|ps| - 1]);
    }
  }

  lemma {:induction false} CrossedIsTotal(xs: seq<Pair>, ps: seq<Pair>, w: Weight, g: string -> real)
    requires forall h :: g(h) == AgainstAll(ps, w, h)
    ensures Crossed(xs, ps, w) == Total(Humans(xs), g)
  {
    if xs != [] {
      CrossedIsTotal(xs[..|xs| - 1], ps, w, g);
      assert Humans(xs)[..|Humans(xs)| - 1] == Humans(xs[..|xs| - 1]);
    }
  }

  lemma {:induction false} ColumnsCovered(labels: seq<string>, ps: seq<Pair>)
    requires Covers(labels, ps)
    ensures forall x :: x in Humans(ps) || x in Judges(ps) ==> x in labels
  {
    if ps != [] {
      ColumnsCovered(labels, ps[..|ps| - 1]);
    }
  }

  // ----------------------------------------------------------------- marginals

  lemma {:induction false} RowStep(labels: seq<string>, ps: seq<Pair>, h: string, js: seq<string>)
    requires ps != [] && Distinct(js)
    ensures
      var p := ps[|ps| - 1];
      Matrix(labels, ps).RowOver(h, js)
      == Matrix(labels, ps[..|ps| - 1]).RowOver(h, js) + if p.0 == h && p.1 in js then 1 else 0
  {
    if js != [] {
      var last := |js| - 1;
      RowStep(labels, ps, h, js[..last]);
      MultisetLast(ps);
      assert js == js[..last] + [js[last]];
    }
  }

  lemma {:induction false} ColumnStep(labels: seq<string>, ps: seq<Pair>, j: string, hs: seq<string>)
    requires ps != [] && Distinct(hs)
    ensures
      var p := ps[|ps| - 1];
      Matrix(labels, ps).ColumnOver(j, hs)
      == Matrix(labels, ps[..|ps| - 1]).ColumnOver(j, hs) + if p.1 == j && p.0 in hs then 1 else 0
  {
    if hs != [] {
      var last := |hs| - 1;
      ColumnStep(labels, ps, j, hs[..last]);
      MultisetLast(ps);
      assert hs == hs[..last] + [hs[last]];
    }
  }

  lemma {:induction false} EmptyTotals(labels: seq<string>, x: string, xs: seq<string>)
    ensures Matrix(labels, []).RowOver(x, xs) == 0 && Matrix(labels, []).ColumnOver(x, xs) == 0
  {
    if xs != [] { EmptyTotals(labels, x, xs[..|xs| - 1]); }
  }

  /** Row and column totals are how often each rater used the label. */
  lemma {:induction false} TotalsAreCounts(labels: seq<string>, ps: seq<Pair>, x: string)
    requires Distinct(labels) && Covers(labels, ps)
    ensures Matrix(labels, ps).RowTotal(x) == multiset(Humans(ps))[x]
    ensures Matrix(labels, ps).ColumnTotal(x) == multiset(Judges(ps))[x]
  {
    if ps == [] {
      EmptyTotals(labels, x, labels);
    } else {
      TotalsAreCounts(labels, ps[..|ps| - 1], x);
      RowStep(labels, ps, x, labels);
      ColumnStep(labels, ps, x, labels);
      MultisetLast(Humans(ps));
      MultisetLast(Judges(ps));
      assert Humans(ps)[..|Humans(ps)| - 1] == Humans(ps[..|ps| - 1]);
      assert Judges(ps)[..|Judges(ps)| - 1] == Judges(ps[..|ps| - 1]);
    }
  }

  // ----------------------------------------------------------------- observed

  ghost function WeightOf(labels: seq<string>, kind: Kind): Weight {
    (a, b) => Weighting(labels, kind, a, b)
  }

  /** n times ObservedRow, as a sum of weight times count. */
  ghost function CountRow(ps: seq<Pair>, w: Weight, h: string, js: seq<string>): real {
    if js == [] then 0.0
    else
      var last := |js| - 1;
      CountRow(ps, w, h, js[..last]) + Mul(w(h, js[last]), multiset(ps)[(h, js[last])] as real)
  }

  ghost function CountAll(ps: seq<Pair>, w: Weight, hs: seq<string>, js: seq<string>): real {
    if hs == [] then 0.0
    else
      var last := |hs| - 1;
      CountAll(ps, w, hs[..last], js) + CountRow(ps, w, hs[last], js)
  }

  lemma {:induction false} CountRowStep(ps: seq<Pair>, w: Weight, h: string, js: seq<string>)
    requires ps != [] && Distinct(js)
    ensures
      var p := ps[|ps| - 1];
      CountRow(ps, w, h, js) == CountRow(ps[..|ps| - 1], w, h, js) + if p.0 == h && p.1 in js then w(p.0, p.1) else 0.0
  {
    hide Mul;
    if js != [] {
      var last, p := |js| - 1, ps[|ps| - 1];
      CountRowStep(ps, w, h, js[..last]);
      MultisetLast(ps);
      assert js == js[..last] + [js[last]];
      var c := multiset(ps[..|ps| - 1])[(h, js[last])];
      if p == (h, js[last]) {
        assert p.1 !in js[..last];
        MulOneMore(w(p.0, p.1), c);
      }
    }
  }

  lemma {:induction false} CountAllStep(ps: seq<Pair>, w: Weight, hs: seq<string>, js: seq<string>)
    requires ps != [] && Distinct(hs) && Distinct(js)
    ensures
      var p := ps[|ps| - 1];
      CountAll(ps, w, hs, js) == CountAll(ps[..|ps| - 1], w, hs, js) +
        if p.0 in hs && p.1 in js then w(p.0, p.1) else 0.0
  {
    if hs != [] {
      var last := |hs| - 1;
      CountAllStep(ps, w, hs[..last], js);
      CountRowStep(ps, w, hs[last], js);
      assert hs == hs[..last] + [hs[last]];
    }
  }

  lemma {:induction false} CountRowEmpty(w: Weight, h: string, js: seq<string>)
    ensures CountRow([], w, h, js) == 0.0
  {
    if js != [] { CountRowEmpty(w, h, js[..|js| - 1]); }
  }

  lemma {:induction false} CountAllEmpty(w: Weight, hs: seq<string>, js: seq<string>)
    ensures CountAll([], w, hs, js) == 0.0
  {
    if hs != [] {
      CountAllEmpty(w, hs[..|hs| - 1], js);
      CountRowEmpty(w, hs[|hs| - 1], js);
    }
  }

  lemma {:induction false} CountAllIsMatched(labels: seq<string>, ps: seq<Pair>, w: Weight)
    requires Distinct(labels) && Covers(labels, ps)
    ensures CountAll(ps, w, labels, labels) == Matched(ps, w)
  {
    if ps == [] {
      CountAllEmpty(w, labels, labels);
    } else {
      CountAllStep(ps, w, labels, labels);
      CountAllIsMatched(labels, ps[..|ps| - 1], w);
    }
  }

  lemma ObservedTermScaled(labels: seq<string>, ps: seq<Pair>, kind: Kind, h: string, j: string)
    requires ps != []
    ensures Mul(|ps| as real, ObservedTerm(Matrix(labels, ps), kind, h, j))
         == Mul(Weighting(labels, kind, h, j), multiset(ps)[(h, j)] as real)
  {
    hide Weighting;
    var n, x := |ps| as real, Weighting(labels, kind, h, j) * multiset(ps)[(h, j)] as real;
    assert n * (x / n) == x;
  }

  lemma {:induction false} ObservedRowScaled(labels: seq<string>, ps: seq<Pair>, kind: Kind, h: string, js: seq<string>)
    requires ps != []
    ensures Mul(|ps| as real, ObservedRow(Matrix(labels, ps), kind, h, js)) ==
        CountRow(ps, WeightOf(labels, kind), h, js)
  {
    hide Mul, ObservedTerm, Weighting;
    if js == [] {
      MulAdd(|ps| as real, 0.0, 0.0);
    } else {
      var last, m := |js| - 1, Matrix(labels, ps);
      ObservedRowScaled(labels, ps, kind, h, js[..last]);
      ObservedTermScaled(labels, ps, kind, h, js[last]);
      MulAdd(|ps| as real, ObservedRow(m, kind, h, js[..last]), ObservedTerm(m, kind, h, js[last]));
    }
  }

  lemma {:induction false} ObservedScaled(labels: seq<string>, ps: seq<Pair>, kind: Kind, hs: seq<string>)
    requires ps != []
    ensures Mul(|ps| as real, Observed(Matrix(labels, ps), kind, hs)) ==
        CountAll(ps, WeightOf(labels, kind), hs, labels)
  {
    hide Mul, ObservedRow, CountRow;
    if hs == [] {
      MulAdd(|ps| as real, 0.0, 0.0);
    } else {
      var last, m := |hs| - 1, Matrix(labels, ps);
      ObservedScaled(labels, ps, kind, hs[..last]);
      ObservedRowScaled(labels, ps, kind, hs[last], labels);
      MulAdd(|ps| as real, Observed(m, kind, hs[..last]), ObservedRow(m, kind, hs[last], labels));
    }
  }

  /** n times the observed agreement is the summed weight of the pairs. */
  lemma ObservedIsMatched(labels: seq<string>, ps: seq<Pair>, kind: Kind)
    requires ps != [] && Distinct(labels) && Covers(labels, ps)
    ensures |ps| as real * Observed(Matrix(labels, ps), kind, labels) == Matched(ps, WeightOf(labels, kind))
  {
    ObservedScaled(labels, ps, kind, labels);
    CountAllIsMatched(labels, ps, WeightOf(labels, kind));
  }

  // ----------------------------------------------------------------- expected

  ghost function Squared(n: nat): real {
    n as real * n as real
  }

  lemma ByChanceScaled(w: real, r: nat, c: nat, n: nat)
    requires n > 0
    ensures Mul(Squared(n), ByChance(w, r, c, n)) == Mul(r as real, Mul(w, c as real))
  {
    var k := n as real;
    var x, y := r as real / k, c as real / k;
    assert k * x == r as real && k * y == c as real;
    assert k * k * (w * x * y) == (k * x) * (w * (k * y));
  }

  lemma ExpectedTermScaled(labels: seq<string>, ps: seq<Pair>, kind: Kind, h: string, j: string)
    requires ps != [] && Distinct(labels) && Covers(labels, ps)
    ensures Mul(Squared(|ps|), ExpectedTerm(Matrix(labels, ps), kind, h, j))
         == Mul(multiset(Humans(ps))[h] as real, Mul(Weighting(labels, kind, h, j), multiset(Judges(ps))[j] as real))
  {
    hide Weighting, ConfusionMatrix.RowTotal, ConfusionMatrix.ColumnTotal, Mul, Squared, ByChance;
    TotalsAreCounts(labels, ps, h);
    TotalsAreCounts(labels, ps, j);
    ByChanceScaled(Weighting(labels, kind, h, j), multiset(Humans(ps))[h], multiset(Judges(ps))[j], |ps|);
  }

  lemma {:induction false} ExpectedRowScaled(
    labels: seq<string>, ps: seq<Pair>, kind: Kind, h: string, js: seq<string>, g: string -> real)
    requires ps != [] && Distinct(labels) && Covers(labels, ps)
    requires forall j :: g(j) == Weighting(labels, kind, h, j)
    ensures Mul(Squared(|ps|), ExpectedRow(Matrix(labels, ps), kind, h, js))
         == Mul(multiset(Humans(ps))[h] as real, Tally(js, Judges(ps), g))
  {
    hide Mul, Squared, ExpectedTerm, Weighting, Humans, Judges, Covers, Distinct;
    var nn, r, m := Squared(|ps|), multiset(Humans(ps))[h] as real, Matrix(labels, ps);
    if js == [] {
      MulAdd(nn, 0.0, 0.0);
      MulAdd(r, 0.0, 0.0);
    } else {
      var last := |js| - 1;
      var term := Mul(g(js[last]), multiset(Judges(ps))[js[last]] as real);
      ExpectedRowScaled(labels, ps, kind, h, js[..last], g);
      ExpectedTermScaled(labels, ps, kind, h, js[last]);
      MulAdd(nn, ExpectedRow(m, kind, h, js[..last]), ExpectedTerm(m, kind, h, js[last]));
      MulAdd(r, Tally(js[..last], Judges(ps), g), term);
    }
  }

  /** n squared times one row of the expected sum: how often h was used, times its weight against every judge label. */
  lemma ExpectedRowIsAgainstAll(labels: seq<string>, ps: seq<Pair>, kind: Kind, h: string)
    requires ps != [] && Distinct(labels) && Covers(labels, ps)
    ensures Mul(Squared(|ps|), ExpectedRow(Matrix(labels, ps), kind, h, labels))
         == Mul(multiset(Humans(ps))[h] as real, AgainstAll(ps, WeightOf(labels, kind), h))
  {
    var row: string -> real := j => Weighting(labels, kind, h, j);
    ExpectedRowScaled(labels, ps, kind, h, labels, row);
    ColumnsCovered(labels, ps);
    TallyIsTotal(labels, Judges(ps), row);
    AgainstAllIsTotal(ps, WeightOf(labels, kind), h, row);
  }

  lemma MulCommutes(x: real, y: real)
    ensures Mul(x, y) == Mul(y, x)
  {
  }

  lemma {:induction false} ExpectedScaled(
    labels: seq<string>, ps: seq<Pair>, kind: Kind, hs: seq<string>, g: string -> real)
    requires ps != [] && Distinct(labels) && Covers(labels, ps)
    requires forall h :: g(h) == AgainstAll(ps, WeightOf(labels, kind), h)
    ensures Mul(Squared(|ps|), Expected(Matrix(labels, ps), kind, hs)) == Tally(hs, Humans(ps), g)
  {
    hide Mul, Squared, ExpectedRow, AgainstAll, WeightOf;
    var nn, m := Squared(|ps|), Matrix(labels, ps);
    if hs == [] {
      MulAdd(nn, 0.0, 0.0);
    } else {
      var last := |hs| - 1;
      ExpectedScaled(labels, ps, kind, hs[..last], g);
      ExpectedRowIsAgainstAll(labels, ps, kind, hs[last]);
      MulCommutes(multiset(Humans(ps))[hs[last]] as real, g(hs[last]));
      MulAdd(nn, Expected(m, kind, hs[..last]), ExpectedRow(m, kind, hs[last], labels));
    }
  }

  /** n squared times the expected agreement is the summed weight of all crossings. */
  lemma ExpectedIsCrossed(labels: seq<string>, ps: seq<Pair>, kind: Kind)
    requires ps != [] && Distinct(labels) && Covers(labels, ps)
    ensures Mul(Squared(|ps|), Expected(Matrix(labels, ps), kind, labels)) == Crossed(ps, ps, WeightOf(labels, kind))
  {
    hide Mul, Squared, Expected, Tally, Crossed, WeightOf;
    var w := WeightOf(labels, kind);
    var g: string -> real := h => AgainstAll(ps, w, h);
    ExpectedScaled(labels, ps, kind, labels, g);
    ColumnsCovered(labels, ps);
    TallyIsTotal(labels, Humans(ps), g);
    CrossedIsTotal(ps, ps, w, g);
  }
}
