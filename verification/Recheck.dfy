/**
 Storing a calibration report, reading it back and re-applying a requirement
 (packages/evaluation-core/src/proofstep_core/calibration_runner.py and calibration.py).
 */
module Recheck {
  import opened Common
  import opened Reals
  import opened Sorting
  import opened Labels
  import opened Agreement
  import opened Breakdown
  import Kappa

  // ----------------------------------------------------------------- the report

  datatype PositionBias = PositionBias(nPairs: int, inconsistencyRate: real, firstPositionRate: real, nUnresolved: int)
  {
    predicate Biased() {
      inconsistencyRate > 0.2 || firstPositionRate > 0.2
    }
  }

  datatype Report = Report(
    nExamples: nat,
    nErrored: nat,
    agreement: real,
    agreementCi: (real, real),
    kappa: Option<real>,
    kappaCi: Option<(real, real)>,
    kappaKind: Kappa.Kind,
    kappaUndefinedReason: Option<string>,
    falsePassRate: Option<real>,
    falseFailRate: Option<real>,
    labels: seq<string>,
    counts: map<Pair, int>,
    perClass: seq<ClassBreakdown>,
    humanKappa: Option<real>,
    judgeKappaOnCeilingSubset: Option<real>,
    nCeilingExamples: int,
    meanCost: real,
    totalCost: real,
    p50: real,
    p95: real,
    leniency: Option<real>,
    scaleCompression: Option<real>,
    verbosityBias: Option<real>,
    positionBias: Option<PositionBias>,
    notes: seq<string>)
  {
    function ErrorRate(): real {
      if nExamples + nErrored == 0 then 0.0 else nErrored as real / (nExamples + nErrored) as real
    }

    /** The judge agrees with humans about as well as humans do. */
    predicate AtHumanCeiling() {
      humanKappa.Some? && judgeKappaOnCeilingSubset.Some? && judgeKappaOnCeilingSubset.value >= humanKappa.value - 0.05
    }
  }

  // ----------------------------------------------------------------- the stored form

  datatype Row = Row(human: string, judge: string, count: Option<int>)
  {
    function Key(): Pair {
      (human, judge)
    }
  }

  datatype Confusion = Confusion(labels: Option<seq<string>>, counts: Option<seq<Row>>)

  datatype ClassRow = ClassRow(category: Option<string>, support: Option<int>, recall: Option<real>,
      precision: Option<real>, topConfusion: Option<(string, int)>)

  datatype BiasRow = BiasRow(nPairs: Option<int>, inconsistencyRate: Option<real>, firstPositionRate: Option<real>,
      nUnresolved: Option<int>, biased: Option<bool>)

  /** A stored record; any field may be missing from one an older version wrote. */
  datatype Payload = Payload(
    nExamples: Option<nat>,
    nErrored: Option<nat>,
    errorRate: Option<real>,
    agreement: Option<real>,
    agreementCi: Option<(real, real)>,
    kappa: Option<real>,
    kappaCi: Option<(real, real)>,
    kappaKind: Option<Kappa.Kind>,
    kappaUndefinedReason: Option<string>,
    falsePassRate: Option<real>,
    falseFailRate: Option<real>,
    confusion: Option<Confusion>,
    perClass: Option<seq<ClassRow>>,
    humanKappa: Option<real>,
    judgeKappaOnCeilingSubset: Option<real>,
    nCeilingExamples: Option<int>,
    atHumanCeiling: Option<bool>,
    meanCost: Option<real>,
    totalCost: Option<real>,
    p50: Option<real>,
    p95: Option<real>,
    leniency: Option<real>,
    scaleCompression: Option<real>,
    verbosityBias: Option<real>,
    positionBias: Option<BiasRow>,
    notes: Option<seq<string>>)

  // ----------------------------------------------------------------- the matrix as sorted rows

  predicate PairLe(a: Pair, b: Pair) {
    if a.0 != b.0 then StringLe(a.0, b.0) else StringLe(a.1, b.1)
  }

  lemma PairOrder()
    ensures TotalPreorder(PairLe)
    ensures forall a, b :: PairLe(a, b) && PairLe(b, a) ==> a == b
  {
    forall a, b
      ensures PairLe(a, b) || PairLe(b, a)
      ensures PairLe(a, b) && PairLe(b, a) ==> a == b
    {
      StringTotal(a.0, b.0);
      StringTotal(a.1, b.1);
    }
    forall a, b, c | PairLe(a, b) && PairLe(b, c)
      ensures PairLe(a, c)
    {
      PairTransitive(a, b, c);
    }
  }

  lemma PairTransitive(a: Pair, b: Pair, c: Pair)
    requires PairLe(a, b) && PairLe(b, c)
    ensures PairLe(a, c)
  {
    StringTotal(a.0, b.0);
    if a.0 == b.0 == c.0 {
      StringTransitive(a.1, b.1, c.1);
    } else if a.0 != b.0 && b.0 != c.0 {
      StringTransitive(a.0, b.0, c.0);
    }
  }

  function KeysOf(rows: seq<Row>): (keys: seq<Pair>)
    ensures |keys| == |rows|
  {
    seq(|rows|, i requires 0 <= i < |rows| => rows[i].Key())
  }

  /** The rows list the matrix, each cell once, in label order. */
  ghost predicate Lists(rows: seq<Row>, counts: map<Pair, int>) {
    && SortedBy(KeysOf(rows), PairLe)
    && Distinct(KeysOf(rows))
    && (forall k :: k in counts <==> k in KeysOf(rows))
    && forall i :: 0 <= i < |rows| ==> rows[i].Key() in counts && rows[i].count == Some(counts[rows[i].Key()])
  }

  /** Sorted by the human's label, then by the judge's. */
  lemma ListedInOrder(rows: seq<Row>, counts: map<Pair, int>)
    requires Lists(rows, counts)
    ensures forall i, j :: 0 <= i < j < |rows| ==>
      && StringLe(rows[i].human, rows[j].human)
      && (rows[i].human == rows[j].human ==> StringLe(rows[i].judge, rows[j].judge))
  {
    forall i, j | 0 <= i < j < |rows|
      ensures StringLe(rows[i].human, rows[j].human)
      ensures rows[i].human == rows[j].human ==> StringLe(rows[i].judge, rows[j].judge)
    {
      assert PairLe(KeysOf(rows)[i], KeysOf(rows)[j]);
      StringTotal(rows[i].human, rows[j].human);
    }
  }

  function RowsFor(keys: seq<Pair>, counts: map<Pair, int>): (rows: seq<Row>)
    requires forall k :: k in keys ==> k in counts
    ensures |rows| == |keys|
    ensures forall i :: 0 <= i < |keys| ==> rows[i] == Row(keys[i].0, keys[i].1, Some(counts[keys[i]]))
  {
    if keys == [] then []
    else
      var last := |keys| - 1;
      assert keys[last] in keys && forall k :: k in keys[..last] ==> k in keys;
      RowsFor(keys[..last], counts) + [Row(keys[last].0, keys[last].1, Some(counts[keys[last]]))]
  }

  method SortedRows(counts: map<Pair, int>) returns (rows: seq<Row>)
    ensures Lists(rows, counts)
  {
    var keys: seq<Pair> := [];
    var left := counts.Keys;
    while left != {}
      invariant left <= counts.Keys && Distinct(keys)
      invariant forall k :: k in keys <==> k in counts.Keys - left
      decreases |left|
    {
      var k :| k in left;
      assert k !in keys;
      keys, left := keys + [k], left - {k};
    }
    PairOrder();
    SortSorts(keys, PairLe);
    SortMembers(keys, PairLe);
    SortKeepsDistinct(keys, PairLe);
    var sorted := StableSort(keys, PairLe);
    rows := RowsFor(sorted, counts);
    assert KeysOf(rows) == sorted;
  }

  /** Later rows for the same cell replace earlier ones. */
  function FromRows(rows: seq<Row>): map<Pair, int> {
    if rows == [] then map[]
    else
      var last := rows[|rows| - 1];
      FromRows(rows[..|rows| - 1])[last.Key() := Or(last.count, 0)]
  }

  method ReadRows(rows: seq<Row>) returns (counts: map<Pair, int>)
    ensures counts == FromRows(rows)
  {
    counts := map[];
    for i := 0 to |rows|
      invariant counts == FromRows(rows[..i])
    {
      assert rows[..i + 1][..i] == rows[..i];
      counts := counts[rows[i].Key() := Or(rows[i].count, 0)];
    }
    assert rows[..|rows|] == rows;
  }

  lemma {:induction false} FromRowsFacts(rows: seq<Row>)
    requires Distinct(KeysOf(rows))
    ensures forall k :: k in FromRows(rows) <==> k in KeysOf(rows)
    ensures forall i :: 0 <= i < |rows| ==>
        rows[i].Key() in FromRows(rows) && FromRows(rows)[rows[i].Key()] == Or(rows[i].count, 0)
  {
    if rows != [] {
      var last := |rows| - 1;
      var keys := KeysOf(rows);
      assert KeysOf(rows[..last]) == keys[..last];
      FromRowsFacts(rows[..last]);
      assert keys == keys[..last] + [rows[last].Key()];
      forall i | 0 <= i < last
        ensures rows[i].Key() in FromRows(rows) && FromRows(rows)[rows[i].Key()] == Or(rows[i].count, 0)
      {
        assert keys[i] != keys[last];
        assert rows[..last][i] == rows[i];
        assert keys[..last][i] == keys[i];
      }
    }
  }

  /** The rows give the matrix back. */
  lemma RowsRoundTrip(rows: seq<Row>, counts: map<Pair, int>)
    requires Lists(rows, counts)
    ensures FromRows(rows) == counts
  {
    FromRowsFacts(rows);
    forall k | k in counts
      ensures FromRows(rows)[k] == counts[k]
    {
      var i :| 0 <= i < |rows| && KeysOf(rows)[i] == k;
    }
  }

  /** One matrix has one listing, so equal reports are stored alike. */
  lemma ListingIsUnique(a: seq<Row>, b: seq<Row>, counts: map<Pair, int>)
    requires Lists(a, counts) && Lists(b, counts)
    ensures a == b
  {
    PairOrder();
    var ka, kb := KeysOf(a), KeysOf(b);
    forall k
      ensures multiset(ka)[k] == multiset(kb)[k]
    {
      DistinctCount(ka, k);
      DistinctCount(kb, k);
    }
    SortedUnique(ka, kb, PairLe);
    forall i | 0 <= i < |a|
      ensures a[i] == b[i]
    {
      assert ka[i] == kb[i];
    }
  }

  // ----------------------------------------------------------------- writing and reading

  function ClassToRow(c: ClassBreakdown): ClassRow {
    ClassRow(Some(c.category), Some(c.support), Some(c.recall), Some(c.precision), c.topConfusion)
  }

  function ClassFromRow(c: ClassRow): ClassBreakdown {
    ClassBreakdown(Or(c.category, ""), Or(c.support, 0), Or(c.recall, 0.0), Or(c.precision, 0.0), c.topConfusion)
  }

  function BiasToRow(b: PositionBias): BiasRow {
    BiasRow(Some(b.nPairs), Some(b.inconsistencyRate), Some(b.firstPositionRate), Some(b.nUnresolved), Some(b.Biased()))
  }

  function BiasFromRow(b: BiasRow): PositionBias {
    PositionBias(Or(b.nPairs, 0), Or(b.inconsistencyRate, 0.0), Or(b.firstPositionRate, 0.0), Or(b.nUnresolved, 0))
  }

  function MapOption<A, B>(x: Option<A>, f: A -> B): Option<B> {
    if x.Some? then Some(f(x.value)) else None
  }

  function MapSeq<A, B>(xs: seq<A>, f: A -> B): (ys: seq<B>)
    ensures |ys| == |xs|
  {
    seq(|xs|, i requires 0 <= i < |xs| => f(xs[i]))
  }

  /** What is written for a report whose matrix is listed by `rows`. */
  function Stored(r: Report, rows: seq<Row>): Payload {
    Payload(
      Some(r.nExamples), Some(r.nErrored), Some(r.ErrorRate()), Some(r.agreement), Some(r.agreementCi),
      r.kappa, r.kappaCi, Some(r.kappaKind), r.kappaUndefinedReason, r.falsePassRate, r.falseFailRate,
      Some(Confusion(Some(r.labels), Some(rows))), Some(MapSeq(r.perClass, ClassToRow)),
      r.humanKappa, r.judgeKappaOnCeilingSubset, Some(r.nCeilingExamples), Some(r.AtHumanCeiling()),
      Some(r.meanCost), Some(r.totalCost), Some(r.p50), Some(r.p95),
      r.leniency, r.scaleCompression, r.verbosityBias, MapOption(r.positionBias, BiasToRow), Some(r.notes))
  }

  function RowsOf(p: Payload): seq<Row> {
    if p.confusion.Some? then Or(p.confusion.value.counts, []) else []
  }

  /** What is read from a record, missing fields included. */
  function Read(p: Payload): Report {
    var labels := if p.confusion.Some? then Or(p.confusion.value.labels, []) else [];
    Report(
      Or(p.nExamples, 0), Or(p.nErrored, 0), Or(p.agreement, 0.0), Or(p.agreementCi, (0.0, 1.0)),
      p.kappa, p.kappaCi, Or(p.kappaKind, Kappa.Unweighted), p.kappaUndefinedReason, p.falsePassRate, p.falseFailRate,
      labels, FromRows(RowsOf(p)), MapSeq(Or(p.perClass, []), ClassFromRow),
      p.humanKappa, p.judgeKappaOnCeilingSubset, Or(p.nCeilingExamples, 0),
      Or(p.meanCost, 0.0), Or(p.totalCost, 0.0), Or(p.p50, 0.0), Or(p.p95, 0.0),
      p.leniency, p.scaleCompression, p.verbosityBias, MapOption(p.positionBias, BiasFromRow), Or(p.notes, []))
  }

  /** p is the record written for r. */
  ghost predicate Records(p: Payload, r: Report) {
    Lists(RowsOf(p), r.counts) && p == Stored(r, RowsOf(p))
  }

  method ReportToDict(r: Report) returns (p: Payload)
    ensures Records(p, r) && Read(p) == r
  {
    var rows := SortedRows(r.counts);
    p := Stored(r, rows);
    RoundTrip(p, r);
  }

  method ReadClasses(rows: seq<ClassRow>) returns (classes: seq<ClassBreakdown>)
    ensures classes == MapSeq(rows, ClassFromRow)
  {
    classes := [];
    for i := 0 to |rows|
      invariant |classes| == i && forall k :: 0 <= k < i ==> classes[k] == ClassFromRow(rows[k])
    {
      var c := rows[i];
      classes := classes +
        [ClassBreakdown(Or(c.category, ""), Or(c.support, 0), Or(c.recall, 0.0), Or(c.precision, 0.0), c.topConfusion)];
    }
  }

  method ReportFromDict(p: Payload) returns (r: Report)
    ensures r == Read(p)
    ensures forall full :: Records(p, full) ==> r == full
  {
    var labels, rows := [], [];
    if p.confusion.Some? {
      labels, rows := Or(p.confusion.value.labels, []), Or(p.confusion.value.counts, []);
    }
    var counts := ReadRows(rows);
    var classes: seq<ClassBreakdown> := [];
    if p.perClass.Some? {
      classes := ReadClasses(p.perClass.value);
    }
    var bias: Option<PositionBias> := None;
    if p.positionBias.Some? {
      var row := p.positionBias.value;
      bias := Some(PositionBias(Or(row.nPairs, 0), Or(row.inconsistencyRate, 0.0), Or(row.firstPositionRate, 0.0),
                                Or(row.nUnresolved, 0)));
    }
    r := Report(
      Or(p.nExamples, 0), Or(p.nErrored, 0), Or(p.agreement, 0.0), Or(p.agreementCi, (0.0, 1.0)),
      p.kappa, p.kappaCi, Or(p.kappaKind, Kappa.Unweighted), p.kappaUndefinedReason, p.falsePassRate, p.falseFailRate,
      labels, counts, classes, p.humanKappa, p.judgeKappaOnCeilingSubset, Or(p.nCeilingExamples, 0),
      Or(p.meanCost, 0.0), Or(p.totalCost, 0.0), Or(p.p50, 0.0), Or(p.p95, 0.0),
      p.leniency, p.scaleCompression, p.verbosityBias, bias, Or(p.notes, []));
    forall full | Records(p, full)
      ensures r == full
    {
      RoundTrip(p, full);
    }
  }

  /** Reading what was written gives the report back, the matrix included. */
  lemma RoundTrip(p: Payload, r: Report)
    requires Records(p, r)
    ensures Read(p) == r
  {
    hide Lists, FromRows;
    RowsRoundTrip(RowsOf(p), r.counts);
    var back := Read(p);
    var classes := MapSeq(r.perClass, ClassToRow);
    forall i | 0 <= i < |r.perClass|
      ensures back.perClass[i] == r.perClass[i]
    {
      assert classes[i] == ClassToRow(r.perClass[i]);
      assert MapSeq(classes, ClassFromRow)[i] == ClassFromRow(classes[i]);
    }
    assert back.perClass == r.perClass;
  }

  /** A report has one record and a record one report. */
  lemma RecordsMatch(p: Payload, r: Report, q: Payload, t: Report)
    requires Records(p, r) && Records(q, t)
    ensures p == q <==> r == t
  {
    hide Lists, Stored, Read;
    if p == q {
      RoundTrip(p, r);
      RoundTrip(q, t);
    } else if r == t {
      ListingIsUnique(RowsOf(p), RowsOf(q), r.counts);
    }
  }

  // ----------------------------------------------------------------- the requirement

  datatype Requirement = Requirement(
    minAgreement: real,
    minKappa: Option<real>,
    maxFalsePassRate: Option<real>,
    maxFalseFailRate: Option<real>,
    minExamples: int,
    minPerClass: int,
    maxErrorRate: real,
    allowPositionBias: bool)

  datatype Failure =
    | TooFewExamples
    | ThinClasses
    | TooManyErrors
    | LowAgreement
    | UndefinedKappa
    | LowKappa
    | FalsePasses
    | FalseFails
    | OrderEffects

  datatype Caution = StraddlesThreshold | AtCeiling | CompressedScale | VerbosityBias

  datatype Check = Check(satisfied: bool, failures: seq<Failure>, cautions: seq<Caution>)

  predicate Above(x: Option<real>, limit: Option<real>) {
    x.Some? && limit.Some? && x.value > limit.value
  }

  /** More errored examples than that share of all. */
  predicate ErrorsAbove(examples: nat, errored: nat, limit: real) {
    if examples + errored == 0 then 0.0 > limit else errored as real > limit * (examples + errored) as real
  }

  /** When a requirement is failed, failure by failure. */
  predicate Fails(r: Report, q: Requirement, f: Failure) {
    match f
    case TooFewExamples => r.nExamples < q.minExamples
    case ThinClasses => exists c :: c in r.perClass && c.support < q.minPerClass
    case TooManyErrors => ErrorsAbove(r.nExamples, r.nErrored, q.maxErrorRate)
    case LowAgreement => r.agreement < q.minAgreement
    case UndefinedKappa => q.minKappa.Some? && r.kappa.None?
    case LowKappa =>
      && q.minKappa.Some? && r.kappa.Some? && r.kappa.value < q.minKappa.value
      && (r.humanKappa.None? || r.judgeKappaOnCeilingSubset.None?
          || r.judgeKappaOnCeilingSubset.value < r.humanKappa.value - 0.05)
    case FalsePasses =>
      r.falsePassRate.Some? && q.maxFalsePassRate.Some? && r.falsePassRate.value > q.maxFalsePassRate.value
    case FalseFails =>
      r.falseFailRate.Some? && q.maxFalseFailRate.Some? && r.falseFailRate.value > q.maxFalseFailRate.value
    case OrderEffects =>
      && r.positionBias.Some? && !q.allowPositionBias
      && (r.positionBias.value.inconsistencyRate > 0.2 || r.positionBias.value.firstPositionRate > 0.2)
  }

  /** The rate compared with a limit is the count compared with that share of the total. */
  lemma RateAbove(r: Report, limit: real)
    ensures r.ErrorRate() > limit <==> ErrorsAbove(r.nExamples, r.nErrored, limit)
  {
    var n := r.nExamples + r.nErrored;
    if n > 0 { QuotientOrder(r.nErrored as real, n as real, limit); }
  }

  predicate Cautions(r: Report, q: Requirement, c: Caution) {
    match c
    case StraddlesThreshold => r.agreement >= q.minAgreement && r.agreementCi.0 < q.minAgreement
    case AtCeiling =>
      && q.minKappa.Some? && r.kappa.Some? && r.kappa.value < q.minKappa.value
      && r.humanKappa.Some? && r.judgeKappaOnCeilingSubset.Some?
      && r.judgeKappaOnCeilingSubset.value >= r.humanKappa.value - 0.05
    case CompressedScale => r.scaleCompression.Some? && r.scaleCompression.value < 0.5
    case VerbosityBias => r.verbosityBias.Some? && (r.verbosityBias.value > 0.3 || r.verbosityBias.value < -0.3)
  }

  /** Of the failures looked into so far, exactly those that hold are listed, once each. */
  ghost predicate Listed(r: Report, q: Requirement, seen: set<Failure>, failures: seq<Failure>) {
    Distinct(failures) && forall f :: f in failures <==> f in seen && Fails(r, q, f)
  }

  lemma ListNext(r: Report, q: Requirement, seen: set<Failure>, failures: seq<Failure>, f: Failure)
    requires Listed(r, q, seen, failures) && f !in seen
    ensures Listed(r, q, seen + {f}, if Fails(r, q, f) then failures + [f] else failures)
  {
    hide Fails;
  }

  const ALL_FAILURES: set<Failure> :=
    {TooFewExamples, ThinClasses, TooManyErrors, LowAgreement, UndefinedKappa, LowKappa, FalsePasses, FalseFails,
        OrderEffects}

  lemma ListedAll(r: Report, q: Requirement, failures: seq<Failure>)
    requires Listed(r, q, ALL_FAILURES, failures)
    ensures forall f :: f in failures <==> Fails(r, q, f)
    ensures failures == [] <==> forall f :: !Fails(r, q, f)
    ensures Distinct(failures)
  {
    forall f
      ensures f in failures <==> Fails(r, q, f)
    {
    }
    assert failures != [] ==> failures[0] in failures;
  }

  method CheckRequirement(r: Report, q: Requirement) returns (check: Check)
    ensures forall f :: f in check.failures <==> Fails(r, q, f)
    ensures check.satisfied <==> forall f :: !Fails(r, q, f)
    ensures Distinct(check.failures)
    ensures forall c :: c in check.cautions <==> Cautions(r, q, c)
  {
    hide Listed, Cautions;
    var failures := CheckEvidence(r, q);
    failures := CheckKappa(r, q, failures);
    failures := CheckDirections(r, q, failures);
    ListedAll(r, q, failures);
    var cautions := CautionsFor(r, q);
    check := Check(failures == [], failures, cautions);
  }

  lemma NothingListed(r: Report, q: Requirement)
    ensures Listed(r, q, {}, [])
  {
  }

  /** Enough examples, enough of each class, few enough errors, enough agreement. */
  method CheckEvidence(r: Report, q: Requirement) returns (failures: seq<Failure>)
    ensures Listed(r, q, {TooFewExamples, ThinClasses, TooManyErrors, LowAgreement}, failures)
  {
    hide Listed;
    failures := [];
    NothingListed(r, q);
    ListNext(r, q, {}, failures, TooFewExamples);
    if r.nExamples < q.minExamples {
      failures := failures + [TooFewExamples];
    }
    assert {} + {TooFewExamples} == {TooFewExamples};
    ListNext(r, q, {TooFewExamples}, failures, ThinClasses);
    var thin := ThinLabels(r.perClass, q.minPerClass);
    if thin != [] {
      failures := failures + [ThinClasses];
    }
    assert {TooFewExamples} + {ThinClasses} == {TooFewExamples, ThinClasses};
    ListNext(r, q, {TooFewExamples, ThinClasses}, failures, TooManyErrors);
    RateAbove(r, q.maxErrorRate);
    if r.ErrorRate() > q.maxErrorRate {
      failures := failures + [TooManyErrors];
    }
    assert {TooFewExamples, ThinClasses} + {TooManyErrors} == {TooFewExamples, ThinClasses, TooManyErrors};
    ListNext(r, q, {TooFewExamples, ThinClasses, TooManyErrors}, failures, LowAgreement);
    if r.agreement < q.minAgreement {
      failures := failures + [LowAgreement];
    }
    assert {TooFewExamples, ThinClasses, TooManyErrors} + {LowAgreement} ==
        {TooFewExamples, ThinClasses, TooManyErrors, LowAgreement};
  }

  /** A required kappa is defined and reached, or the judge is at the human ceiling. */
  method CheckKappa(r: Report, q: Requirement, before: seq<Failure>) returns (failures: seq<Failure>)
    requires Listed(r, q, {TooFewExamples, ThinClasses, TooManyErrors, LowAgreement}, before)
    ensures Listed(r, q, {TooFewExamples, ThinClasses, TooManyErrors, LowAgreement, UndefinedKappa, LowKappa}, failures)
  {
    hide Listed;
    ghost var seen := {TooFewExamples, ThinClasses, TooManyErrors, LowAgreement};
    failures := before;
    ListNext(r, q, seen, failures, UndefinedKappa);
    ListNext(r, q, seen + {UndefinedKappa}, if Fails(r, q, UndefinedKappa) then failures +
        [UndefinedKappa] else failures, LowKappa);
    if q.minKappa.Some? {
      if r.kappa.None? {
        failures := failures + [UndefinedKappa];
      } else if r.kappa.value < q.minKappa.value && !r.AtHumanCeiling() {
        failures := failures + [LowKappa];
      }
    }
    assert seen + {UndefinedKappa} + {LowKappa} ==
        {TooFewExamples, ThinClasses, TooManyErrors, LowAgreement, UndefinedKappa, LowKappa};
  }

  /** Neither direction of error is too frequent, and order effects are absent or allowed. */
  method CheckDirections(r: Report, q: Requirement, before: seq<Failure>) returns (failures: seq<Failure>)
    requires Listed(r, q, {TooFewExamples, ThinClasses, TooManyErrors, LowAgreement, UndefinedKappa, LowKappa}, before)
    ensures Listed(r, q, ALL_FAILURES, failures)
  {
    hide Listed;
    ghost var seen := {TooFewExamples, ThinClasses, TooManyErrors, LowAgreement, UndefinedKappa, LowKappa};
    failures := before;
    ListNext(r, q, seen, failures, FalsePasses);
    if Above(r.falsePassRate, q.maxFalsePassRate) {
      failures := failures + [FalsePasses];
    }
    ListNext(r, q, seen + {FalsePasses}, failures, FalseFails);
    if Above(r.falseFailRate, q.maxFalseFailRate) {
      failures := failures + [FalseFails];
    }
    ListNext(r, q, seen + {FalsePasses} + {FalseFails}, failures, OrderEffects);
    if r.positionBias.Some? && r.positionBias.value.Biased() && !q.allowPositionBias {
      failures := failures + [OrderEffects];
    }
    assert seen + {FalsePasses} + {FalseFails} + {OrderEffects} == ALL_FAILURES;
  }

  /** What does not fail the calibration but changes how it should be read. */
  method CautionsFor(r: Report, q: Requirement) returns (cautions: seq<Caution>)
    ensures forall c :: c in cautions <==> Cautions(r, q, c)
  {
    cautions := [];
    if r.agreement >= q.minAgreement && r.agreementCi.0 < q.minAgreement {
      cautions := cautions + [StraddlesThreshold];
    }
    if q.minKappa.Some? && r.kappa.Some? && r.kappa.value < q.minKappa.value && r.AtHumanCeiling() {
      cautions := cautions + [AtCeiling];
    }
    if r.scaleCompression.Some? && r.scaleCompression.value < 0.5 {
      cautions := cautions + [CompressedScale];
    }
    if r.verbosityBias.Some? && (r.verbosityBias.value > 0.3 || r.verbosityBias.value < -0.3) {
      cautions := cautions + [VerbosityBias];
    }
  }

  method ThinLabels(classes: seq<ClassBreakdown>, minimum: int) returns (thin: seq<string>)
    ensures thin != [] <==> exists c :: c in classes && c.support < minimum
    ensures forall x :: x in thin <==> exists c :: c in classes && c.support < minimum && c.category == x
  {
    thin := [];
    for i := 0 to |classes|
      invariant thin != [] <==> exists c :: c in classes[..i] && c.support < minimum
      invariant forall x :: x in thin <==> exists c :: c in classes[..i] && c.support < minimum && c.category == x
    {
      assert classes[..i + 1] == classes[..i] + [classes[i]];
      assert classes[i] in classes[..i + 1];
      if classes[i].support < minimum { thin := thin + [classes[i].category]; }
    }
    assert classes[..|classes|] == classes;
  }

  /** Checking stored evidence against a requirement is checking the report it was written from. */
  method Recheck(p: Payload, q: Requirement, ghost r: Report) returns (check: Check)
    requires Records(p, r)
    ensures forall f :: f in check.failures <==> Fails(r, q, f)
    ensures forall c :: c in check.cautions <==> Cautions(r, q, c)
    ensures check.satisfied <==> forall f :: !Fails(r, q, f)
  {
    hide Fails, Cautions, Records, Read;
    var back := ReportFromDict(p);
    check := CheckRequirement(back, q);
  }

  /** At least as strict in every component. */
  predicate Tighter(q: Requirement, than: Requirement) {
    && q.minAgreement >= than.minAgreement
    && (than.minKappa.Some? ==> q.minKappa.Some? && q.minKappa.value >= than.minKappa.value)
    && (than.maxFalsePassRate.Some? ==>
        q.maxFalsePassRate.Some? && q.maxFalsePassRate.value <= than.maxFalsePassRate.value)
    && (than.maxFalseFailRate.Some? ==>
        q.maxFalseFailRate.Some? && q.maxFalseFailRate.value <= than.maxFalseFailRate.value)
    && q.minExamples >= than.minExamples
    && q.minPerClass >= than.minPerClass
    && q.maxErrorRate <= than.maxErrorRate
    && (q.allowPositionBias ==> than.allowPositionBias)
  }

  ghost predicate Satisfies(r: Report, q: Requirement) {
    forall f :: !Fails(r, q, f)
  }

  /** Tightening never removes a failure, so it never turns unsatisfied into satisfied. */
  lemma TighteningKeepsFailures(r: Report, q: Requirement, tighter: Requirement)
    requires Tighter(tighter, q)
    ensures forall f :: Fails(r, q, f) ==> Fails(r, tighter, f)
    ensures Satisfies(r, tighter) ==> Satisfies(r, q)
  {
    forall f | Fails(r, q, f)
      ensures Fails(r, tighter, f)
    {
    }
  }

  /** A report that meets `loose` with nothing to spare, and exceeds `other` wherever that asks for more. */
  function Marginal(loose: Requirement, other: Requirement): Report
    requires loose.minExamples >= 0
  {
    Report(
      loose.minExamples, 0, loose.minAgreement, (loose.minAgreement, 1.0),
      Some(Or(loose.minKappa, Or(other.minKappa, 0.0) - 1.0)), None,
      Kappa.Unweighted, None,
      Some(Or(loose.maxFalsePassRate, 1.0 + Or(other.maxFalsePassRate, 0.0))),
      Some(Or(loose.maxFalseFailRate, 1.0 + Or(other.maxFalseFailRate, 0.0))),
      [], map[], [ClassBreakdown("", loose.minPerClass, 1.0, 1.0, None)],
      None, None, 0, 0.0, 0.0, 0.0, 0.0, None, None, None,
      if loose.allowPositionBias then Some(PositionBias(1, 1.0, 1.0, 0)) else None, [])
  }

  /** The ranges a requirement is declared in, as far as they matter here. */
  predicate Declarable(q: Requirement) {
    q.minExamples >= 0 && 0.0 <= q.maxErrorRate <= 1.0
  }

  /** Between two error limits lies the error rate of some run with enough usable examples. */
  lemma RateBetween(low: real, high: real, least: nat) returns (n: nat, e: nat)
    requires 0.0 <= low < high <= 1.0
    ensures n >= least && n > 0 && low < e as real / (n + e) as real <= high
  {
    var middle := (low + high) / 2.0;
    var gap := MinReal(middle - low, 1.0 - middle);
    var needed := least as real + 1.0;
    QuotientOrder(needed, gap, 0.0);
    var total: nat := (needed / gap).Floor + 1;
    QuotientTimes(needed, gap, total as real);
    n, e := SplitTotal(low, middle, gap, total, least);
    Scale(total as real, middle, high);
    QuotientOrder(e as real, total as real, low);
    QuotientOrder(e as real, total as real, high);
  }

  lemma SplitTotal(low: real, middle: real, gap: real, total: nat, least: nat) returns (n: nat, e: nat)
    requires 0.0 <= low && 0.0 < gap <= middle - low && gap <= 1.0 - middle
    requires total as real * gap > least as real + 1.0
    ensures n >= least && n > 0 && n + e == total
    ensures total as real * low < e as real <= total as real * middle
  {
    var t := total as real;
    var lower, share, slack := t * low, t * middle, t * gap;
    Scale(t, gap, middle - low);
    Scale(t, gap, 1.0 - middle);
    Scale(t, 0.0, middle);
    assert t * (middle - low) == share - lower;
    assert t * (1.0 - middle) == t - share;
    n, e := WholeParts(total, lower, share, slack, least);
  }

  lemma WholeParts(total: nat, lower: real, share: real, slack: real, least: nat) returns (n: nat, e: nat)
    requires 0.0 <= share && slack <= share - lower && slack <= total as real - share && slack > least as real + 1.0
    ensures n >= least && n > 0 && n + e == total && lower < e as real <= share
  {
    e := share.Floor;
    n := total - e;
  }

  lemma QuotientTimes(x: real, gap: real, total: real)
    requires gap > 0.0 && total > x / gap
    ensures total * gap > x
  {
    QuotientOrder(x, gap, total);
  }

  /** A requirement accepts only what another accepts if and only if it is at least as strict in every component. */
  lemma TighterIff(q: Requirement, other: Requirement)
    requires Declarable(q) && Declarable(other)
    ensures Tighter(other, q) <==> forall r :: Satisfies(r, other) ==> Satisfies(r, q)
  {
    if Tighter(other, q) {
      forall r | Satisfies(r, other)
        ensures Satisfies(r, q)
      {
        TighteningKeepsFailures(r, q, other);
      }
    } else {
      var r := LooserLetsThrough(q, other);
    }
  }

  /** No component is idle: a requirement looser in one of them lets through a report the other fails. */
  lemma LooserLetsThrough(q: Requirement, looser: Requirement) returns (r: Report)
    requires Declarable(q) && Declarable(looser) && !Tighter(looser, q)
    ensures Satisfies(r, looser) && !Satisfies(r, q)
  {
    r := Marginal(looser, q);
    assert r.ErrorRate() == 0.0;
    assert r.perClass[0] in r.perClass;
    if q.maxErrorRate < looser.maxErrorRate {
      var n, e := RateBetween(q.maxErrorRate, looser.maxErrorRate, looser.minExamples);
      r := r.(nExamples := n, nErrored := e);
      RateAbove(r, q.maxErrorRate);
      RateAbove(r, looser.maxErrorRate);
      hide ErrorsAbove;
      assert Fails(r, q, TooManyErrors);
    } else {
      var f :=
        if looser.minAgreement < q.minAgreement then LowAgreement
        else if q.minKappa.Some? && r.kappa.value < q.minKappa.value then LowKappa
        else if Above(r.falsePassRate, q.maxFalsePassRate) then FalsePasses
        else if Above(r.falseFailRate, q.maxFalseFailRate) then FalseFails
        else if looser.minExamples < q.minExamples then TooFewExamples
        else if looser.minPerClass < q.minPerClass then ThinClasses
        else OrderEffects;
      assert Fails(r, q, f);
    }
  }
}
