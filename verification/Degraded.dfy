/**
 Checking a record some of whose fields are missing, as an older version may have written it
 (packages/evaluation-core/src/proofstep_core/calibration_runner.py and calibration.py).
 */
module Degraded {
  import opened Common
  import opened Reals
  import opened Breakdown
  import opened Recheck

  /** The field is as it was written, or missing. */
  ghost predicate Keeps<T>(full: Option<T>, part: Option<T>) {
    part.None? || part == full
  }

  ghost predicate ClassKeeps(full: ClassRow, part: ClassRow) {
    && Keeps(full.category, part.category) && Keeps(full.support, part.support)
    && Keeps(full.recall, part.recall) && Keeps(full.precision, part.precision)
    && Keeps(full.topConfusion, part.topConfusion)
  }

  ghost predicate ClassesKeep(full: Option<seq<ClassRow>>, part: Option<seq<ClassRow>>) {
    part.Some? ==>
      && full.Some? && |full.value| == |part.value|
      && forall i :: 0 <= i < |full.value| ==> ClassKeeps(full.value[i], part.value[i])
  }

  ghost predicate BiasKeeps(full: Option<BiasRow>, part: Option<BiasRow>) {
    part.Some? ==>
      && full.Some?
      && Keeps(full.value.nPairs, part.value.nPairs)
      && Keeps(full.value.inconsistencyRate, part.value.inconsistencyRate)
      && Keeps(full.value.firstPositionRate, part.value.firstPositionRate)
      && Keeps(full.value.nUnresolved, part.value.nUnresolved)
      && Keeps(full.value.biased, part.value.biased)
  }

  /** What `part` has of the fields a check depends on, it has as `full` does. */
  ghost predicate Degrades(full: Payload, part: Payload) {
    && Keeps(full.nExamples, part.nExamples) && Keeps(full.nErrored, part.nErrored)
    && Keeps(full.errorRate, part.errorRate) && Keeps(full.agreement, part.agreement)
    && Keeps(full.kappa, part.kappa)
    && Keeps(full.falsePassRate, part.falsePassRate) && Keeps(full.falseFailRate, part.falseFailRate)
    && ClassesKeep(full.perClass, part.perClass)
    && Keeps(full.humanKappa, part.humanKappa)
    && Keeps(full.judgeKappaOnCeilingSubset, part.judgeKappaOnCeilingSubset)
    && Keeps(full.atHumanCeiling, part.atHumanCeiling)
    && BiasKeeps(full.positionBias, part.positionBias)
  }

  ghost predicate Share(x: Option<real>) {
    x.Some? ==> 0.0 <= x.value <= 1.0
  }

  /** The ranges a calibration puts its figures in. */
  ghost predicate Sound(r: Report) {
    && 0.0 <= r.agreement && Share(r.falsePassRate) && Share(r.falseFailRate)
    && forall c :: c in r.perClass ==> 0 <= c.support
  }

  // ----------------------------------------------------------------- what must be there

  ghost predicate RateEvident(part: Option<real>, limit: Option<real>) {
    part.Some? || limit.None? || limit.value >= 1.0
  }

  ghost predicate BiasEvident(part: Option<BiasRow>) {
    && part.Some?
    && (part.value.biased == Some(false)
        || (part.value.inconsistencyRate.Some? && part.value.firstPositionRate.Some?))
  }

  ghost predicate ErrorsEvident(part: Payload, limit: real) {
    part.nErrored.Some? || limit >= 1.0 || (part.errorRate.Some? && part.errorRate.value <= limit)
  }

  /** Of what the requirement asks, the part that absence would let through is recorded. */
  ghost predicate Evident(part: Payload, q: Requirement) {
    && ErrorsEvident(part, q.maxErrorRate)
    && (part.perClass.Some? || q.minPerClass <= 0)
    && RateEvident(part.falsePassRate, q.maxFalsePassRate)
    && RateEvident(part.falseFailRate, q.maxFalseFailRate)
    && (q.allowPositionBias || BiasEvident(part.positionBias))
  }

  /** Every report the record may stem from meets the requirement. */
  ghost predicate Vouches(part: Payload, q: Requirement) {
    forall full, r :: Records(full, r) && Sound(r) && Degrades(full, part) ==> Satisfies(r, q)
  }

  // ----------------------------------------------------------------- nothing evident is hidden

  lemma ErrorRateRange(r: Report)
    ensures 0.0 <= r.ErrorRate() <= 1.0
    ensures r.nErrored == 0 ==> r.ErrorRate() == 0.0
    ensures r.nExamples == 0 && r.nErrored > 0 ==> r.ErrorRate() == 1.0
  {
    var n := r.nExamples + r.nErrored;
    if n > 0 {
      QuotientOrder(r.nErrored as real, n as real, 0.0);
      QuotientOrder(r.nErrored as real, n as real, 1.0);
    }
  }

  lemma ErrorsShow(full: Payload, r: Report, part: Payload, limit: real)
    requires Records(full, r) && Degrades(full, part) && ErrorsEvident(part, limit)
    requires Read(part).ErrorRate() <= limit
    ensures r.ErrorRate() <= limit
  {
    ErrorRateRange(r);
    ErrorRateRange(Read(part));
    hide Lists, FromRows, ClassesKeep, BiasKeeps;
  }

  lemma ClassesShow(full: Payload, r: Report, part: Payload, minimum: int, c: ClassBreakdown)
    requires Records(full, r) && Sound(r) && Degrades(full, part) && (part.perClass.Some? || minimum <= 0)
    requires forall x :: x in Read(part).perClass ==> x.support >= minimum
    requires c in r.perClass
    ensures c.support >= minimum
  {
    hide Lists, FromRows, BiasKeeps;
    assert c.support >= 0;
    if part.perClass.Some? {
      var i :| 0 <= i < |r.perClass| && r.perClass[i] == c;
      assert full.perClass == Some(MapSeq(r.perClass, ClassToRow));
      assert full.perClass.value[i] == ClassToRow(c);
      assert ClassKeeps(full.perClass.value[i], part.perClass.value[i]);
      assert Read(part).perClass == MapSeq(part.perClass.value, ClassFromRow);
      assert Read(part).perClass[i] == ClassFromRow(part.perClass.value[i]);
      assert Read(part).perClass[i] in Read(part).perClass;
    }
  }

  lemma BiasShows(full: Payload, r: Report, part: Payload)
    requires Records(full, r) && Degrades(full, part) && BiasEvident(part.positionBias)
    requires !Read(part).positionBias.value.Biased()
    ensures r.positionBias.Some? && !r.positionBias.value.Biased()
  {
    hide Lists, FromRows, ClassesKeep;
  }

  lemma FailuresShow(full: Payload, r: Report, part: Payload, q: Requirement, f: Failure)
    requires Records(full, r) && Sound(r) && Degrades(full, part)
    requires Satisfies(Read(part), q) && Evident(part, q)
    ensures !Fails(r, q, f)
  {
    hide Lists, FromRows, ClassesKeep, ErrorsAbove, Report.ErrorRate;
    assert !Fails(Read(part), q, f);
    match f {
      case TooManyErrors =>
        RateAbove(r, q.maxErrorRate);
        RateAbove(Read(part), q.maxErrorRate);
        ErrorsShow(full, r, part, q.maxErrorRate);
      case ThinClasses =>
        forall c | c in r.perClass
          ensures c.support >= q.minPerClass
        {
          ClassesShow(full, r, part, q.minPerClass, c);
        }
      case OrderEffects =>
        if !q.allowPositionBias { BiasShows(full, r, part); }
      case _ =>
        assert !Fails(Read(part), q, UndefinedKappa);
    }
  }

  // ----------------------------------------------------------------- what is missing can hide a failure

  /** The record of a changed report whose matrix is the same. */
  lemma Rewritten(full: Payload, r: Report, other: Report) returns (p: Payload)
    requires Records(full, r) && other.counts == r.counts
    ensures Records(p, other) && p == Stored(other, RowsOf(full))
  {
    p := Stored(other, RowsOf(full));
  }

  lemma Refutes(full: Payload, r: Report, part: Payload, q: Requirement, f: Failure)
    requires Records(full, r) && Sound(r) && Degrades(full, part) && Fails(r, q, f)
    ensures !Vouches(part, q)
  {
    hide Records, Sound, Degrades, Fails;
  }

  /** Enough errored examples break any limit below one. */
  lemma ManyErrors(n: nat, limit: real) returns (e: nat)
    requires 0.0 <= limit < 1.0
    ensures e > 0 && e as real / (n + e) as real > limit
  {
    var room := 1.0 - limit;
    e := (limit * n as real / room).Floor + 1;
    NonNegativeProduct(limit, n as real);
    QuotientOrder(limit * n as real, room, e as real);
    assert room * e as real == e as real - limit * e as real;
    assert (n + e) as real * limit == limit * n as real + limit * e as real;
    QuotientOrder(e as real, (n + e) as real, limit);
  }

  lemma HiddenErrors(full: Payload, r: Report, part: Payload, q: Requirement)
    requires Records(full, r) && Sound(r) && Degrades(full, part)
    requires Satisfies(Read(part), q) && !ErrorsEvident(part, q.maxErrorRate)
    ensures !Vouches(part, q)
  {
    hide Lists, FromRows, ErrorsAbove;
    RateAbove(r, q.maxErrorRate);
    RateAbove(Read(part), q.maxErrorRate);
    if part.errorRate.Some? {
      Refutes(full, r, part, q, TooManyErrors);
    } else {
      ErrorRateRange(Read(part));
      assert !Fails(Read(part), q, TooManyErrors);
      var e := ManyErrors(r.nExamples, q.maxErrorRate);
      var other := r.(nErrored := e);
      RateAbove(other, q.maxErrorRate);
      var p := Rewritten(full, r, other);
      Refutes(p, other, part, q, TooManyErrors);
    }
  }

  lemma HiddenFailure(full: Payload, r: Report, part: Payload, q: Requirement)
    requires Records(full, r) && Sound(r) && Degrades(full, part)
    requires Satisfies(Read(part), q) && ErrorsEvident(part, q.maxErrorRate) && !Evident(part, q)
    ensures !Vouches(part, q)
  {
    hide Lists, FromRows, ErrorsEvident, Satisfies, Read;
    var other, f := r, OrderEffects;
    if !RateEvident(part.falsePassRate, q.maxFalsePassRate) {
      other, f := r.(falsePassRate := Some(1.0)), FalsePasses;
    } else if !RateEvident(part.falseFailRate, q.maxFalseFailRate) {
      other, f := r.(falseFailRate := Some(1.0)), FalseFails;
    } else if part.perClass.None? && q.minPerClass > 0 {
      other, f := r.(perClass := [ClassBreakdown("", 0, 0.0, 0.0, None)]), ThinClasses;
      assert other.perClass[0] in other.perClass;
    } else {
      other := OtherBias(full, r, part);
    }
    var p := Rewritten(full, r, other);
    Refutes(p, other, part, q, f);
  }

  /** Unless unbiased on record, the report may have been biased. */
  lemma OtherBias(full: Payload, r: Report, part: Payload) returns (other: Report)
    requires Records(full, r) && Degrades(full, part) && !BiasEvident(part.positionBias)
    ensures other.positionBias.Some? && other.positionBias.value.Biased()
    ensures other == r.(positionBias := other.positionBias)
    ensures BiasKeeps(MapOption(other.positionBias, BiasToRow), part.positionBias)
  {
    hide Lists, FromRows, ClassesKeep;
    if part.positionBias.None? {
      other := r.(positionBias := Some(PositionBias(1, 1.0, 1.0, 0)));
    } else {
      var row, bias := part.positionBias.value, r.positionBias.value;
      if row.biased.Some? {
        other := r;
      } else if row.inconsistencyRate.None? {
        other := r.(positionBias := Some(bias.(inconsistencyRate := 1.0)));
      } else {
        other := r.(positionBias := Some(bias.(firstPositionRate := 1.0)));
      }
    }
  }

  /**
   A record with fields missing meets a requirement. Then every report it may stem from does, if and
   only if what the requirement asks about errors, class sizes, the two error rates and order effects
   is recorded; missing examples, agreement or kappa can only add failures.
   */
  lemma MissingFieldsHideIff(full: Payload, r: Report, part: Payload, q: Requirement)
    requires Records(full, r) && Sound(r) && Degrades(full, part)
    requires Satisfies(Read(part), q)
    ensures Vouches(part, q) <==> Evident(part, q)
  {
    if Evident(part, q) {
      forall p, t, f | Records(p, t) && Sound(t) && Degrades(p, part)
        ensures !Fails(t, q, f)
      {
        FailuresShow(p, t, part, q, f);
      }
    } else if ErrorsEvident(part, q.maxErrorRate) {
      HiddenFailure(full, r, part, q);
    } else {
      HiddenErrors(full, r, part, q);
    }
  }
}
