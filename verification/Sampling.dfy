/**
 Which production traces a rule pays to evaluate (packages/evaluation-core/src/proofstep_core/sampling.py).
 The hash is any function into [0, 1).
 */
module Sampling {
  import opened Common

  /** Where a salt and a trace id fall in the unit interval. */
  type Hash = (string, string) -> real

  ghost predicate UnitHash(hash: Hash) {
    forall salt, id :: 0.0 <= hash(salt, id) < 1.0
  }

  datatype Reason = Deterministic | Sampled | Escalated | Forced | NotSampled | Capped

  datatype Decision = Decision(evaluate: bool, reason: Reason, bucket: Option<real>)
  {
    /** Free checks cost nothing. */
    predicate CostsMoney() {
      evaluate && !reason.Deterministic?
    }
  }

  datatype Rule = Rule(id: string, rate: real, enabled: bool, deterministic: bool, escalates: bool,
      group: Option<string>)
  {
    function Salt(): string {
      if group.Some? && group.value != "" then group.value else id
    }
  }

  datatype Trace = Trace(id: string, failed: bool, forced: bool)

  function IsSampled(hash: Hash, id: string, rate: real, salt: string): bool {
    if rate <= 0.0 then false
    else if rate >= 1.0 then true
    else hash(salt, id) < rate
  }

  // ----------------------------------------------------------------- one decision

  /** The trace is judged by the sample and by nothing before it. */
  predicate Unforced(rule: Rule, t: Trace) {
    rule.enabled && !t.forced && !rule.deterministic
  }

  predicate InSample(hash: Hash, rule: Rule, t: Trace) {
    hash(rule.Salt(), t.id) < rule.rate
  }

  /** A failure the sample missed. */
  predicate Eligible(hash: Hash, rule: Rule, t: Trace) {
    Unforced(rule, t) && !InSample(hash, rule, t) && t.failed && rule.escalates
  }

  /** The decision, given whether an escalation may still be paid for. */
  function DecisionFor(hash: Hash, rule: Rule, t: Trace, affordable: bool): Decision {
    var bucket := hash(rule.Salt(), t.id);
    if !rule.enabled then Decision(false, NotSampled, None)
    else if t.forced then Decision(true, Forced, None)
    else if rule.deterministic then Decision(true, Deterministic, None)
    else if bucket < rule.rate then Decision(true, Sampled, Some(bucket))
    else if t.failed && rule.escalates then
      if affordable then Decision(true, Escalated, Some(bucket)) else Decision(false, Capped, Some(bucket))
    else Decision(false, NotSampled, Some(bucket))
  }

  class EscalationBudget {
    const limit: int
    var spent: int

    constructor (limit: int)
      ensures this.limit == limit && spent == 0
    {
      this.limit := limit;
      spent := 0;
    }

    predicate Exhausted()
      reads this
    {
      spent >= limit
    }

    method Take() returns (taken: bool)
      modifies this
      ensures taken == !old(Exhausted())
      ensures spent == old(spent) + if taken then 1 else 0
    {
      if Exhausted() {
        return false;
      }
      spent := spent + 1;
      return true;
    }
  }

  /** Only a failure the sample missed touches the budget. */
  method Decide(hash: Hash, rule: Rule, t: Trace, budget: EscalationBudget?) returns (d: Decision)
    modifies budget
    ensures d == DecisionFor(hash, rule, t, budget == null || !old(budget.Exhausted()))
    ensures budget != null ==>
      budget.spent == old(budget.spent) + if Eligible(hash, rule, t) && d.evaluate then 1 else 0
  {
    if !rule.enabled {
      return Decision(false, NotSampled, None);
    }
    if t.forced {
      return Decision(true, Forced, None);
    }
    if rule.deterministic {
      return Decision(true, Deterministic, None);
    }
    var bucket := hash(rule.Salt(), t.id);
    if bucket < rule.rate {
      return Decision(true, Sampled, Some(bucket));
    }
    if t.failed && rule.escalates {
      var taken := true;
      if budget != null { taken := budget.Take(); }
      return Decision(taken, if taken then Escalated else Capped, Some(bucket));
    }
    return Decision(false, NotSampled, Some(bucket));
  }

  // ----------------------------------------------------------------- a batch

  function CountEligible(hash: Hash, rule: Rule, ts: seq<Trace>): (n: nat)
    ensures n <= |ts|
  {
    if ts == [] then 0
    else CountEligible(hash, rule, ts[..|ts| - 1]) + if Eligible(hash, rule, ts[|ts| - 1]) then 1 else 0
  }

  /** Each trace's decision depends on the others only through the eligible ones before it. */
  ghost predicate BatchDecisions(hash: Hash, rule: Rule, ts: seq<Trace>, limit: int, ds: seq<Decision>) {
    && |ds| == |ts|
    && forall i :: 0 <= i < |ts| ==> ds[i] == DecisionFor(hash, rule, ts[i], CountEligible(hash, rule, ts[..i]) < limit)
  }

  /** What a budget has spent after so many eligible traces. */
  function SpentAfter(limit: int, eligible: nat): int {
    Min(Max(0, limit), eligible)
  }

  /** One batch under one rule with a fresh budget. */
  method DecideBatch(hash: Hash, rule: Rule, ts: seq<Trace>, limit: int) returns (ds: seq<Decision>, spent: int)
    ensures BatchDecisions(hash, rule, ts, limit, ds)
    ensures spent == SpentAfter(limit, CountEligible(hash, rule, ts))
  {
    hide DecisionFor, BatchDecisions, Eligible, CountEligible;
    var budget := new EscalationBudget(limit);
    ds := [];
    NothingDecided(hash, rule, ts, limit);
    for i := 0 to |ts|
      invariant |ds| == i && BatchDecisions(hash, rule, ts[..i], limit, ds)
      invariant budget.spent == SpentAfter(limit, CountEligible(hash, rule, ts[..i]))
    {
      var d := Decide(hash, rule, ts[i], budget);
      BatchNext(hash, rule, ts, i, limit, ds, d);
      ds := ds + [d];
    }
    assert ts[..|ts|] == ts;
    spent := budget.spent;
  }

  lemma NothingDecided(hash: Hash, rule: Rule, ts: seq<Trace>, limit: int)
    ensures BatchDecisions(hash, rule, ts[..0], limit, []) && CountEligible(hash, rule, ts[..0]) == 0
  {
  }

  /** The next trace's decision and what it spends. */
  lemma BatchNext(hash: Hash, rule: Rule, ts: seq<Trace>, i: nat, limit: int, ds: seq<Decision>, d: Decision)
    requires i < |ts| && |ds| == i && BatchDecisions(hash, rule, ts[..i], limit, ds)
    requires var before := CountEligible(hash, rule, ts[..i]);
      d == DecisionFor(hash, rule, ts[i], SpentAfter(limit, before) < limit)
    ensures BatchDecisions(hash, rule, ts[..i + 1], limit, ds + [d])
    ensures var before := CountEligible(hash, rule, ts[..i]);
      SpentAfter(limit, CountEligible(hash, rule, ts[..i + 1])) == SpentAfter(limit, before) +
        if Eligible(hash, rule, ts[i]) && d.evaluate then 1 else 0
  {
    hide DecisionFor, Eligible;
    var before := CountEligible(hash, rule, ts[..i]);
    assert ts[..i + 1][..i] == ts[..i];
    assert SpentAfter(limit, before) < limit <==> before < limit;
    EligibleEvaluates(hash, rule, ts[i], before < limit);
    forall k | 0 <= k < i + 1
      ensures (ds + [d])[k] ==
          DecisionFor(hash, rule, ts[..i + 1][k], CountEligible(hash, rule, ts[..i + 1][..k]) < limit)
    {
      assert ts[..i + 1][..k] == ts[..k];
      if k < i { assert ts[..i][..k] == ts[..k]; }
    }
  }

  lemma EligibleEvaluates(hash: Hash, rule: Rule, t: Trace, affordable: bool)
    ensures Eligible(hash, rule, t) ==> DecisionFor(hash, rule, t, affordable).evaluate == affordable
    ensures Eligible(hash, rule, t) || DecisionFor(hash, rule, t, affordable) == DecisionFor(hash, rule, t, !affordable)
  {
  }

  function CountReason(ds: seq<Decision>, reason: Reason): nat {
    if ds == [] then 0 else CountReason(ds[..|ds| - 1], reason) + if ds[|ds| - 1].reason == reason then 1 else 0
  }

  function CountPaid(ds: seq<Decision>): nat {
    if ds == [] then 0 else CountPaid(ds[..|ds| - 1]) + if ds[|ds| - 1].CostsMoney() then 1 else 0
  }

  /** Paid for whatever the budget: forced, or in the sample. */
  predicate PaidAnyway(hash: Hash, rule: Rule, t: Trace) {
    rule.enabled && (t.forced || (!rule.deterministic && InSample(hash, rule, t)))
  }

  function CountAnyway(hash: Hash, rule: Rule, ts: seq<Trace>): nat {
    if ts == [] then 0
    else CountAnyway(hash, rule, ts[..|ts| - 1]) + if PaidAnyway(hash, rule, ts[|ts| - 1]) then 1 else 0
  }

  lemma OneDecision(hash: Hash, rule: Rule, t: Trace, affordable: bool)
    ensures var d := DecisionFor(hash, rule, t, affordable);
      && (d.reason == Escalated <==> Eligible(hash, rule, t) && affordable)
      && (d.reason == Capped <==> Eligible(hash, rule, t) && !affordable)
      && (d.CostsMoney() <==> PaidAnyway(hash, rule, t) || (Eligible(hash, rule, t) && affordable))
      && !(PaidAnyway(hash, rule, t) && Eligible(hash, rule, t))
  {
  }

  /** Escalations are the limit or all that were eligible, whichever is less; the rest of the eligible are capped. */
  lemma {:induction false} EscalatedExactly(hash: Hash, rule: Rule, ts: seq<Trace>, limit: int, ds: seq<Decision>)
    requires BatchDecisions(hash, rule, ts, limit, ds)
    ensures CountReason(ds, Escalated) == Min(Max(0, limit), CountEligible(hash, rule, ts))
    ensures CountReason(ds, Capped) == CountEligible(hash, rule, ts) - CountReason(ds, Escalated)
    ensures CountPaid(ds) == CountAnyway(hash, rule, ts) + CountReason(ds, Escalated)
  {
    hide DecisionFor, Eligible, PaidAnyway, Decision.CostsMoney;
    if ts != [] {
      var last := |ts| - 1;
      BatchPrefix(hash, rule, ts, limit, ds);
      EscalatedExactly(hash, rule, ts[..last], limit, ds[..last]);
      OneDecision(hash, rule, ts[last], CountEligible(hash, rule, ts[..last]) < limit);
      assert ds[last] == DecisionFor(hash, rule, ts[last], CountEligible(hash, rule, ts[..last]) < limit);
    }
  }

  lemma BatchPrefix(hash: Hash, rule: Rule, ts: seq<Trace>, limit: int, ds: seq<Decision>)
    requires BatchDecisions(hash, rule, ts, limit, ds) && ts != []
    ensures BatchDecisions(hash, rule, ts[..|ts| - 1], limit, ds[..|ts| - 1])
  {
    hide DecisionFor;
    var last := |ts| - 1;
    forall i | 0 <= i < last
      ensures ds[..last][i] ==
          DecisionFor(hash, rule, ts[..last][i], CountEligible(hash, rule, ts[..last][..i]) < limit)
    {
      assert ts[..last][..i] == ts[..i];
    }
  }

  lemma {:induction false} EligibleGrows(hash: Hash, rule: Rule, ts: seq<Trace>, i: nat)
    requires i <= |ts|
    ensures CountEligible(hash, rule, ts[..i]) <= CountEligible(hash, rule, ts)
  {
    if i < |ts| {
      EligibleGrows(hash, rule, ts[..|ts| - 1], i);
      assert ts[..|ts| - 1][..i] == ts[..i];
    } else {
      assert ts[..i] == ts;
    }
  }

  /** Arrival order alone says who is escalated: the first `limit` eligible traces. After one is capped, none is. */
  lemma FirstEligibleEscalate(hash: Hash, rule: Rule, ts: seq<Trace>, limit: int, ds: seq<Decision>, i: nat, j: nat)
    requires BatchDecisions(hash, rule, ts, limit, ds) && i < |ts|
    ensures ds[i].reason == Escalated <==> Eligible(hash, rule, ts[i]) && CountEligible(hash, rule, ts[..i]) < limit
    ensures ds[i].reason == Capped <==> Eligible(hash, rule, ts[i]) && CountEligible(hash, rule, ts[..i]) >= limit
    ensures ds[i].reason == Capped && i < j < |ts| ==> ds[j].reason != Escalated
  {
    hide DecisionFor, Eligible, PaidAnyway;
    OneDecision(hash, rule, ts[i], CountEligible(hash, rule, ts[..i]) < limit);
    if i < j < |ts| {
      EligibleGrows(hash, rule, ts[..j], i);
      assert ts[..j][..i] == ts[..i];
      OneDecision(hash, rule, ts[j], CountEligible(hash, rule, ts[..j]) < limit);
    }
  }

  // ----------------------------------------------------------------- order and rate

  lemma {:induction false} CountsWithout(hash: Hash, rule: Rule, ts: seq<Trace>, i: nat)
    requires i < |ts|
    ensures CountEligible(hash, rule, ts) == CountEligible(hash, rule, ts[..i] + ts[i + 1..]) +
      if Eligible(hash, rule, ts[i]) then 1 else 0
    ensures CountAnyway(hash, rule, ts) == CountAnyway(hash, rule, ts[..i] + ts[i + 1..]) +
      if PaidAnyway(hash, rule, ts[i]) then 1 else 0
  {
    hide Eligible, PaidAnyway;
    var last := |ts| - 1;
    if i == last {
      assert ts[..i] + ts[i + 1..] == ts[..last];
    } else {
      CountsWithout(hash, rule, ts[..last], i);
      WithoutShape(ts, i);
    }
  }

  lemma {:induction false} CountsOrderFree(hash: Hash, rule: Rule, a: seq<Trace>, b: seq<Trace>)
    requires multiset(a) == multiset(b)
    ensures CountEligible(hash, rule, a) == CountEligible(hash, rule, b)
    ensures CountAnyway(hash, rule, a) == CountAnyway(hash, rule, b)
  {
    hide Eligible, PaidAnyway;
    if a == [] {
      assert |multiset(b)| == 0;
    } else {
      var i := MatchLast(a, b);
      CountsWithout(hash, rule, b, i);
      CountsOrderFree(hash, rule, a[..|a| - 1], b[..i] + b[i + 1..]);
    }
  }

  /** What a batch costs does not depend on the order its traces arrive in. */
  lemma PaidOrderFree(
    hash: Hash, rule: Rule, a: seq<Trace>, b: seq<Trace>, limit: int, da: seq<Decision>, db: seq<Decision>)
    requires multiset(a) == multiset(b)
    requires BatchDecisions(hash, rule, a, limit, da) && BatchDecisions(hash, rule, b, limit, db)
    ensures CountPaid(da) == CountPaid(db) && CountReason(da, Escalated) == CountReason(db, Escalated)
  {
    hide BatchDecisions;
    EscalatedExactly(hash, rule, a, limit, da);
    EscalatedExactly(hash, rule, b, limit, db);
    CountsOrderFree(hash, rule, a, b);
  }

  lemma {:induction false} RateShifts(hash: Hash, low: Rule, high: Rule, ts: seq<Trace>)
    requires high == low.(rate := high.rate) && low.rate <= high.rate
    ensures CountEligible(hash, high, ts) <= CountEligible(hash, low, ts)
    ensures CountAnyway(hash, low, ts) + CountEligible(hash, low, ts) <= CountAnyway(hash, high, ts) +
        CountEligible(hash, high, ts)
  {
    if ts != [] {
      assert low.Salt() == high.Salt();
      RateShifts(hash, low, high, ts[..|ts| - 1]);
    }
  }

  /**
   Raising the rate keeps every sampled trace and never makes a batch pay less; failures the sample
   picks up free budget.
   */
  lemma MonotoneInRate(
    hash: Hash, low: Rule, high: Rule, ts: seq<Trace>, limit: int, dl: seq<Decision>, dh: seq<Decision>)
    requires high == low.(rate := high.rate) && low.rate <= high.rate
    requires BatchDecisions(hash, low, ts, limit, dl) && BatchDecisions(hash, high, ts, limit, dh)
    ensures forall i :: 0 <= i < |ts| && dl[i].reason == Sampled ==> dh[i].reason == Sampled
    ensures CountReason(dh, Escalated) <= CountReason(dl, Escalated)
    ensures CountPaid(dl) <= CountPaid(dh)
  {
    hide CountEligible, CountAnyway, CountPaid, CountReason;
    EscalatedExactly(hash, low, ts, limit, dl);
    EscalatedExactly(hash, high, ts, limit, dh);
    RateShifts(hash, low, high, ts);
    forall i | 0 <= i < |ts| && dl[i].reason == Sampled
      ensures dh[i].reason == Sampled
    {
      SampledStays(hash, low, high, ts[i], CountEligible(hash, low, ts[..i]) < limit,
          CountEligible(hash, high, ts[..i]) < limit);
    }
  }

  lemma SampledStays(hash: Hash, low: Rule, high: Rule, t: Trace, a: bool, b: bool)
    requires high == low.(rate := high.rate) && low.rate <= high.rate && DecisionFor(hash, low, t, a).reason == Sampled
    ensures DecisionFor(hash, high, t, b).reason == Sampled
  {
    assert low.Salt() == high.Salt();
  }

  /** The decision agrees with the sampling test, clamped rates included. */
  lemma AgreesWithIsSampled(hash: Hash, rule: Rule, t: Trace, affordable: bool)
    requires UnitHash(hash) && Unforced(rule, t)
    ensures DecisionFor(hash, rule, t, affordable).reason == Sampled <==> IsSampled(hash, t.id, rule.rate, rule.Salt())
    ensures var salt := if rule.group.Some? && rule.group.value != "" then rule.group.value else rule.id;
      DecisionFor(hash, rule, t, affordable).reason == Sampled <==>
        rule.rate >= 1.0 || (rule.rate > 0.0 && hash(salt, t.id) < rule.rate)
  {
    assert 0.0 <= hash(rule.Salt(), t.id) < 1.0;
  }
}
