/**
 What the exporter's flush can promise, and exactly when (packages/python-sdk/src/proofstep/exporter.py).
 */
module Flush {
  import opened Common
  import opened Exporter

  /** What flush looks at before it answers that the queue has drained, when nothing comes between its two looks. */
  predicate FlushSays(s: State) {
    s.queue == [] && s.idle
  }

  /** The call has cleared the idle flag and its next operations put a trace. */
  predicate Putting(p: Producer) {
    p.Offering? || p.Counting? || p.Reoffering?
  }

  ghost predicate NonePutting(s: State) {
    forall p :: 0 <= p < |s.producers| ==> !Putting(s.producers[p])
  }

  /** Nothing is queued and no call is about to queue anything. */
  ghost predicate Drained(s: State) {
    s.queue == [] && NonePutting(s)
  }

  // ----------------------------------------------------------------- schedules that keep the flag

  /** A call to submit clears the idle flag. */
  predicate Clears(s: State, e: Event) {
    e.Advance? && e.p < |s.producers| && s.producers[e.p].Clearing?
  }

  /** No call to submit clears the flag. */
  ghost predicate KeepsFlag(c: Config, s: State, es: seq<Event>)
    requires Feasible(c, s, es)
    decreases |es|
  {
    es == [] || (KeepsFlag(c, s, es[..|es| - 1]) && !Clears(After(c, s, es[..|es| - 1]), es[|es| - 1]))
  }

  /** Flush finds the queue empty after the first k events and, at the end, the flag set. */
  ghost predicate FlushAnswers(c: Config, s: State, es: seq<Event>, k: nat)
    requires Feasible(c, s, es)
  {
    k <= |es| && Feasible(c, s, es[..k]) && After(c, s, es[..k]).queue == [] && After(c, s, es).idle
  }

  /** Until a call clears the flag again, flush answers True only with an empty batch. */
  ghost predicate HonestUntilCleared(c: Config, s: State) {
    forall es, k: nat ::
      Feasible(c, s, es) && KeepsFlag(c, s, es) && FlushAnswers(c, s, es, k) ==> After(c, s, es).batch == []
  }

  lemma Lies(c: Config, s: State, es: seq<Event>)
    requires Feasible(c, s, es) && KeepsFlag(c, s, es)
    requires FlushSays(After(c, s, es)) && After(c, s, es).batch != []
    ensures !HonestUntilCleared(c, s)
  {
    hide Feasible, After, KeepsFlag;
    assert es[..|es|] == es;
    assert FlushAnswers(c, s, es, |es|);
  }

  lemma Go(c: Config, s: State, es: seq<Event>, e: Event)
    requires Feasible(c, s, es) && KeepsFlag(c, s, es)
    requires Enabled(After(c, s, es), e) && !Clears(After(c, s, es), e)
    ensures Feasible(c, s, es + [e]) && KeepsFlag(c, s, es + [e])
    ensures After(c, s, es + [e]) == Apply(c, After(c, s, es), e)
  {
    hide Apply, Enabled, Clears;
    Extend(c, s, es, e);
    assert (es + [e])[..|es|] == es;
  }

  // ----------------------------------------------------------------- drained: honest

  /** What a drained state keeps: nothing enters the batch. */
  ghost predicate Quiet(s: State) {
    s.batch == [] && (s.stopping || Drained(s))
  }

  lemma QuietStep(c: Config, s: State, e: Event)
    requires Quiet(s) && Enabled(s, e) && !Clears(s, e)
    ensures Quiet(Apply(c, s, e))
  {
    hide SpanSum, Capacity;
    if e.Advance? && !s.stopping {
      assert !Putting(s.producers[e.p]);
    }
  }

  lemma {:induction false} QuietStays(c: Config, s: State, es: seq<Event>)
    requires Quiet(s) && Feasible(c, s, es) && KeepsFlag(c, s, es)
    ensures Quiet(After(c, s, es))
  {
    hide Quiet, Apply, Enabled, Clears;
    if es != [] {
      QuietStays(c, s, es[..|es| - 1]);
      QuietStep(c, After(c, s, es[..|es| - 1]), es[|es| - 1]);
    }
  }

  // ----------------------------------------------------------------- not drained: a schedule that lies

  /** No clock, no encoder, no network, no disk. */
  const NO_LUCK := Luck(false, false, false, false)

  /**
   With the flag set and something queued, the worker can take the queue's last trace and leave
   flush answering True.
   */
  lemma {:induction false} DrainLies(c: Config, s: State, es: seq<Event>) returns (after: seq<Event>)
    requires Feasible(c, s, es) && KeepsFlag(c, s, es)
    requires var t := After(c, s, es); t.worker.Polling? && t.idle && !t.stopping && t.queue != []
    ensures Feasible(c, s, after) && KeepsFlag(c, s, after)
    ensures FlushSays(After(c, s, after)) && After(c, s, after).batch != []
    decreases |After(c, s, es).queue|
  {
    hide Feasible, After, KeepsFlag, SpanSum;
    after := es;
    Go(c, s, after, Work(NO_LUCK));
    after := after + [Work(NO_LUCK)];
    if After(c, s, after).queue != [] {
      Go(c, s, after, Work(NO_LUCK));
      after := after + [Work(NO_LUCK)];
      if After(c, s, after).worker.Encoding? {
        Go(c, s, after, Work(NO_LUCK));
        after := after + [Work(NO_LUCK)];
      }
      Go(c, s, after, Work(NO_LUCK));
      after := after + [Work(NO_LUCK)];
      after := DrainLies(c, s, after);
    }
  }

  /** With an empty queue and a call about to put its trace, it does so first. */
  lemma PutThenDrainLies(c: Config, s: State, p: nat) returns (after: seq<Event>)
    requires s.worker.Polling? && s.idle && !s.stopping && s.queue == []
    requires p < |s.producers| && Putting(s.producers[p])
    ensures Feasible(c, s, after) && KeepsFlag(c, s, after)
    ensures FlushSays(After(c, s, after)) && After(c, s, after).batch != []
  {
    Nothing(c, s);
    after := [];
    assert KeepsFlag(c, s, after);
    hide Feasible, After, KeepsFlag;
    Go(c, s, after, Advance(p));
    after := after + [Advance(p)];
    if s.producers[p].Counting? {
      Go(c, s, after, Advance(p));
      after := after + [Advance(p)];
    }
    after := DrainLies(c, s, after);
  }

  // ----------------------------------------------------------------- exactly when

  /**
   Once the worker has set the flag, flush is honest until the next call clears it if and only if, as it
   was set, the worker was stopping, or nothing was queued and no call was about to queue anything.
   */
  lemma FlagHonestIff(c: Config, s: State)
    requires s.worker.Polling? && s.idle && s.batch == []
    ensures HonestUntilCleared(c, s) <==> s.stopping || Drained(s)
  {
    hide Feasible, After, KeepsFlag;
    if s.stopping || Drained(s) {
      forall es, k: nat | Feasible(c, s, es) && KeepsFlag(c, s, es) && FlushAnswers(c, s, es, k)
        ensures After(c, s, es).batch == []
      {
        QuietStays(c, s, es);
      }
    } else {
      var after;
      if s.queue != [] {
        Nothing(c, s);
        NothingKeeps(c, s);
        after := DrainLies(c, s, []);
      } else {
        var p :| 0 <= p < |s.producers| && Putting(s.producers[p]);
        after := PutThenDrainLies(c, s, p);
      }
      Lies(c, s, after);
    }
  }

  lemma NothingKeeps(c: Config, s: State)
    ensures Feasible(c, s, []) && KeepsFlag(c, s, [])
  {
  }

  /** In every schedule, of each setting of the flag that does not end the worker. */
  lemma MarkHonestIff(c: Config, es: seq<Event>, luck: Luck)
    requires Feasible(c, Init(), es) && After(c, Init(), es).worker == Marking(false)
    ensures var s := After(c, Init(), es);
      HonestUntilCleared(c, WorkStep(c, s, luck)) <==> s.stopping || Drained(s)
  {
    hide HonestUntilCleared, Feasible, After, Ordered;
    OrderAndCounters(c, es);
    FlagHonestIff(c, WorkStep(c, After(c, Init(), es), luck));
  }

  // ----------------------------------------------------------------- whole schedules

  /** Every time the worker sets the flag, nothing is queued and no call is about to queue anything. */
  ghost predicate Calm(c: Config, s: State, es: seq<Event>)
    requires Feasible(c, s, es)
    decreases |es|
  {
    es == [] || (
      var before := After(c, s, es[..|es| - 1]);
      Calm(c, s, es[..|es| - 1]) && (es[|es| - 1].Work? && before.worker == Marking(false) ==> Drained(before)))
  }

  /** The flag means what it says. */
  ghost predicate FlagHonest(s: State) {
    && (s.idle && !s.worker.Stopped? ==> s.batch == [] && Drained(s))
    && (s.worker.Marking? || s.worker.Stopped? ==> s.batch == [])
  }

  lemma HonestAdvance(c: Config, s: State, p: nat)
    requires FlagHonest(s) && p < |s.producers|
    ensures FlagHonest(AdvanceStep(c, s, p))
  {
    hide Capacity;
    AdvanceSameWorker(c, s, p);
    if s.idle && !s.worker.Stopped? {
      assert !Putting(s.producers[p]);
    }
  }

  lemma HonestStep(c: Config, s: State, e: Event)
    requires FlagHonest(s) && Enabled(s, e)
    requires e.Work? && s.worker == Marking(false) ==> Drained(s)
    ensures FlagHonest(Apply(c, s, e))
  {
    hide SpanSum, AdvanceStep, SendStep;
    match e
    case Submit(_) =>
    case Advance(p) => HonestAdvance(c, s, p);
    case Work(luck) =>
      if s.worker.Sending? { SendKeepsFlag(c, s, s.worker.attempt, s.worker.last, luck); }
    case Shutdown =>
  }

  lemma SendKeepsFlag(c: Config, s: State, attempt: nat, last: bool, luck: Luck)
    ensures var t := SendStep(c, s, attempt, last, luck);
      && t.idle == s.idle && t.queue == s.queue && t.producers == s.producers
      && (t.worker.Sending? || (t.worker == Resume(last) && t.batch == []))
      && (s.batch == [] ==> t.batch == [])
  {
    hide SpanSum;
  }

  /** In every such schedule the flag is set only with an empty batch, so flush answers True only then. */
  lemma {:induction false} FlushHonestWhenCalm(c: Config, es: seq<Event>)
    requires Feasible(c, Init(), es) && Calm(c, Init(), es)
    ensures FlagHonest(After(c, Init(), es))
    ensures After(c, Init(), es).idle ==> After(c, Init(), es).batch == []
  {
    if es != [] {
      hide Apply, Enabled, FlagHonest, Drained;
      var prefix, e := es[..|es| - 1], es[|es| - 1];
      FlushHonestWhenCalm(c, prefix);
      HonestStep(c, After(c, Init(), prefix), e);
    }
    HonestFlush(After(c, Init(), es));
  }

  lemma HonestFlush(s: State)
    requires FlagHonest(s)
    ensures s.idle ==> s.batch == []
  {
  }

  /** Then everything submitted is accounted for: posted, spooled, counted as dropped, or lost by an uncounted exit. */
  lemma FlushAccounts(c: Config, es: seq<Event>, t: Trace)
    requires Feasible(c, Init(), es) && Calm(c, Init(), es)
    requires FlushSays(After(c, Init(), es))
    requires forall p :: p in After(c, Init(), es).producers ==> p.Returned?
    ensures var s := After(c, Init(), es);
      multiset(s.submitted)[t] == Count(s.posted, t) + Count(s.spooled, t) + Count(s.lost, t) + multiset(s.dropped)[t]
  {
    hide FlagHonest, Calm;
    var s := After(c, Init(), es);
    NothingVanishes(c, es);
    FlushHonestWhenCalm(c, es);
    NoneHeld(s.producers, t);
    assert Places(s, t) == multiset(s.submitted)[t];
  }

  lemma {:induction false} NoneHeld(ps: seq<Producer>, t: Trace)
    requires forall p :: p in ps ==> p.Returned?
    ensures Held(ps, t) == 0
  {
    if ps != [] {
      assert ps[|ps| - 1] in ps;
      NoneHeld(ps[..|ps| - 1], t);
    }
  }

  /** One caller is enough: its submit has returned, flush answers True, and nothing was posted. */
  lemma FlushCanLie(c: Config, t: Trace) returns (es: seq<Event>)
    ensures Feasible(c, Init(), es)
    ensures var s := After(c, Init(), es);
      FlushSays(s) && s.producers == [Returned] && s.batch == [Item(0, t)] && s.posted == []
  {
    hide Feasible, SpanSum;
    var s0, w := Init(), Work(NO_LUCK);
    es := [];
    Nothing(c, s0);
    hide After;
    Extend(c, s0, es, Submit(t));
    es := es + [Submit(t)];
    Extend(c, s0, es, Advance(0));
    es := es + [Advance(0)];
    Extend(c, s0, es, w);
    es := es + [w];
    Extend(c, s0, es, w);
    es := es + [w];
    Extend(c, s0, es, w);
    es := es + [w];
    Extend(c, s0, es, w);
    es := es + [w];
    Extend(c, s0, es, Advance(0));
    es := es + [Advance(0)];
    Extend(c, s0, es, w);
    es := es + [w];
  }
}
