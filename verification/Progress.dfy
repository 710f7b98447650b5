/** When the exporter's worker sends, and that it gets there (packages/python-sdk/src/proofstep/exporter.py). */
module Progress {
  import opened Common
  import opened Exporter

  // ----------------------------------------------------------------- what is not sent

  /** The worker's luck the last time it decided whether to send. */
  ghost function LastDecision(c: Config, s: State, es: seq<Event>): Option<Luck>
    requires Feasible(c, s, es)
    decreases |es|
  {
    if es == [] then None
    else
      var e := es[|es| - 1];
      if e.Work? && After(c, s, es[..|es| - 1]).worker.Deciding? then Some(e.luck)
      else LastDecision(c, s, es[..|es| - 1])
  }

  ghost predicate Decided(c: Config, s: State, luck: Option<Luck>) {
    && (s.worker.Polling? || s.worker.Checking? ==>
        s.batch != [] ==> luck.Some? && !luck.value.due && SpanSum(s.batch) < c.batchSize)
    && (s.worker == Encoding(false) ==>
        s.batch != [] && luck.Some? && (luck.value.due || SpanSum(s.batch) >= c.batchSize))
    && (s.worker.Marking? ==> s.batch == [])
  }

  /** A send goes on to its next attempt, or leaves nothing in the batch. */
  lemma SendEnds(c: Config, s: State, attempt: nat, last: bool, luck: Luck)
    ensures var t := SendStep(c, s, attempt, last, luck);
      && t.stopping == s.stopping && t.queue == s.queue
      && ((t == s.(worker := Sending(attempt + 1, last), stats := t.stats) && attempt + 1 < c.maxRetries)
          || (t.worker == Resume(last) && t.batch == []))
      && (s.stopping && attempt > 0 ==> t.worker == Resume(last))
  {
    hide SpanSum;
  }

  lemma DecidedWork(c: Config, s: State, luck: Luck, before: Option<Luck>)
    requires Decided(c, s, before)
    ensures Decided(c, WorkStep(c, s, luck), if s.worker.Deciding? then Some(luck) else before)
  {
    hide SpanSum, SendStep;
    if s.worker.Sending? { SendEnds(c, s, s.worker.attempt, s.worker.last, luck); }
  }

  lemma DecidedStep(c: Config, s: State, e: Event, luck: Option<Luck>)
    requires Decided(c, s, luck) && Enabled(s, e)
    ensures Decided(c, Apply(c, s, e), if e.Work? && s.worker.Deciding? then Some(e.luck) else luck)
  {
    hide SpanSum, WorkStep, AdvanceStep;
    match e
    case Submit(_) =>
    case Advance(p) => AdvanceSameWorker(c, s, p);
    case Work(l) => DecidedWork(c, s, l, luck);
    case Shutdown =>
  }

  /**
   In every schedule: a worker that goes on polling with traces in its batch was not due when it last decided,
   and holds fewer spans than a batch takes; one that goes on to send was due, or holds that many.
   */
  lemma {:induction false} HeldIsNotDue(c: Config, es: seq<Event>)
    requires Feasible(c, Init(), es)
    ensures var s, luck := After(c, Init(), es), LastDecision(c, Init(), es);
      && (s.worker.Polling? || s.worker.Checking? ==>
          s.batch != [] ==> luck.Some? && !luck.value.due && SpanSum(s.batch) < c.batchSize)
      && (s.worker == Encoding(false) ==>
          s.batch != [] && luck.Some? && (luck.value.due || SpanSum(s.batch) >= c.batchSize))
  {
    DecidedAlways(c, es);
  }

  lemma {:induction false} DecidedAlways(c: Config, es: seq<Event>)
    requires Feasible(c, Init(), es)
    ensures Decided(c, After(c, Init(), es), LastDecision(c, Init(), es))
  {
    if es != [] {
      hide Decided, Apply, Enabled;
      var prefix, e := es[..|es| - 1], es[|es| - 1];
      DecidedAlways(c, prefix);
      DecidedStep(c, After(c, Init(), prefix), e, LastDecision(c, Init(), prefix));
    }
  }

  /** How much was queued the last time the worker checked. */
  ghost function LastCheck(c: Config, s: State, es: seq<Event>): Option<nat>
    requires Feasible(c, s, es)
    decreases |es|
  {
    if es == [] then None
    else
      var e, before := es[|es| - 1], After(c, s, es[..|es| - 1]);
      if e.Work? && before.worker.Checking? then Some(|before.queue|) else LastCheck(c, s, es[..|es| - 1])
  }

  /** In every schedule the worker goes on to set the flag only with an empty batch, having seen an empty queue. */
  lemma {:induction false} MarksWhenEmpty(c: Config, es: seq<Event>)
    requires Feasible(c, Init(), es) && After(c, Init(), es).worker == Marking(false)
    ensures After(c, Init(), es).batch == [] && LastCheck(c, Init(), es) == Some(0)
  {
    var prefix, e := es[..|es| - 1], es[|es| - 1];
    DecidedAlways(c, es);
    var s := After(c, Init(), prefix);
    MarkingComesFrom(c, s, e);
    if s.worker == Marking(false) { MarksWhenEmpty(c, prefix); }
  }

  lemma MarkingComesFrom(c: Config, s: State, e: Event)
    requires Enabled(s, e) && Apply(c, s, e).worker == Marking(false)
    ensures if e.Work? then s.worker.Checking? && s.queue == [] else s.worker == Marking(false)
  {
    hide SpanSum, SendStep, AdvanceStep;
    match e
    case Submit(_) =>
    case Advance(p) => AdvanceSameWorker(c, s, p);
    case Work(luck) => if s.worker.Sending? { SendEnds(c, s, s.worker.attempt, s.worker.last, luck); }
    case Shutdown =>
  }

  /** The size of a batch is the sum of the span counts of its traces. */
  lemma SpansAddUp(a: seq<Item>, b: seq<Item>, x: Item)
    ensures SpanSum(a + b) == SpanSum(a) + SpanSum(b) && SpanSum([x]) == x.trace.spans
  {
    SpanSumAppend(a, b);
    assert [x][..0] == [];
  }

  // ----------------------------------------------------------------- everything gets sent

  /** The clock says due, the encoder encodes, the server answers. */
  const GOOD := Luck(true, true, true, true)

  /** Only a shutdown lets the worker leave its loop, and no attempt is beyond the last. */
  ghost predicate Sane(c: Config, s: State) {
    match s.worker
    case Encoding(last) => last ==> s.stopping
    case Sending(attempt, last) => (last ==> s.stopping) && attempt < c.maxRetries
    case Marking(last) => (last ==> s.stopping) && s.batch == []
    case Stopped => s.stopping
    case _ => true
  }

  lemma SaneStep(c: Config, s: State, e: Event)
    requires c.maxRetries > 0 && Sane(c, s) && Enabled(s, e)
    ensures Sane(c, Apply(c, s, e))
  {
    hide SpanSum, SendStep, AdvanceStep;
    match e
    case Submit(_) =>
    case Advance(p) => AdvanceSameWorker(c, s, p);
    case Work(luck) => if s.worker.Sending? { SendEnds(c, s, s.worker.attempt, s.worker.last, luck); }
    case Shutdown =>
  }

  lemma {:induction false} SaneAlways(c: Config, es: seq<Event>)
    requires c.maxRetries > 0 && Feasible(c, Init(), es)
    ensures Sane(c, After(c, Init(), es))
  {
    if es != [] {
      hide Sane, Apply, Enabled;
      SaneAlways(c, es[..|es| - 1]);
      SaneStep(c, After(c, Init(), es[..|es| - 1]), es[|es| - 1]);
    }
  }

  /** Nothing is queued or batched, and the flag says so. */
  ghost predicate Settled(s: State) {
    s.queue == [] && s.batch == [] && s.idle
  }

  /** A bound on the worker's steps until all is settled. */
  ghost function StepsLeft(s: State): nat {
    5 * |s.queue| +
      match s.worker
      case Polling => if s.queue != [] then 1 else if s.batch != [] then 6 else if s.idle then 0 else 4
      case Deciding => if s.batch != [] then 5 else 3
      case Encoding(_) => 4
      case Sending(_, _) => 3
      case Checking => if s.batch != [] then 7 else 2
      case Marking(_) => if s.queue == [] then 1 else 2
      case Stopped => 0
  }

  lemma GoodSend(c: Config, s: State, attempt: nat, last: bool)
    requires attempt < c.maxRetries && !s.stopping
    ensures var t := SendStep(c, s, attempt, last, GOOD);
      t == s.(worker := Resume(last), posted := s.posted + s.batch, batch := [], stats := t.stats)
  {
    hide SpanSum;
  }

  lemma GoodStep(c: Config, s: State)
    requires c.maxRetries > 0 && Sane(c, s) && !s.stopping && !Settled(s)
    ensures var t := WorkStep(c, s, GOOD);
      && Sane(c, t) && !t.stopping
      && t.posted + t.batch + t.queue == s.posted + s.batch + s.queue
      && StepsLeft(t) < StepsLeft(s)
  {
    hide SpanSum, SendStep;
    SaneStep(c, s, Work(GOOD));
    if s.worker.Sending? { GoodSend(c, s, s.worker.attempt, s.worker.last); }
    if s.queue != [] { assert s.queue == [s.queue[0]] + s.queue[1..]; }
  }

  lemma {:induction false} GoodRun(c: Config, s: State, es: seq<Event>) returns (more: seq<Event>)
    requires c.maxRetries > 0 && Feasible(c, s, es)
    requires var t := After(c, s, es); Sane(c, t) && !t.stopping
    ensures Feasible(c, s, es + more) && forall e :: e in more ==> e == Work(GOOD)
    ensures |more| <= StepsLeft(After(c, s, es))
    ensures var t, u := After(c, s, es), After(c, s, es + more);
      Settled(u) && u.posted == t.posted + t.batch + t.queue
    decreases StepsLeft(After(c, s, es))
  {
    hide Feasible, After, WorkStep, Sane, StepsLeft;
    var t := After(c, s, es);
    if Settled(t) {
      more := [];
      assert es + more == es;
    } else {
      GoodStep(c, t);
      Extend(c, s, es, Work(GOOD));
      var rest := GoodRun(c, s, es + [Work(GOOD)]);
      more := [Work(GOOD)] + rest;
      assert es + more == es + [Work(GOOD)] + rest;
    }
  }

  /**
   Whatever has happened, short of a shutdown: with no further calls and everything in its favour, the
   worker posts all that is queued or batched, in order, within five steps a trace and a few, and sets the flag.
   */
  lemma {:induction false} EverythingGetsPosted(c: Config, es: seq<Event>) returns (more: seq<Event>)
    requires c.maxRetries > 0 && Feasible(c, Init(), es) && !After(c, Init(), es).stopping
    ensures Feasible(c, Init(), es + more) && forall e :: e in more ==> e == Work(GOOD)
    ensures |more| <= 5 * |After(c, Init(), es).queue| + 7
    ensures var s, t := After(c, Init(), es), After(c, Init(), es + more);
      && t.posted == s.posted + s.batch + s.queue
      && t.queue == [] && t.batch == [] && t.idle
  {
    SaneAlways(c, es);
    more := GoodRun(c, Init(), es);
  }

  // ----------------------------------------------------------------- a shutdown ends the worker

  /** How often the worker takes a step. */
  ghost function Works(es: seq<Event>): nat {
    if es == [] then 0 else Works(es[..|es| - 1]) + if es[|es| - 1].Work? then 1 else 0
  }

  /** A bound on the worker's steps once it is told to stop. */
  ghost function StepsToStop(s: State): nat {
    match s.worker
    case Polling => if s.batch == [] then 2 else 5
    case Deciding => if s.batch == [] then 5 else 8
    case Encoding(last) => if last then 4 else 7
    case Sending(attempt, last) => (if last then 2 else 5) + if attempt == 0 then 1 else 0
    case Checking => if s.batch == [] then 4 else 6
    case Marking(last) => if last then 1 else if s.batch == [] then 3 else 6
    case Stopped => 0
  }

  lemma StopStep(c: Config, s: State, e: Event)
    requires s.stopping && Enabled(s, e)
    ensures var t := Apply(c, s, e);
      && t.stopping
      && StepsToStop(t) <= StepsToStop(s)
      && (e.Work? && StepsToStop(s) > 0 ==> StepsToStop(t) < StepsToStop(s))
  {
    hide SpanSum, SendStep, AdvanceStep;
    match e
    case Submit(_) =>
    case Advance(p) => AdvanceSameWorker(c, s, p);
    case Work(luck) => if s.worker.Sending? { SendEnds(c, s, s.worker.attempt, s.worker.last, luck); }
    case Shutdown =>
  }

  lemma {:induction false} StopsAfter(c: Config, s: State, es: seq<Event>)
    requires s.stopping && Feasible(c, s, es)
    ensures After(c, s, es).stopping && StepsToStop(After(c, s, es)) <= Max(0, StepsToStop(s) - Works(es))
  {
    if es != [] {
      hide Apply, Enabled, StepsToStop;
      var prefix, e := es[..|es| - 1], es[|es| - 1];
      assert Works(es) == Works(prefix) + if e.Work? then 1 else 0;
      assert After(c, s, es) == Apply(c, After(c, s, prefix), e);
      StopsAfter(c, s, prefix);
      hide *;
      StopStep(c, After(c, s, prefix), e);
    }
  }

  /** Told to stop in any state, in any schedule, whatever the network does: eight steps later the worker has ended. */
  lemma {:induction false} ShutdownEnds(c: Config, s: State, es: seq<Event>)
    requires s.stopping && Feasible(c, s, es) && Works(es) >= 8
    ensures After(c, s, es).worker.Stopped?
  {
    hide Feasible, After, Works;
    StopsAfter(c, s, es);
  }
}
