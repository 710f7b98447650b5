/**
 The exporter's bounded buffer: any number of producers, one batching worker
 (packages/python-sdk/src/proofstep/exporter.py). One step is one operation on the queue, on an
 event flag or on a counter; everything interleaves.
 */
module Exporter {
  import opened Common

  datatype Trace = Trace(id: string, spans: nat)

  /** A trace with its place in the order of enqueueing. */
  datatype Item = Item(ticket: nat, trace: Trace)

  datatype Config = Config(maxBufferedSpans: nat, batchSize: nat, maxRetries: int, spools: bool)

  /** Queue length in traces. */
  function Capacity(c: Config): nat {
    Max(16, c.maxBufferedSpans / 20)
  }

  /** Where a call to submit stands. */
  datatype Producer =
    | Clearing(trace: Trace)
    | Offering(trace: Trace)
    | Evicting(trace: Trace)
    | Counting(trace: Trace, victim: Item)
    | Reoffering(trace: Trace)
    | Refused(trace: Trace)
    | Returned

  /** Where the worker stands; `last` marks the send after the loop. */
  datatype Worker =
    | Polling
    | Deciding
    | Encoding(last: bool)
    | Sending(attempt: nat, last: bool)
    | Checking
    | Marking(last: bool)
    | Stopped

  datatype Stats = Stats(exportedTraces: nat, exportedSpans: nat, droppedTraces: nat, failures: nat, spooled: nat)

  /** `enqueued`, `submitted`, `posted`, `spooled`, `lost` and `dropped` are history. */
  datatype State = State(
    queue: seq<Item>,
    producers: seq<Producer>,
    worker: Worker,
    batch: seq<Item>,
    idle: bool,
    stopping: bool,
    stats: Stats,
    submitted: seq<Trace>,
    enqueued: seq<Trace>,
    posted: seq<Item>,
    spooled: seq<Item>,
    lost: seq<Item>,
    dropped: seq<Trace>)

  /** What the worker cannot know beforehand: the clock, the encoder, the network, the disk. */
  datatype Luck = Luck(due: bool, encodes: bool, delivered: bool, spoolWorks: bool)

  datatype Event = Submit(trace: Trace) | Advance(p: nat) | Work(luck: Luck) | Shutdown

  // ----------------------------------------------------------------- the producers

  function Put(s: State, t: Trace): State {
    s.(queue := s.queue + [Item(|s.enqueued|, t)], enqueued := s.enqueued + [t])
  }

  /** One operation of a call to submit. */
  function AdvanceStep(c: Config, s: State, p: nat): State
    requires p < |s.producers|
  {
    match s.producers[p]
    case Clearing(t) => s.(idle := false, producers := s.producers[p := Offering(t)])
    case Offering(t) =>
      if |s.queue| < Capacity(c) then Put(s, t).(producers := s.producers[p := Returned])
      else s.(producers := s.producers[p := Evicting(t)])
    case Evicting(t) =>
      if s.queue == [] then s.(producers := s.producers[p := Refused(t)])
      else s.(queue := s.queue[1..], producers := s.producers[p := Counting(t, s.queue[0])])
    case Counting(t, victim) =>
      CountDrop(s, victim.trace).(producers := s.producers[p := Reoffering(t)])
    case Reoffering(t) =>
      if |s.queue| < Capacity(c) then Put(s, t).(producers := s.producers[p := Returned])
      else s.(producers := s.producers[p := Refused(t)])
    case Refused(t) => CountDrop(s, t).(producers := s.producers[p := Returned])
    case Returned => s
  }

  function CountDrop(s: State, t: Trace): State {
    s.(dropped := s.dropped + [t], stats := s.stats.(droppedTraces := s.stats.droppedTraces + 1))
  }

  // ----------------------------------------------------------------- the worker

  function SpanSum(items: seq<Item>): nat {
    if items == [] then 0 else SpanSum(items[..|items| - 1]) + items[|items| - 1].trace.spans
  }

  function Resume(last: bool): Worker {
    if last then Marking(true) else Checking
  }

  function Lose(s: State, last: bool): State {
    s.(lost := s.lost + s.batch, batch := [], worker := Resume(last))
  }

  function Deliver(s: State, last: bool): State {
    s.(posted := s.posted + s.batch, batch := [], worker := Resume(last),
       stats := s.stats.(exportedTraces := s.stats.exportedTraces + |s.batch|,
                         exportedSpans := s.stats.exportedSpans + SpanSum(s.batch)))
  }

  function Spool(s: State, last: bool): State {
    s.(spooled := s.spooled + s.batch, batch := [], worker := Resume(last),
       stats := s.stats.(spooled := s.stats.spooled + 1))
  }

  /** One attempt to post the batch; the last failure spools it where there is somewhere to spool. */
  function SendStep(c: Config, s: State, attempt: nat, last: bool, luck: Luck): State {
    if attempt >= c.maxRetries || (s.stopping && attempt > 0) then
      Lose(s, last)
    else if luck.delivered then
      Deliver(s, last)
    else
      var failed := s.(stats := s.stats.(failures := s.stats.failures + 1));
      if attempt < c.maxRetries - 1 then
        failed.(worker := Sending(attempt + 1, last))
      else if c.spools && luck.spoolWorks then
        Spool(failed, last)
      else
        Lose(failed, last)
  }

  function WorkStep(c: Config, s: State, luck: Luck): State {
    match s.worker
    case Polling =>
      if s.stopping then s.(worker := if s.batch == [] then Marking(true) else Encoding(true))
      else if s.queue == [] then s.(worker := Deciding)
      else s.(queue := s.queue[1..], batch := s.batch + [s.queue[0]], worker := Deciding)
    case Deciding =>
      if s.batch != [] && (luck.due || SpanSum(s.batch) >= c.batchSize) then s.(worker := Encoding(false))
      else s.(worker := Checking)
    case Encoding(last) =>
      if luck.encodes then s.(worker := Sending(0, last)) else Lose(s, last)
    case Sending(attempt, last) => SendStep(c, s, attempt, last, luck)
    case Checking => s.(worker := if s.batch == [] && s.queue == [] then Marking(false) else Polling)
    case Marking(last) => s.(idle := true, worker := if last then Stopped else Polling)
    case Stopped => s
  }

  // ----------------------------------------------------------------- schedules

  predicate Enabled(s: State, e: Event) {
    e.Advance? ==> e.p < |s.producers|
  }

  function Apply(c: Config, s: State, e: Event): State
    requires Enabled(s, e)
  {
    match e
    case Submit(t) => s.(submitted := s.submitted + [t], producers := s.producers + [Clearing(t)])
    case Advance(p) => AdvanceStep(c, s, p)
    case Work(luck) => WorkStep(c, s, luck)
    case Shutdown => s.(stopping := true)
  }

  function Init(): State {
    State([], [], Polling, [], true, false, Stats(0, 0, 0, 0, 0), [], [], [], [], [], [])
  }

  ghost predicate Feasible(c: Config, s: State, es: seq<Event>)
    decreases |es|, 0
  {
    es == [] || (Feasible(c, s, es[..|es| - 1]) && Enabled(After(c, s, es[..|es| - 1]), es[|es| - 1]))
  }

  ghost function After(c: Config, s: State, es: seq<Event>): State
    requires Feasible(c, s, es)
    decreases |es|, 1
  {
    if es == [] then s else Apply(c, After(c, s, es[..|es| - 1]), es[|es| - 1])
  }

  // ----------------------------------------------------------------- conservation

  /** How many of the items carry that trace. */
  ghost function Count(items: seq<Item>, t: Trace): nat {
    if items == [] then 0 else Count(items[..|items| - 1], t) + if items[|items| - 1].trace == t then 1 else 0
  }

  lemma {:induction false} CountAppend(a: seq<Item>, b: seq<Item>, t: Trace)
    ensures Count(a + b, t) == Count(a, t) + Count(b, t)
  {
    if b == [] {
      assert a + b == a;
    } else {
      CountAppend(a, b[..|b| - 1], t);
      assert (a + b)[..|a + b| - 1] == a + b[..|b| - 1];
    }
  }

  lemma CountHead(items: seq<Item>, t: Trace)
    requires items != []
    ensures Count(items, t) == Count(items[1..], t) + if items[0].trace == t then 1 else 0
  {
    assert items == [items[0]] + items[1..];
    CountAppend([items[0]], items[1..], t);
    assert [items[0]][..0] == [];
  }

  lemma CountLast(items: seq<Item>, x: Item, t: Trace)
    ensures Count(items + [x], t) == Count(items, t) + if x.trace == t then 1 else 0
  {
    assert (items + [x])[..|items|] == items;
  }

  /** How often a call to submit still answers for that trace. */
  ghost function HeldBy(p: Producer, t: Trace): nat {
    match p
    case Counting(own, victim) => (if own == t then 1 else 0) + if victim.trace == t then 1 else 0
    case Returned => 0
    case _ => if p.trace == t then 1 else 0
  }

  ghost function Held(ps: seq<Producer>, t: Trace): nat {
    if ps == [] then 0 else Held(ps[..|ps| - 1], t) + HeldBy(ps[|ps| - 1], t)
  }

  lemma {:induction false} HeldUpdate(ps: seq<Producer>, i: nat, p: Producer, t: Trace)
    requires i < |ps|
    ensures Held(ps[i := p], t) + HeldBy(ps[i], t) == Held(ps, t) + HeldBy(p, t)
  {
    hide HeldBy;
    var last := |ps| - 1;
    if i < last {
      assert ps[i := p][..last] == ps[..last][i := p];
      HeldUpdate(ps[..last], i, p, t);
    } else {
      assert ps[i := p][..last] == ps[..last];
    }
  }

  /** How often a trace is in hand, queued, batched, posted, spooled, lost or counted as dropped. */
  ghost function Places(s: State, t: Trace): nat {
    Held(s.producers, t) + Count(s.queue, t) + Count(s.batch, t)
    + Count(s.posted, t) + Count(s.spooled, t) + Count(s.lost, t) + multiset(s.dropped)[t]
  }

  /** Every submitted trace is in exactly one place. */
  ghost predicate Conserved(s: State) {
    forall t :: Places(s, t) == multiset(s.submitted)[t]
  }

  function Bit(b: bool): nat {
    if b then 1 else 0
  }

  lemma HandPlaces(s: State, p: nat, q: Producer, t: Trace)
    requires p < |s.producers|
    ensures Places(s.(producers := s.producers[p := q]), t) + HeldBy(s.producers[p], t) == Places(s, t) + HeldBy(q, t)
  {
    hide HeldBy;
    HeldUpdate(s.producers, p, q, t);
  }

  lemma PutPlaces(s: State, own: Trace, t: Trace)
    ensures Places(Put(s, own), t) == Places(s, t) + Bit(own == t)
  {
    CountLast(s.queue, Item(|s.enqueued|, own), t);
  }

  lemma DropPlaces(s: State, own: Trace, t: Trace)
    ensures Places(CountDrop(s, own), t) == Places(s, t) + Bit(own == t)
  {
  }

  lemma TakePlaces(s: State, t: Trace)
    requires s.queue != []
    ensures Places(s.(queue := s.queue[1..]), t) + Bit(s.queue[0].trace == t) == Places(s, t)
  {
    CountHead(s.queue, t);
  }

  /** What one producer step moves. */
  lemma AdvanceKeepsPlaces(c: Config, s: State, p: nat, t: Trace)
    requires p < |s.producers|
    ensures Places(AdvanceStep(c, s, p), t) == Places(s, t)
  {
    hide Places, Put, CountDrop, Capacity;
    match s.producers[p]
    case Clearing(own) =>
      FlagPlaces(s, t);
      HandPlaces(s.(idle := false), p, Offering(own), t);
    case Offering(own) => OfferPlaces(s, p, own, Evicting(own), t);
    case Evicting(own) =>
      if s.queue == [] {
        HandPlaces(s, p, Refused(own), t);
      } else {
        TakePlaces(s, t);
        HandPlaces(s.(queue := s.queue[1..]), p, Counting(own, s.queue[0]), t);
      }
    case Counting(own, victim) =>
      DropPlaces(s, victim.trace, t);
      DropKeepsProducers(s, victim.trace);
      HandPlaces(CountDrop(s, victim.trace), p, Reoffering(own), t);
    case Reoffering(own) => OfferPlaces(s, p, own, Refused(own), t);
    case Refused(own) =>
      DropPlaces(s, own, t);
      DropKeepsProducers(s, own);
      HandPlaces(CountDrop(s, own), p, Returned, t);
    case Returned =>
  }

  lemma OfferPlaces(s: State, p: nat, own: Trace, otherwise: Producer, t: Trace)
    requires p < |s.producers| && HeldBy(s.producers[p], t) == HeldBy(otherwise, t) == Bit(own == t)
    ensures Places(Put(s, own).(producers := s.producers[p := Returned]), t) == Places(s, t)
    ensures Places(s.(producers := s.producers[p := otherwise]), t) == Places(s, t)
  {
    hide Places;
    PutPlaces(s, own, t);
    HandPlaces(Put(s, own), p, Returned, t);
    HandPlaces(s, p, otherwise, t);
  }

  lemma FlagPlaces(s: State, t: Trace)
    ensures Places(s.(idle := false), t) == Places(s, t)
  {
  }

  lemma DropKeepsProducers(s: State, own: Trace)
    ensures CountDrop(s, own).producers == s.producers
  {
  }

  /** Wherever the batch goes, it goes there whole. */
  lemma SettlingKeepsPlaces(s: State, last: bool, t: Trace)
    ensures Places(Lose(s, last), t) == Places(s, t)
    ensures Places(Deliver(s, last), t) == Places(s, t)
    ensures Places(Spool(s, last), t) == Places(s, t)
  {
    hide Count, Held, SpanSum;
    SettledBatch(s, t);
  }

  lemma SendKeepsPlaces(c: Config, s: State, attempt: nat, last: bool, luck: Luck, t: Trace)
    ensures Places(SendStep(c, s, attempt, last, luck), t) == Places(s, t)
  {
    hide Count, Held, Lose, Deliver, Spool;
    SettlingKeepsPlaces(s, last, t);
    SettlingKeepsPlaces(s.(stats := s.stats.(failures := s.stats.failures + 1)), last, t);
  }

  /** What one worker step moves. */
  lemma WorkKeepsPlaces(c: Config, s: State, luck: Luck, t: Trace)
    ensures Places(WorkStep(c, s, luck), t) == Places(s, t)
  {
    hide Count, Held, SpanSum, SendStep;
    match s.worker
    case Polling =>
      if !s.stopping && s.queue != [] {
        CountHead(s.queue, t);
        CountLast(s.batch, s.queue[0], t);
      }
    case Encoding(_) => SettledBatch(s, t);
    case Sending(attempt, last) => SendKeepsPlaces(c, s, attempt, last, luck, t);
    case _ =>
  }

  lemma SettledBatch(s: State, t: Trace)
    ensures Count(s.posted + s.batch, t) == Count(s.posted, t) + Count(s.batch, t)
    ensures Count(s.spooled + s.batch, t) == Count(s.spooled, t) + Count(s.batch, t)
    ensures Count(s.lost + s.batch, t) == Count(s.lost, t) + Count(s.batch, t)
    ensures Count([], t) == 0
  {
    CountAppend(s.posted, s.batch, t);
    CountAppend(s.spooled, s.batch, t);
    CountAppend(s.lost, s.batch, t);
  }

  lemma StepConserves(c: Config, s: State, e: Event)
    requires Conserved(s) && Enabled(s, e)
    ensures Conserved(Apply(c, s, e))
  {
    forall t
      ensures Places(Apply(c, s, e), t) == multiset(Apply(c, s, e).submitted)[t]
    {
      StepConservesOne(c, s, e, t);
    }
  }

  lemma StepConservesOne(c: Config, s: State, e: Event, t: Trace)
    requires Conserved(s) && Enabled(s, e)
    ensures Places(Apply(c, s, e), t) == multiset(Apply(c, s, e).submitted)[t]
  {
    hide AdvanceStep, WorkStep, Count;
    assert Places(s, t) == multiset(s.submitted)[t];
    SubmittedStep(c, s, e);
    match e {
      case Submit(x) => assert (s.producers + [Clearing(x)])[..|s.producers|] == s.producers;
      case Advance(p) => AdvanceKeepsPlaces(c, s, p, t);
      case Work(luck) => WorkKeepsPlaces(c, s, luck, t);
      case Shutdown =>
    }
  }

  lemma SubmittedStep(c: Config, s: State, e: Event)
    requires Enabled(s, e)
    ensures Apply(c, s, e).submitted == if e.Submit? then s.submitted + [e.trace] else s.submitted
  {
    hide SpanSum, Capacity;
  }

  /** In every schedule each submitted trace is in exactly one place. */
  lemma {:induction false} NothingVanishes(c: Config, es: seq<Event>)
    requires Feasible(c, Init(), es)
    ensures Conserved(After(c, Init(), es))
  {
    hide Apply;
    if es != [] {
      var prefix := es[..|es| - 1];
      NothingVanishes(c, prefix);
      StepConserves(c, After(c, Init(), prefix), es[|es| - 1]);
    }
  }

  // ----------------------------------------------------------------- order and counters

  ghost predicate Ascending(xs: seq<Item>) {
    forall i, j :: 0 <= i < j < |xs| ==> xs[i].ticket < xs[j].ticket
  }

  ghost predicate Behind(xs: seq<Item>, ys: seq<Item>) {
    forall i, j :: 0 <= i < |xs| && 0 <= j < |ys| ==> xs[i].ticket < ys[j].ticket
  }

  /** The items were enqueued under their tickets, in this order, and all before `front`. */
  ghost predicate Filed(enqueued: seq<Trace>, front: int, xs: seq<Item>) {
    && Ascending(xs)
    && forall i ::
      0 <= i < |xs| ==> xs[i].ticket < front && xs[i].ticket < |enqueued| && enqueued[xs[i].ticket] == xs[i].trace
  }

  /** The tickets handed out and already taken off the queue. */
  function Front(s: State): int {
    |s.enqueued| - |s.queue|
  }

  /** The queue is the end of what was enqueued; what left it keeps that order. */
  ghost predicate Ordered(s: State) {
    && 0 <= Front(s)
    && (forall i :: 0 <= i < |s.queue| ==> s.queue[i] == Item(Front(s) + i, s.enqueued[Front(s) + i]))
    && Filed(s.enqueued, Front(s), s.batch)
    && Filed(s.enqueued, Front(s), s.posted) && Behind(s.posted, s.batch)
    && Filed(s.enqueued, Front(s), s.spooled) && Behind(s.spooled, s.batch)
    && Filed(s.enqueued, Front(s), s.lost) && Behind(s.lost, s.batch)
  }

  /** The counters tell the truth and the queue keeps its bound. */
  ghost predicate Tallied(c: Config, s: State) {
    && |s.queue| <= Max(16, c.maxBufferedSpans / 20)
    && s.stats.droppedTraces == |s.dropped|
    && s.stats.exportedTraces == |s.posted|
    && s.stats.exportedSpans == SpanSum(s.posted)
    && s.stats.spooled <= |s.spooled|
    && (s.worker.Encoding? || s.worker.Sending? ==> s.batch != [])
    && (s.worker.Checking? || s.worker.Marking? ==> s.worker == Checking || s.batch == [])
  }

  lemma FiledAppend(enqueued: seq<Trace>, front: int, xs: seq<Item>, ys: seq<Item>)
    requires Filed(enqueued, front, xs) && Filed(enqueued, front, ys) && Behind(xs, ys)
    ensures Filed(enqueued, front, xs + ys) && Behind(xs + ys, [])
  {
  }

  /** All a producer's step does to the shared queue: nothing, one put within the bound, or one removal. */
  ghost predicate QueueMoves(c: Config, s: State, t: State) {
    || (t.queue == s.queue && t.enqueued == s.enqueued)
    || (s.queue != [] && t.queue == s.queue[1..] && t.enqueued == s.enqueued)
    || (&& |s.queue| < Capacity(c) && |t.enqueued| == |s.enqueued| + 1
        && t.enqueued == s.enqueued + [t.enqueued[|s.enqueued|]]
        && t.queue == s.queue + [Item(|s.enqueued|, t.enqueued[|s.enqueued|])])
  }

  /** What a producer's step leaves alone. */
  predicate SameWorker(s: State, t: State) {
    && t.worker == s.worker && t.batch == s.batch && t.stopping == s.stopping
    && t.posted == s.posted && t.spooled == s.spooled && t.lost == s.lost
  }

  lemma AdvanceShape(c: Config, s: State, p: nat)
    requires p < |s.producers|
    ensures SameWorker(s, AdvanceStep(c, s, p)) && QueueMoves(c, s, AdvanceStep(c, s, p))
  {
    hide QueueMoves, SameWorker;
    AdvanceSameWorker(c, s, p);
    AdvanceQueue(c, s, p);
  }

  lemma PutKeepsWorker(s: State, p: Producer)
    ensures !p.Returned? ==> SameWorker(s, Put(s, p.trace)) && SameWorker(s, CountDrop(s, p.trace))
    ensures p.Counting? ==> SameWorker(s, CountDrop(s, p.victim.trace))
  {
  }

  lemma AdvanceSameWorker(c: Config, s: State, p: nat)
    requires p < |s.producers|
    ensures SameWorker(s, AdvanceStep(c, s, p))
  {
    hide Capacity, Put, CountDrop;
    PutKeepsWorker(s, s.producers[p]);
  }

  lemma AdvanceQueue(c: Config, s: State, p: nat)
    requires p < |s.producers|
    ensures QueueMoves(c, s, AdvanceStep(c, s, p))
  {
    hide Capacity;
  }

  lemma AdvanceOrdered(c: Config, s: State, p: nat)
    requires Ordered(s) && p < |s.producers|
    ensures Ordered(AdvanceStep(c, s, p))
  {
    hide AdvanceStep;
    AdvanceShape(c, s, p);
  }

  lemma TakeOrdered(s: State, w: Worker)
    requires Ordered(s) && s.queue != []
    ensures Ordered(s.(queue := s.queue[1..], batch := s.batch + [s.queue[0]], worker := w))
  {
    var x := s.queue[0];
    assert x == Item(Front(s), s.enqueued[Front(s)]);
  }

  lemma SettleOrdered(s: State, last: bool)
    requires Ordered(s)
    ensures Ordered(Lose(s, last)) && Ordered(Deliver(s, last)) && Ordered(Spool(s, last))
  {
    hide Filed, Behind, SpanSum;
    FiledAppend(s.enqueued, Front(s), s.posted, s.batch);
    FiledAppend(s.enqueued, Front(s), s.spooled, s.batch);
    FiledAppend(s.enqueued, Front(s), s.lost, s.batch);
    NothingBehind(s);
  }

  lemma NothingBehind(s: State)
    ensures Behind(s.posted, []) && Behind(s.spooled, []) && Behind(s.lost, []) && Filed(s.enqueued, Front(s), [])
  {
  }

  lemma SendOrdered(c: Config, s: State, attempt: nat, last: bool, luck: Luck)
    requires Ordered(s)
    ensures Ordered(SendStep(c, s, attempt, last, luck))
  {
    hide Filed, Behind, Lose, Deliver, Spool;
    SettleOrdered(s, last);
    SettleOrdered(s.(stats := s.stats.(failures := s.stats.failures + 1)), last);
  }

  lemma WorkOrdered(c: Config, s: State, luck: Luck)
    requires Ordered(s)
    ensures Ordered(WorkStep(c, s, luck))
  {
    hide Filed, Behind, SpanSum, SendStep;
    match s.worker
    case Polling =>
      if !s.stopping && s.queue != [] {
        TakeOrdered(s, Deciding);
      }
    case Encoding(last) => SettleOrdered(s, last);
    case Sending(attempt, last) => SendOrdered(c, s, attempt, last, luck);
    case _ =>
  }

  lemma StepOrdered(c: Config, s: State, e: Event)
    requires Ordered(s) && Enabled(s, e)
    ensures Ordered(Apply(c, s, e))
  {
    hide AdvanceStep, WorkStep;
    match e
    case Submit(_) =>
    case Advance(p) => AdvanceOrdered(c, s, p);
    case Work(luck) => WorkOrdered(c, s, luck);
    case Shutdown =>
  }

  lemma {:induction false} SpanSumAppend(a: seq<Item>, b: seq<Item>)
    ensures SpanSum(a + b) == SpanSum(a) + SpanSum(b)
  {
    if b == [] {
      assert a + b == a;
    } else {
      SpanSumAppend(a, b[..|b| - 1]);
      assert (a + b)[..|a + b| - 1] == a + b[..|b| - 1];
    }
  }

  lemma SendTallied(c: Config, s: State, attempt: nat, last: bool, luck: Luck)
    requires Tallied(c, s) && s.batch != []
    ensures Tallied(c, SendStep(c, s, attempt, last, luck))
  {
    hide SpanSum, Capacity;
    SpanSumAppend(s.posted, s.batch);
  }

  lemma WorkTallied(c: Config, s: State, luck: Luck)
    requires Tallied(c, s)
    ensures Tallied(c, WorkStep(c, s, luck))
  {
    hide SpanSum, Capacity, SendStep;
    if s.worker.Sending? { SendTallied(c, s, s.worker.attempt, s.worker.last, luck); }
  }

  lemma AdvanceTallied(c: Config, s: State, p: nat)
    requires Tallied(c, s) && p < |s.producers|
    ensures Tallied(c, AdvanceStep(c, s, p))
  {
    hide SpanSum, AdvanceStep;
    AdvanceShape(c, s, p);
    AdvanceCounts(c, s, p);
  }

  lemma AdvanceCounts(c: Config, s: State, p: nat)
    requires p < |s.producers|
    ensures var t := AdvanceStep(c, s, p);
      && |t.dropped| >= |s.dropped|
      && t.stats == s.stats.(droppedTraces := s.stats.droppedTraces + |t.dropped| - |s.dropped|)
  {
    hide Capacity;
  }

  lemma StepTallied(c: Config, s: State, e: Event)
    requires Tallied(c, s) && Enabled(s, e)
    ensures Tallied(c, Apply(c, s, e))
  {
    hide AdvanceStep, WorkStep, SpanSum;
    match e
    case Submit(_) =>
    case Advance(p) => AdvanceTallied(c, s, p);
    case Work(luck) => WorkTallied(c, s, luck);
    case Shutdown =>
  }

  /**
   In every schedule: posted traces are a subsequence of the enqueue order, the counters count, the
   queue is bounded.
   */
  lemma {:induction false} OrderAndCounters(c: Config, es: seq<Event>)
    requires Feasible(c, Init(), es)
    ensures Ordered(After(c, Init(), es)) && Tallied(c, After(c, Init(), es))
  {
    hide Apply, Ordered, Tallied;
    if es == [] {
      InitOrdered(c);
    } else {
      var prefix := es[..|es| - 1];
      OrderAndCounters(c, prefix);
      StepOrdered(c, After(c, Init(), prefix), es[|es| - 1]);
      StepTallied(c, After(c, Init(), prefix), es[|es| - 1]);
    }
  }

  lemma InitOrdered(c: Config)
    ensures Ordered(Init()) && Tallied(c, Init())
  {
  }

  /** An attempt to post that fails. */
  predicate FailsIn(c: Config, s: State, e: Event) {
    && e.Work? && s.worker.Sending? && !e.luck.delivered
    && s.worker.attempt < c.maxRetries && !(s.stopping && s.worker.attempt > 0)
  }

  /** The last attempt's failure, with a spool that takes the batch. */
  predicate SpoolsIn(c: Config, s: State, e: Event) {
    FailsIn(c, s, e) && s.worker.attempt == c.maxRetries - 1 && c.spools && e.luck.spoolWorks
  }

  /** How many events of a schedule are failed attempts. */
  ghost function FailedAttempts(c: Config, s: State, es: seq<Event>): nat
    requires Feasible(c, s, es)
  {
    if es == [] then 0
    else
      var prefix := es[..|es| - 1];
      FailedAttempts(c, s, prefix) + Bit(FailsIn(c, After(c, s, prefix), es[|es| - 1]))
  }

  /** How many batches a schedule spools. */
  ghost function SpooledBatches(c: Config, s: State, es: seq<Event>): nat
    requires Feasible(c, s, es)
  {
    if es == [] then 0
    else
      var prefix := es[..|es| - 1];
      SpooledBatches(c, s, prefix) + Bit(SpoolsIn(c, After(c, s, prefix), es[|es| - 1]))
  }

  lemma StepCounts(c: Config, s: State, e: Event)
    requires Enabled(s, e)
    ensures var t := Apply(c, s, e);
      && t.stats.failures == s.stats.failures + Bit(FailsIn(c, s, e))
      && t.stats.spooled == s.stats.spooled + Bit(SpoolsIn(c, s, e))
      && t.spooled == (if SpoolsIn(c, s, e) then s.spooled + s.batch else s.spooled)
  {
    hide SpanSum, Capacity, AdvanceStep, SendStep;
    match e
    case Submit(_) =>
    case Advance(p) =>
      AdvanceSameWorker(c, s, p);
      AdvanceCounts(c, s, p);
    case Work(luck) => if s.worker.Sending? { SendCounts(c, s, luck); }
    case Shutdown =>
  }

  lemma SendCounts(c: Config, s: State, luck: Luck)
    requires s.worker.Sending?
    ensures var t, e := SendStep(c, s, s.worker.attempt, s.worker.last, luck), Work(luck);
      && t.stats.failures == s.stats.failures + Bit(FailsIn(c, s, e))
      && t.stats.spooled == s.stats.spooled + Bit(SpoolsIn(c, s, e))
      && t.spooled == (if SpoolsIn(c, s, e) then s.spooled + s.batch else s.spooled)
  {
    hide SpanSum;
  }

  /** In every schedule the counters are the numbers of failed attempts and of spooled batches. */
  lemma {:induction false} CountersOfRuns(c: Config, es: seq<Event>)
    requires Feasible(c, Init(), es)
    ensures var s := After(c, Init(), es);
      s.stats.failures == FailedAttempts(c, Init(), es) && s.stats.spooled == SpooledBatches(c, Init(), es)
  {
    hide Apply, FailsIn, SpoolsIn;
    if es != [] {
      var prefix := es[..|es| - 1];
      CountersOfRuns(c, prefix);
      StepCounts(c, After(c, Init(), prefix), es[|es| - 1]);
    }
  }

  // ----------------------------------------------------------------- submit never waits

  /** An upper bound on the operations a call to submit has left. */
  function Remaining(p: Producer): nat {
    match p
    case Clearing(_) => 6
    case Offering(_) => 5
    case Evicting(_) => 4
    case Counting(_, _) => 3
    case Reoffering(_) => 2
    case Refused(_) => 1
    case Returned => 0
  }

  /** Whatever the others do, each operation of a call brings it nearer to its return. */
  lemma SubmitNeverWaits(c: Config, s: State, e: Event, p: nat)
    requires Enabled(s, e) && p < |s.producers|
    ensures p < |Apply(c, s, e).producers|
    ensures e == Advance(p) && !s.producers[p].Returned? ==>
        Remaining(Apply(c, s, e).producers[p]) < Remaining(s.producers[p])
    ensures e != Advance(p) ==> Apply(c, s, e).producers[p] == s.producers[p]
  {
    hide AdvanceStep, WorkStep;
    match e
    case Submit(_) =>
    case Advance(q) => AdvanceProducers(c, s, q);
    case Work(luck) => WorkProducers(c, s, luck);
    case Shutdown =>
  }

  lemma AdvanceProducers(c: Config, s: State, q: nat)
    requires q < |s.producers|
    ensures var t := AdvanceStep(c, s, q);
      && |t.producers| == |s.producers|
      && t.producers == s.producers[q := t.producers[q]]
      && (s.producers[q].Returned? || Remaining(t.producers[q]) < Remaining(s.producers[q]))
  {
    hide Capacity;
  }

  lemma WorkProducers(c: Config, s: State, luck: Luck)
    ensures WorkStep(c, s, luck).producers == s.producers
  {
    hide SpanSum;
  }

  // ----------------------------------------------------------------- nothing lost uncounted

  /** Everything the worker tries works out, except the network. */
  predicate Kind(e: Event) {
    !e.Shutdown? && (e.Work? ==> e.luck.encodes && e.luck.spoolWorks)
  }

  /** With a spool, at least one attempt, no refusal and no shutdown, every uncounted exit is closed. */
  lemma {:induction false} NothingLost(c: Config, es: seq<Event>)
    requires Feasible(c, Init(), es) && forall e :: e in es ==> Kind(e)
    requires c.spools && c.maxRetries > 0
    ensures After(c, Init(), es).lost == [] && !After(c, Init(), es).stopping
    ensures var w := After(c, Init(), es).worker; w.Sending? ==> w.attempt < c.maxRetries
  {
    if es != [] {
      var prefix, e := es[..|es| - 1], es[|es| - 1];
      assert e in es && forall x :: x in prefix ==> x in es;
      NothingLost(c, prefix);
      KindStep(c, After(c, Init(), prefix), e);
    }
  }

  lemma KindStep(c: Config, s: State, e: Event)
    requires Kind(e) && Enabled(s, e) && c.spools && c.maxRetries > 0
    requires s.lost == [] && !s.stopping && (s.worker.Sending? ==> s.worker.attempt < c.maxRetries)
    ensures var t := Apply(c, s, e);
      t.lost == [] && !t.stopping && (t.worker.Sending? ==> t.worker.attempt < c.maxRetries)
  {
    hide SpanSum, Capacity;
  }

  // ----------------------------------------------------------------- building schedules

  lemma Extend(c: Config, s: State, es: seq<Event>, e: Event)
    requires Feasible(c, s, es) && Enabled(After(c, s, es), e)
    ensures Feasible(c, s, es + [e]) && After(c, s, es + [e]) == Apply(c, After(c, s, es), e)
  {
    hide Apply, Enabled;
    assert (es + [e])[..|es|] == es;
  }

  lemma Nothing(c: Config, s: State)
    ensures Feasible(c, s, []) && After(c, s, []) == s
  {
  }
}
