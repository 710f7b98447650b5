/**
 The exporter as it runs: one method for each operation, updating its fields
 (packages/python-sdk/src/proofstep/exporter.py).
 */
module ExporterLoop {
  import opened Common
  import opened Exporter

  class Buffer {
    const config: Config
    var queue: seq<Item>
    var producers: seq<Producer>
    var worker: Worker
    var batch: seq<Item>
    var idle: bool
    var stopping: bool
    var stats: Stats
    ghost var submitted: seq<Trace>
    ghost var enqueued: seq<Trace>
    ghost var posted: seq<Item>
    ghost var spooled: seq<Item>
    ghost var lost: seq<Item>
    ghost var dropped: seq<Trace>
    var tickets: nat

    ghost function View(): State
      reads this
    {
      State(queue, producers, worker, batch, idle, stopping, stats, submitted, enqueued, posted, spooled, lost, dropped)
    }

    /** `tickets` numbers the puts. */
    ghost predicate Valid()
      reads this
    {
      tickets == |enqueued|
    }

    constructor (config: Config)
      ensures Valid() && View() == Init() && this.config == config
    {
      this.config := config;
      queue, producers, worker, batch := [], [], Polling, [];
      idle, stopping, stats := true, false, Stats(0, 0, 0, 0, 0);
      submitted, enqueued, posted, spooled, lost, dropped, tickets := [], [], [], [], [], [], 0;
    }

    method PutNowait(t: Trace) returns (full: bool)
      requires Valid()
      modifies this`queue, this`enqueued, this`tickets
      ensures Valid() && full == (|old(queue)| >= Capacity(config))
      ensures View() == if full then old(View()) else Put(old(View()), t)
    {
      full := |queue| >= Capacity(config);
      if !full {
        queue := queue + [Item(tickets, t)];
        enqueued := enqueued + [t];
        tickets := tickets + 1;
      }
    }

    method Drop(t: Trace)
      requires Valid()
      modifies this`dropped, this`stats
      ensures Valid() && View() == CountDrop(old(View()), t)
    {
      dropped := dropped + [t];
      stats := stats.(droppedTraces := stats.droppedTraces + 1);
    }

    /** A call to submit begins. */
    method Enter(t: Trace)
      requires Valid()
      modifies this`submitted, this`producers
      ensures Valid() && View() == Apply(config, old(View()), Event.Submit(t))
    {
      submitted := submitted + [t];
      producers := producers + [Clearing(t)];
    }

    /** A call to submit does its next operation. */
    method Advance(p: nat)
      requires Valid() && p < |producers|
      modifies this
      ensures Valid() && View() == AdvanceStep(config, old(View()), p)
    {
      match producers[p] {
        case Clearing(t) =>
          idle := false;
          producers := producers[p := Offering(t)];
        case Offering(t) =>
          var full := PutNowait(t);
          producers := producers[p := if full then Evicting(t) else Returned];
        case Evicting(t) =>
          if queue == [] {
            producers := producers[p := Refused(t)];
          } else {
            producers := producers[p := Counting(t, queue[0])];
            queue := queue[1..];
          }
        case Counting(t, victim) =>
          Drop(victim.trace);
          producers := producers[p := Reoffering(t)];
        case Reoffering(t) =>
          var full := PutNowait(t);
          producers := producers[p := if full then Refused(t) else Returned];
        case Refused(t) =>
          Drop(t);
          producers := producers[p := Returned];
        case Returned =>
      }
    }

    /** A call that nothing interrupts: the newest trace is queued, and only a full queue drops its oldest. */
    method Submit(t: Trace)
      requires Valid() && |queue| <= Max(16, config.maxBufferedSpans / 20)
      modifies this
      ensures Valid() && !idle && submitted == old(submitted) + [t]
      ensures |old(queue)| < Max(16, config.maxBufferedSpans / 20) ==>
        queue == old(queue) + [Item(old(tickets), t)] && stats == old(stats) && dropped == old(dropped)
      ensures |old(queue)| == Max(16, config.maxBufferedSpans / 20) ==>
        && queue == old(queue)[1..] + [Item(old(tickets), t)]
        && dropped == old(dropped) + [old(queue)[0].trace]
        && stats.droppedTraces == old(stats).droppedTraces + 1
      ensures batch == old(batch) && posted == old(posted) && spooled == old(spooled) && lost == old(lost)
    {
      Enter(t);
      var p := |producers| - 1;
      while !producers[p].Returned?
        invariant Valid() && p == |producers| - 1 && submitted == old(submitted) + [t]
        invariant batch == old(batch) && posted == old(posted) && spooled == old(spooled) && lost == old(lost)
        invariant !producers[p].Clearing? ==> !idle
        invariant match producers[p] {
          case Clearing(own) => own == t && Unsent(old(View()))
          case Offering(own) => own == t && Unsent(old(View()))
          case Evicting(own) => own == t && Unsent(old(View())) && |queue| == Capacity(config)
          case Counting(own, victim) =>
            && own == t && |old(queue)| == Capacity(config) && victim == old(queue)[0]
            && queue == old(queue)[1..] && dropped == old(dropped) && stats == old(stats) && tickets == old(tickets)
          case Reoffering(own) =>
            && own == t && |old(queue)| == Capacity(config)
            && queue == old(queue)[1..] && dropped == old(dropped) + [old(queue)[0].trace]
            && stats.droppedTraces == old(stats).droppedTraces + 1 && tickets == old(tickets)
          case Refused(_) => false
          case Returned =>
            if |old(queue)| < Capacity(config) then
              queue == old(queue) + [Item(old(tickets), t)] && stats == old(stats) && dropped == old(dropped)
            else
              && queue == old(queue)[1..] + [Item(old(tickets), t)]
              && dropped == old(dropped) + [old(queue)[0].trace]
              && stats.droppedTraces == old(stats).droppedTraces + 1
        }
        decreases Remaining(producers[p])
      {
        Advance(p);
      }
    }

    /** Queue, counters and tickets are as they were. */
    ghost predicate Unsent(before: State)
      reads this
    {
      queue == before.queue && stats == before.stats && dropped == before.dropped && tickets == |before.enqueued|
    }

    method Finish(last: bool)
      requires Valid()
      modifies this`batch, this`worker
      ensures Valid() && View() == old(View()).(batch := [], worker := Resume(last))
    {
      batch := [];
      worker := if last then Marking(true) else Checking;
    }

    method SpanCount() returns (spans: nat)
      ensures spans == SpanSum(batch)
    {
      spans := 0;
      for i := 0 to |batch|
        invariant spans == SpanSum(batch[..i])
      {
        assert batch[..i + 1][..i] == batch[..i];
        spans := spans + batch[i].trace.spans;
      }
      assert batch[..|batch|] == batch;
    }

    method Abandon(last: bool)
      requires Valid()
      modifies this`lost, this`batch, this`worker
      ensures Valid() && View() == Lose(old(View()), last)
    {
      lost := lost + batch;
      Finish(last);
    }

    method Deliver(last: bool)
      requires Valid()
      modifies this`posted, this`stats, this`batch, this`worker
      ensures Valid() && View() == Exporter.Deliver(old(View()), last)
    {
      var spans := SpanCount();
      stats := stats.(exportedTraces := stats.exportedTraces + |batch|, exportedSpans := stats.exportedSpans + spans);
      posted := posted + batch;
      Finish(last);
    }

    method Spool(last: bool)
      requires Valid()
      modifies this`spooled, this`stats, this`batch, this`worker
      ensures Valid() && View() == Exporter.Spool(old(View()), last)
    {
      stats := stats.(spooled := stats.spooled + 1);
      spooled := spooled + batch;
      Finish(last);
    }

    /** One attempt to post. */
    method Attempt(attempt: nat, last: bool, luck: Luck)
      requires Valid() && worker == Sending(attempt, last)
      modifies this
      ensures Valid() && View() == SendStep(config, old(View()), attempt, last, luck)
    {
      hide SpanSum, Lose, Exporter.Deliver, Exporter.Spool;
      if attempt >= config.maxRetries || (stopping && attempt > 0) {
        Abandon(last);
        return;
      }
      if luck.delivered {
        Deliver(last);
        return;
      }
      stats := stats.(failures := stats.failures + 1);
      if attempt < config.maxRetries - 1 {
        worker := Sending(attempt + 1, last);
        return;
      }
      if config.spools && luck.spoolWorks {
        Spool(last);
      } else {
        Abandon(last);
      }
    }

    /** The worker does its next operation. */
    method Work(luck: Luck)
      requires Valid()
      modifies this
      ensures Valid() && View() == WorkStep(config, old(View()), luck)
    {
      hide SpanSum, SendStep;
      match worker {
        case Polling =>
          if stopping {
            worker := if batch == [] then Marking(true) else Encoding(true);
          } else {
            if queue != [] {
              batch := batch + [queue[0]];
              queue := queue[1..];
            }
            worker := Deciding;
          }
        case Deciding =>
          var spans := SpanCount();
          worker := if batch != [] && (luck.due || spans >= config.batchSize) then Encoding(false) else Checking;
        case Encoding(last) =>
          if luck.encodes {
            worker := Sending(0, last);
          } else {
            Abandon(last);
          }
        case Sending(attempt, last) =>
          Attempt(attempt, last, luck);
        case Checking =>
          worker := if batch == [] && queue == [] then Marking(false) else Polling;
        case Marking(last) =>
          idle := true;
          worker := if last then Stopped else Polling;
        case Stopped =>
      }
    }

    /**
     The batch is settled within its attempts; where it ends up follows from the first attempt that
     succeeds and from when shutdown arrives: `stops(k)` says whether it does just before attempt k.
     */
    method SendBatch(last: bool, lucks: nat -> Luck, stops: nat -> bool)
      requires Valid() && worker == Sending(0, last)
      modifies this
      ensures Valid() && batch == [] && worker == Resume(last)
      ensures queue == old(queue) && dropped == old(dropped) && (old(stopping) ==> stopping)
      ensures Delivers(config, old(stopping), lucks, stops) ==>
        posted == old(posted) + old(batch) && spooled == old(spooled) && lost == old(lost)
      ensures !Delivers(config, old(stopping), lucks, stops) && Spools(config, old(stopping), lucks, stops) ==>
        posted == old(posted) && spooled == old(spooled) + old(batch) && lost == old(lost)
      ensures !Delivers(config, old(stopping), lucks, stops) && !Spools(config, old(stopping), lucks, stops) ==>
        posted == old(posted) && spooled == old(spooled) && lost == old(lost) + old(batch)
    {
      hide SendStep, Delivers, Spools, StoppedBy, NoneDelivered;
      var attempt := 0;
      ghost var before := View();
      NoneYet(lucks);
      while worker.Sending?
        invariant Valid() && 0 <= attempt <= Max(0, config.maxRetries)
        invariant queue == before.queue && dropped == before.dropped && (before.stopping ==> stopping)
        invariant worker.Sending? ==>
          && worker == Sending(attempt, last) && batch == before.batch
          && posted == before.posted && spooled == before.spooled && lost == before.lost
          && (attempt > 0 ==> attempt < config.maxRetries)
          && stopping == (if attempt == 0 then before.stopping else StoppedBy(before.stopping, stops, attempt - 1))
          && NoneDelivered(lucks, attempt)
        invariant !worker.Sending? ==> worker == Resume(last) && batch == [] && Fate(before, lucks, stops)
        decreases if worker.Sending? then 1 + Max(0, config.maxRetries) - attempt else 0
      {
        if stops(attempt) { stopping := true; }
        StoppedStep(before.stopping, stops, attempt);
        Settles(config, before.stopping, lucks, stops, attempt);
        SendMoves(config, View(), attempt, last, lucks(attempt));
        Attempt(attempt, last, lucks(attempt));
        if worker.Sending? {
          NextDelivered(lucks, attempt);
          attempt := attempt + 1;
        }
      }
    }

    /** Where the batch of `before` has gone. */
    ghost predicate Fate(before: State, lucks: nat -> Luck, stops: nat -> bool)
      reads this
    {
      && posted == before.posted + (if Delivers(config, before.stopping, lucks, stops) then before.batch else [])
      && spooled == before.spooled + (
        if !Delivers(config, before.stopping, lucks, stops) && Spools(config, before.stopping, lucks, stops)
        then before.batch else [])
      && lost == before.lost + (
        if !Delivers(config, before.stopping, lucks, stops) && !Spools(config, before.stopping, lucks, stops)
        then before.batch else [])
    }
  }

  /** Shutdown has arrived by attempt k. */
  predicate StoppedBy(stopping: bool, stops: nat -> bool, k: nat) {
    stops(k) || if k == 0 then stopping else StoppedBy(stopping, stops, k - 1)
  }

  /** The worker gets to make attempt k, were all before it to fail: shutdown cuts off every attempt but the first. */
  predicate Reached(c: Config, stopping: bool, stops: nat -> bool, k: nat) {
    k < c.maxRetries && (k > 0 ==> !StoppedBy(stopping, stops, k))
  }

  /** Some attempt the worker gets to make succeeds. */
  ghost predicate Delivers(c: Config, stopping: bool, lucks: nat -> Luck, stops: nat -> bool) {
    exists k: nat :: Reached(c, stopping, stops, k) && lucks(k).delivered
  }

  /** The last attempt is reached and its failure is spooled. */
  ghost predicate Spools(c: Config, stopping: bool, lucks: nat -> Luck, stops: nat -> bool) {
    && c.maxRetries > 0 && Reached(c, stopping, stops, c.maxRetries - 1)
    && c.spools && lucks(c.maxRetries - 1).spoolWorks
  }

  ghost predicate NoneDelivered(lucks: nat -> Luck, k: nat) {
    forall j: nat :: j < k ==> !lucks(j).delivered
  }

  lemma StoppedStep(stopping: bool, stops: nat -> bool, k: nat)
    ensures StoppedBy(stopping, stops, k) ==
        (stops(k) || if k == 0 then stopping else StoppedBy(stopping, stops, k - 1))
  {
  }

  /** Where one attempt leaves the batch. */
  lemma SendMoves(c: Config, s: State, k: nat, last: bool, luck: Luck)
    requires s.worker == Sending(k, last)
    ensures var t, open := SendStep(c, s, k, last, luck), k < c.maxRetries && !(s.stopping && k > 0);
      var again := open && !luck.delivered && k < c.maxRetries - 1;
      var spools := open && !luck.delivered && !again && c.spools && luck.spoolWorks;
      && t.queue == s.queue && t.dropped == s.dropped && t.stopping == s.stopping && t.enqueued == s.enqueued
      && t.worker == (if again then Sending(k + 1, last) else Resume(last))
      && t.batch == (if again then s.batch else [])
      && t.posted == (if open && luck.delivered then s.posted + s.batch else s.posted)
      && t.spooled == (if spools then s.spooled + s.batch else s.spooled)
      && t.lost == (if again || spools || (open && luck.delivered) then s.lost else s.lost + s.batch)
  {
    hide SpanSum;
  }

  lemma NoneYet(lucks: nat -> Luck)
    ensures NoneDelivered(lucks, 0)
  {
  }

  lemma NextDelivered(lucks: nat -> Luck, k: nat)
    requires NoneDelivered(lucks, k) && !lucks(k).delivered
    ensures NoneDelivered(lucks, k + 1)
  {
  }

  lemma {:induction false} StoppedStays(stopping: bool, stops: nat -> bool, j: nat, k: nat)
    requires j <= k && StoppedBy(stopping, stops, j)
    ensures StoppedBy(stopping, stops, k)
  {
    if j < k { StoppedStays(stopping, stops, j, k - 1); }
  }

  /** How attempt k, after none before it succeeded, decides where the batch goes. */
  lemma Settles(c: Config, stopping: bool, lucks: nat -> Luck, stops: nat -> bool, k: nat)
    requires NoneDelivered(lucks, k) && (k > 0 ==> k < c.maxRetries)
    ensures var delivers, spools := Delivers(c, stopping, lucks, stops), Spools(c, stopping, lucks, stops);
      && (!Reached(c, stopping, stops, k) ==> !delivers && !spools)
      && (Reached(c, stopping, stops, k) && lucks(k).delivered ==> delivers)
      && (Reached(c, stopping, stops, k) && !lucks(k).delivered && k == c.maxRetries - 1 ==>
          !delivers && (spools <==> c.spools && lucks(k).spoolWorks))
  {
    hide StoppedBy;
    forall j: nat | Reached(c, stopping, stops, j) && k <= j
      ensures Reached(c, stopping, stops, k)
    {
      if k > 0 && StoppedBy(stopping, stops, k) { StoppedStays(stopping, stops, k, j); }
    }
  }
}
