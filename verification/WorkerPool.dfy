/**
 The worker pool of run_suite as a transition system (packages/evaluation-core/src/proofstep_core/runner.py).
 Cooperative scheduling makes two stretches atomic: taking an example together with the budget
 check, and committing its spend together with its journal entry. Everything else interleaves.
 */
module WorkerPool {
  import opened Common
  import opened Journal

  datatype Worker = Idle | Running(example: string) | Done

  datatype Config = Config(limit: Option<real>, journaling: bool)

  /** `refused` is history: examples taken off the queue by a worker the budget then stopped. */
  datatype State = State(
    queue: seq<string>,
    workers: seq<Worker>,
    produced: seq<ExampleResult>,
    aborted: bool,
    stop: bool,
    spent: real,
    journal: File,
    refused: seq<string>)

  predicate OverBudget(c: Config, spent: real) {
    c.limit.Some? && spent >= c.limit.value
  }

  datatype Event = Pull(w: nat) | Commit(w: nat, result: ExampleResult)

  predicate Enabled(s: State, e: Event) {
    && e.w < |s.workers|
    && match e
       case Pull(w) => s.workers[w].Idle?
       case Commit(w, r) => s.workers[w] == Running(r.id)
  }

  /** One turn of a worker's loop up to running its example, or the end of that worker. */
  function PullStep(c: Config, s: State, w: nat): State
    requires w < |s.workers|
  {
    if s.stop || s.queue == [] then
      s.(workers := s.workers[w := Done])
    else if OverBudget(c, s.spent) then
      s.(queue := s.queue[1..], workers := s.workers[w := Done], aborted := true, stop := true,
          refused := s.refused + [s.queue[0]])
    else
      s.(queue := s.queue[1..], workers := s.workers[w := Running(s.queue[0])])
  }

  /** The output and its scores are in: spend, journal, keep the result. */
  function CommitStep(c: Config, s: State, w: nat, r: ExampleResult): State
    requires w < |s.workers|
  {
    s.(workers := s.workers[w := Idle],
       spent := s.spent + r.Spend(),
       journal := if c.journaling then s.journal + Entry(r) else s.journal,
       produced := s.produced + [r])
  }

  function Apply(c: Config, s: State, e: Event): State
    requires e.w < |s.workers|
  {
    match e
    case Pull(w) => PullStep(c, s, w)
    case Commit(w, r) => CommitStep(c, s, w, r)
  }

  function Init(pending: seq<string>, workers: nat, file: File): State {
    State(pending, seq(workers, _ => Idle), [], false, false, 0.0, file, [])
  }

  // ----------------------------------------------------------------- schedules

  /** Every event is possible when its turn comes. */
  ghost predicate Feasible(c: Config, s: State, es: seq<Event>)
    decreases |es|, 0
  {
    es == [] || (Feasible(c, s, es[..|es| - 1]) && Enabled(After(c, s, es[..|es| - 1]), es[|es| - 1]))
  }

  ghost function After(c: Config, s: State, es: seq<Event>): State
    requires Feasible(c, s, es)
    decreases |es|, 1
  {
    if es == [] then s else Apply(c, After(c, s, es[..|es| - 1]), es[|es| - 1])
  }

  // ----------------------------------------------------------------- conservation

  function Ids(rs: seq<ExampleResult>): seq<string> {
    if rs == [] then [] else Ids(rs[..|rs| - 1]) + [rs[|rs| - 1].id]
  }

  ghost function One(w: Worker): multiset<string> {
    if w.Running? then multiset{w.example} else multiset{}
  }

  ghost function RunningIds(ws: seq<Worker>): multiset<string> {
    if ws == [] then multiset{} else RunningIds(ws[..|ws| - 1]) + One(ws[|ws| - 1])
  }

  lemma {:induction false} RunningUpdate(ws: seq<Worker>, i: nat, w: Worker)
    requires i < |ws|
    ensures RunningIds(ws[i := w]) + One(ws[i]) == RunningIds(ws) + One(w)
  {
    hide One;
    var last := |ws| - 1;
    var after := ws[i := w];
    assert RunningIds(after) == RunningIds(after[..last]) + One(after[last]);
    if i < last {
      assert after[..last] == ws[..last][i := w];
      RunningUpdate(ws[..last], i, w);
      assert RunningIds(after) + One(ws[i]) == RunningIds(ws[..last]) + One(w) + One(ws[last]);
    } else {
      assert after[..last] == ws[..last];
      assert RunningIds(after) == RunningIds(ws[..last]) + One(w);
    }
    assert RunningIds(ws) == RunningIds(ws[..last]) + One(ws[last]);
  }

  /** Where the examples are, queue and workers and results and refusals together. */
  ghost function Everywhere(s: State): multiset<string> {
    multiset(s.queue) + RunningIds(s.workers) + multiset(Ids(s.produced)) + multiset(s.refused)
  }

  /** Nothing is lost and nothing runs twice; only a budget stop refuses an example, and only one. */
  ghost predicate Inv(c: Config, pending: seq<string>, s: State) {
    && Everywhere(s) == multiset(pending)
    && |s.refused| == (if s.aborted then 1 else 0)
    && (s.stop <==> s.aborted)
    && (forall w :: 0 <= w < |s.workers| && s.workers[w].Done? ==> s.stop || s.queue == [])
  }

  lemma {:induction false} AllIdle(n: nat)
    ensures RunningIds(seq(n, _ => Idle)) == multiset{}
  {
    if n > 0 {
      assert seq(n, _ => Idle)[..n - 1] == seq(n - 1, _ => Idle);
      AllIdle(n - 1);
    }
  }

  lemma InitInv(c: Config, pending: seq<string>, workers: nat, file: File)
    ensures Inv(c, pending, Init(pending, workers, file))
  {
    AllIdle(workers);
  }

  lemma IdsAppend(rs: seq<ExampleResult>, r: ExampleResult)
    ensures Ids(rs + [r]) == Ids(rs) + [r.id]
  {
    assert (rs + [r])[..|rs|] == rs;
  }

  lemma EndingKeepsRunning(ws: seq<Worker>, w: nat)
    requires w < |ws| && ws[w].Idle?
    ensures RunningIds(ws[w := Done]) == RunningIds(ws)
  {
    hide RunningIds;
    RunningUpdate(ws, w, Done);
    var before, after := RunningIds(ws), RunningIds(ws[w := Done]);
    assert after == after + One(ws[w]);
    assert before == before + One(Done);
  }

  lemma PullKeepsEverything(c: Config, s: State, w: nat)
    requires w < |s.workers| && s.workers[w].Idle?
    ensures Everywhere(PullStep(c, s, w)) == Everywhere(s)
  {
    hide RunningIds, Ids, OverBudget;
    var t := PullStep(c, s, w);
    if s.stop || s.queue == [] {
      EndingKeepsRunning(s.workers, w);
    } else {
      var x := multiset{s.queue[0]};
      assert s.queue == [s.queue[0]] + s.queue[1..];
      assert multiset(s.queue) == x + multiset(t.queue);
      if OverBudget(c, s.spent) {
        EndingKeepsRunning(s.workers, w);
        assert multiset(t.refused) == multiset(s.refused) + x;
      } else {
        RunningUpdate(s.workers, w, Running(s.queue[0]));
        assert RunningIds(t.workers) == RunningIds(s.workers) + x;
      }
    }
  }

  lemma CommitKeepsEverything(c: Config, s: State, w: nat, r: ExampleResult)
    requires w < |s.workers| && s.workers[w] == Running(r.id)
    ensures Everywhere(CommitStep(c, s, w, r)) == Everywhere(s)
  {
    hide RunningIds, Ids;
    var t := CommitStep(c, s, w, r);
    RunningUpdate(s.workers, w, Idle);
    IdsAppend(s.produced, r);
    assert RunningIds(s.workers) == RunningIds(t.workers) + multiset{r.id};
    assert multiset(Ids(t.produced)) == multiset(Ids(s.produced)) + multiset{r.id};
  }

  lemma StepInv(c: Config, pending: seq<string>, s: State, e: Event)
    requires Inv(c, pending, s) && Enabled(s, e)
    ensures Inv(c, pending, Apply(c, s, e))
    ensures |Apply(c, s, e).workers| == |s.workers|
  {
    hide Everywhere;
    match e
    case Pull(w) => PullKeepsEverything(c, s, w);
    case Commit(w, r) => CommitKeepsEverything(c, s, w, r);
  }

  /** In every schedule: each pending example is waiting, running, done, or refused, exactly once. */
  lemma {:induction false} Conserved(c: Config, pending: seq<string>, workers: nat, file: File, es: seq<Event>)
    requires Feasible(c, Init(pending, workers, file), es)
    ensures Inv(c, pending, After(c, Init(pending, workers, file), es))
    ensures |After(c, Init(pending, workers, file), es).workers| == workers
  {
    hide Inv, Apply, Enabled;
    if es == [] {
      InitInv(c, pending, workers, file);
    } else {
      var prefix := es[..|es| - 1];
      Conserved(c, pending, workers, file, prefix);
      StepInv(c, pending, After(c, Init(pending, workers, file), prefix), es[|es| - 1]);
    }
  }

  ghost predicate Finished(s: State) {
    forall w :: 0 <= w < |s.workers| ==> s.workers[w].Done?
  }

  lemma {:induction false} NoneRunning(ws: seq<Worker>)
    requires forall w :: 0 <= w < |ws| ==> !ws[w].Running?
    ensures RunningIds(ws) == multiset{}
  {
    if ws != [] { NoneRunning(ws[..|ws| - 1]); }
  }

  /**
   When the pool is done: without an abort every pending example has one result, and with one at
   least one has none.
   */
  lemma FinishedRun(c: Config, pending: seq<string>, workers: nat, file: File, es: seq<Event>)
    requires workers > 0 && Feasible(c, Init(pending, workers, file), es)
    requires Finished(After(c, Init(pending, workers, file), es))
    ensures var s := After(c, Init(pending, workers, file), es);
      && (!s.aborted ==> multiset(Ids(s.produced)) == multiset(pending))
      && (s.aborted ==> |s.produced| < |pending|)
  {
    var s := After(c, Init(pending, workers, file), es);
    Conserved(c, pending, workers, file, es);
    NoneRunning(s.workers);
    IdsLength(s.produced);
    assert s.workers[0].Done?;
    if s.aborted {
      assert |multiset(pending)| == |multiset(s.queue)| + |multiset(Ids(s.produced))| + |multiset(s.refused)|;
    }
  }

  lemma {:induction false} IdsLength(rs: seq<ExampleResult>)
    ensures |Ids(rs)| == |rs|
  {
    if rs != [] { IdsLength(rs[..|rs| - 1]); }
  }

  /** Without a cap no schedule aborts. */
  lemma {:induction false} NoCapNoAbort(c: Config, s: State, es: seq<Event>)
    requires Feasible(c, s, es) && c.limit.None? && !s.aborted
    ensures !After(c, s, es).aborted
  {
    if es != [] { NoCapNoAbort(c, s, es[..|es| - 1]); }
  }

  /** In every schedule examples are taken in the order they were pending: what is left is the end of the list. */
  lemma {:induction false} TakenInOrder(c: Config, pending: seq<string>, workers: nat, file: File, es: seq<Event>)
    requires Feasible(c, Init(pending, workers, file), es)
    ensures var queue := After(c, Init(pending, workers, file), es).queue;
      |queue| <= |pending| && queue == pending[|pending| - |queue|..]
  {
    if es != [] {
      hide Apply, Enabled;
      var prefix := es[..|es| - 1];
      TakenInOrder(c, pending, workers, file, prefix);
      var s := After(c, Init(pending, workers, file), prefix);
      TakesFirst(c, s, es[|es| - 1]);
      hide *;
      if s.queue != [] { assert s.queue[1..] == pending[|pending| - |s.queue| + 1..]; }
    }
  }

  lemma TakesFirst(c: Config, s: State, e: Event)
    requires Enabled(s, e)
    ensures Apply(c, s, e).queue == s.queue || (s.queue != [] && Apply(c, s, e).queue == s.queue[1..])
  {
    hide OverBudget, Entry;
  }

  // ----------------------------------------------------------------- the spend cap

  /** The judge cost of the results that ran. */
  function TotalSpend(rs: seq<ExampleResult>): real {
    if rs == [] then 0.0
    else
      var r := rs[|rs| - 1];
      TotalSpend(rs[..|rs| - 1]) + if r.status == Ok then r.judgeCost else 0.0
  }

  /** In every schedule what is spent is exactly what the results so far cost. */
  lemma {:induction false} SpendIsCostOfResults(
    c: Config, pending: seq<string>, workers: nat, file: File, es: seq<Event>)
    requires Feasible(c, Init(pending, workers, file), es)
    ensures var s := After(c, Init(pending, workers, file), es); s.spent == TotalSpend(s.produced)
  {
    if es != [] {
      var prefix, e := es[..|es| - 1], es[|es| - 1];
      SpendIsCostOfResults(c, pending, workers, file, prefix);
      CostStep(c, After(c, Init(pending, workers, file), prefix), e);
      hide Apply, Enabled, Init, TotalSpend;
    }
  }

  lemma CostStep(c: Config, s: State, e: Event)
    requires Enabled(s, e) && s.spent == TotalSpend(s.produced)
    ensures Apply(c, s, e).spent == TotalSpend(Apply(c, s, e).produced)
  {
    if e.Commit? { assert (s.produced + [e.result])[..|s.produced|] == s.produced; }
  }

  /** One example costs between nothing and `most`. */
  ghost predicate CostsAtMost(es: seq<Event>, most: real) {
    forall e :: e in es && e.Commit? ==> 0.0 <= e.result.Spend() <= most
  }

  /** What the running workers may still spend. */
  ghost function Committed(ws: seq<Worker>, most: real): real {
    if ws == [] then 0.0
    else Committed(ws[..|ws| - 1], most) + if ws[|ws| - 1].Running? then most else 0.0
  }

  lemma {:induction false} CommittedUpdate(ws: seq<Worker>, i: nat, w: Worker, most: real)
    requires i < |ws|
    ensures Committed(ws[i := w], most)
         == Committed(ws, most) + (if w.Running? then most else 0.0) - (if ws[i].Running? then most else 0.0)
  {
    var last := |ws| - 1;
    if i < last {
      assert ws[i := w][..last] == ws[..last][i := w];
      CommittedUpdate(ws[..last], i, w, most);
    } else {
      assert ws[i := w][..last] == ws[..last];
    }
  }

  lemma {:induction false} CommittedBounds(ws: seq<Worker>, most: real)
    requires most >= 0.0
    ensures 0.0 <= Committed(ws, most) <= Allowance(|ws|, most)
  {
    if ws != [] {
      CommittedBounds(ws[..|ws| - 1], most);
      assert |ws| as real * most == (|ws| - 1) as real * most + most;
    }
  }

  /** One example's cost for each worker. */
  ghost function Allowance(workers: nat, most: real): real {
    workers as real * most
  }

  /** The cap, or nothing where the cap is below zero. */
  ghost function Cap(c: Config): real
    requires c.limit.Some?
  {
    MaxReal(0.0, c.limit.value)
  }

  /** What is spent and what running workers may yet spend stay within the cap and the allowance. */
  ghost predicate Afforded(c: Config, s: State, workers: nat, most: real)
    requires c.limit.Some?
  {
    0.0 <= s.spent && s.spent + Committed(s.workers, most) <= Cap(c) + Allowance(workers, most)
  }

  /** A worker that starts an example does so with the cap not yet reached. */
  lemma StartsUnderCap(c: Config, s: State, e: Event)
    requires Enabled(s, e) && c.limit.Some?
    requires Apply(c, s, e).workers[e.w].Running?
    ensures s.spent < c.limit.value && !s.stop
  {
  }

  /** In every schedule the spend stays afforded. */
  lemma {:induction false} SpendWithinCap(
    c: Config, pending: seq<string>, workers: nat, file: File, es: seq<Event>, most: real)
    requires Feasible(c, Init(pending, workers, file), es)
    requires c.limit.Some? && most >= 0.0 && CostsAtMost(es, most)
    ensures Afforded(c, After(c, Init(pending, workers, file), es), workers, most)
  {
    hide Afforded, Apply, CostsAtMost, Init, Inv;
    var s0 := Init(pending, workers, file);
    if es == [] {
      AffordedAtFirst(c, pending, workers, file, most);
    } else {
      var prefix, e := es[..|es| - 1], es[|es| - 1];
      CostsOfPrefix(es, most);
      SpendWithinCap(c, pending, workers, file, prefix, most);
      Conserved(c, pending, workers, file, prefix);
      SpendStep(c, After(c, s0, prefix), e, most);
    }
  }

  lemma CostsOfPrefix(es: seq<Event>, most: real)
    requires CostsAtMost(es, most) && es != []
    ensures CostsAtMost(es[..|es| - 1], most)
    ensures es[|es| - 1].Commit? ==> 0.0 <= es[|es| - 1].result.Spend() <= most
  {
    assert es[|es| - 1] in es;
  }

  lemma AffordedAtFirst(c: Config, pending: seq<string>, workers: nat, file: File, most: real)
    requires c.limit.Some? && most >= 0.0
    ensures Afforded(c, Init(pending, workers, file), workers, most)
  {
    var ws := Init(pending, workers, file).workers;
    CommittedBounds(ws, most);
  }

  lemma SpendStep(c: Config, s: State, e: Event, most: real)
    requires Enabled(s, e) && c.limit.Some? && most >= 0.0
    requires e.Commit? ==> 0.0 <= e.result.Spend() <= most
    requires Afforded(c, s, |s.workers|, most)
    ensures Afforded(c, Apply(c, s, e), |s.workers|, most)
  {
    hide Allowance, Committed;
    var t := Apply(c, s, e);
    CommittedUpdate(s.workers, e.w, t.workers[e.w], most);
    CommittedBounds(t.workers, most);
  }

  /** The overspend is at most one example's cost for each worker. */
  lemma OverspendBounded(c: Config, pending: seq<string>, workers: nat, file: File, es: seq<Event>, most: real)
    requires Feasible(c, Init(pending, workers, file), es)
    requires c.limit.Some? && most >= 0.0 && CostsAtMost(es, most)
    ensures After(c, Init(pending, workers, file), es).spent <= Cap(c) + Allowance(workers, most)
  {
    SpendWithinCap(c, pending, workers, file, es, most);
    CommittedBounds(After(c, Init(pending, workers, file), es).workers, most);
  }

  lemma {:induction false} NeverCheaper(c: Config, s: State, es: seq<Event>, i: nat)
    requires Feasible(c, s, es) && i <= |es|
    requires forall e :: e in es && e.Commit? ==> 0.0 <= e.result.Spend()
    ensures Feasible(c, s, es[..i])
    ensures After(c, s, es[..i]).spent <= After(c, s, es).spent
    decreases |es|
  {
    if i == |es| {
      assert es[..i] == es;
    } else {
      var prefix := es[..|es| - 1];
      NeverCheaper(c, s, prefix, i);
      assert prefix[..i] == es[..i];
      assert es[|es| - 1] in es;
    }
  }

  /** In every schedule, once the cap is reached no example starts again. */
  lemma NoStartOnceSpent(c: Config, s: State, es: seq<Event>, i: nat)
    requires Feasible(c, s, es) && i < |es| && c.limit.Some?
    requires forall e :: e in es && e.Commit? ==> 0.0 <= e.result.Spend()
    requires Feasible(c, s, es[..i]) && After(c, s, es[..i]).spent >= c.limit.value
    ensures !After(c, s, es).workers[es[|es| - 1].w].Running?
  {
    var prefix := es[..|es| - 1];
    assert forall e :: e in prefix ==> e in es;
    NeverCheaper(c, s, prefix, i);
    assert prefix[..i] == es[..i];
    var before, e := After(c, s, prefix), es[|es| - 1];
    if Apply(c, before, e).workers[e.w].Running? {
      StartsUnderCap(c, before, e);
    }
  }

  // ----------------------------------------------------------------- an abort means the cap was reached

  /** What may be said once a pool has aborted: the cap is reached. */
  ghost predicate CapReached(c: Config, s: State) {
    s.aborted ==> c.limit.Some? && c.limit.value <= s.spent
  }

  lemma CapStep(c: Config, s: State, e: Event)
    requires CapReached(c, s) && Enabled(s, e) && (e.Commit? ==> 0.0 <= e.result.Spend())
    ensures CapReached(c, Apply(c, s, e))
  {
  }

  /** In every schedule an abort comes only once the results so far cost the cap or more. */
  lemma {:induction false} AbortMeansSpent(
    c: Config, pending: seq<string>, workers: nat, file: File, es: seq<Event>)
    requires Feasible(c, Init(pending, workers, file), es)
    requires forall e :: e in es && e.Commit? ==> 0.0 <= e.result.judgeCost
    ensures var s := After(c, Init(pending, workers, file), es);
      s.aborted ==> c.limit.Some? && c.limit.value <= TotalSpend(s.produced)
  {
    CapHolds(c, pending, workers, file, es);
    SpendIsCostOfResults(c, pending, workers, file, es);
  }

  lemma {:induction false} CapHolds(c: Config, pending: seq<string>, workers: nat, file: File, es: seq<Event>)
    requires Feasible(c, Init(pending, workers, file), es)
    requires forall e :: e in es && e.Commit? ==> 0.0 <= e.result.judgeCost
    ensures CapReached(c, After(c, Init(pending, workers, file), es))
  {
    if es != [] {
      hide Apply, Enabled, CapReached;
      var prefix, e := es[..|es| - 1], es[|es| - 1];
      assert forall x :: x in prefix ==> x in es;
      assert e in es;
      CapHolds(c, pending, workers, file, prefix);
      CapStep(c, After(c, Init(pending, workers, file), prefix), e);
    }
  }

  // ----------------------------------------------------------------- termination

  ghost function WorkOf(w: Worker): nat {
    match w case Idle => 1 case Running(_) => 2 case Done => 0
  }

  ghost function Work(ws: seq<Worker>): nat {
    if ws == [] then 0 else Work(ws[..|ws| - 1]) + WorkOf(ws[|ws| - 1])
  }

  lemma {:induction false} WorkUpdate(ws: seq<Worker>, i: nat, w: Worker)
    requires i < |ws|
    ensures Work(ws[i := w]) + WorkOf(ws[i]) == Work(ws) + WorkOf(w)
  {
    var last := |ws| - 1;
    if i < last {
      assert ws[i := w][..last] == ws[..last][i := w];
      WorkUpdate(ws[..last], i, w);
    } else {
      assert ws[i := w][..last] == ws[..last];
    }
  }

  /** What is left to do. */
  ghost function Measure(s: State): nat {
    2 * |s.queue| + Work(s.workers)
  }

  lemma StepDecreases(c: Config, s: State, e: Event)
    requires Enabled(s, e)
    ensures Measure(Apply(c, s, e)) < Measure(s)
  {
    WorkUpdate(s.workers, e.w, Apply(c, s, e).workers[e.w]);
  }

  lemma {:induction false} WorkOfIdle(n: nat)
    ensures Work(seq(n, _ => Idle)) == n
  {
    if n > 0 {
      assert seq(n, _ => Idle)[..n - 1] == seq(n - 1, _ => Idle);
      WorkOfIdle(n - 1);
    }
  }

  /** No schedule goes on for ever, and none is stuck before every worker is done. */
  lemma {:induction false} SchedulesEnd(c: Config, pending: seq<string>, workers: nat, file: File, es: seq<Event>)
    requires Feasible(c, Init(pending, workers, file), es)
    ensures |es| + Measure(After(c, Init(pending, workers, file), es)) <= 2 * |pending| + workers
  {
    var s0 := Init(pending, workers, file);
    if es == [] {
      WorkOfIdle(workers);
    } else {
      var prefix := es[..|es| - 1];
      SchedulesEnd(c, pending, workers, file, prefix);
      StepDecreases(c, After(c, s0, prefix), es[|es| - 1]);
    }
  }

  lemma NotStuck(s: State, task: string -> ExampleResult)
    requires !Finished(s) && forall id :: task(id).id == id
    ensures exists e :: Enabled(s, e)
  {
    var w :| 0 <= w < |s.workers| && !s.workers[w].Done?;
    if s.workers[w].Idle? {
      assert Enabled(s, Pull(w));
    } else {
      assert Enabled(s, Commit(w, task(s.workers[w].example)));
    }
  }

  // ----------------------------------------------------------------- the pool as it runs

  class Pool {
    const config: Config
    var queue: seq<string>
    var workers: seq<Worker>
    var produced: seq<ExampleResult>
    var aborted: bool
    var stop: bool
    var spent: real
    var journal: File
    ghost var refused: seq<string>

    ghost function View(): State
      reads this
    {
      State(queue, workers, produced, aborted, stop, spent, journal, refused)
    }

    constructor (config: Config, pending: seq<string>, concurrency: int, file: File)
      ensures this.config == config
      ensures View() == Init(pending, Max(1, Min(concurrency, Max(1, |pending|))), file)
    {
      this.config := config;
      queue := pending;
      workers := seq(Max(1, Min(concurrency, Max(1, |pending|))), _ => Idle);
      produced, aborted, stop, spent, journal, refused := [], false, false, 0.0, file, [];
    }

    /** A worker takes its next example, or ends. */
    method Take(w: nat)
      requires w < |workers| && workers[w].Idle?
      modifies this
      ensures View() == PullStep(config, old(View()), w)
    {
      if stop {
        workers := workers[w := Done];
        return;
      }
      if queue == [] {
        workers := workers[w := Done];
        return;
      }
      var example := queue[0];
      queue := queue[1..];
      if OverBudget(config, spent) {
        aborted := true;
        stop := true;
        workers := workers[w := Done];
        refused := refused + [example];
        return;
      }
      workers := workers[w := Running(example)];
    }

    /** A worker's example is scored. */
    method Complete(w: nat, r: ExampleResult)
      requires w < |workers| && workers[w] == Running(r.id)
      modifies this
      ensures View() == CommitStep(config, old(View()), w, r)
    {
      if r.status.Ok? {
        spent := spent + r.judgeCost;
      }
      if config.journaling {
        journal := journal + [Record(r.Stripped()), Newline];
      }
      workers := workers[w := Idle];
      produced := produced + [r];
    }

    /**
     Runs to the end. Which worker moves next is left open at every turn, so what holds here holds
     for every interleaving; the events taken are returned as the schedule.
     */
    method Run(task: string -> ExampleResult, ghost start: State) returns (ghost es: seq<Event>)
      requires View() == start && forall id :: task(id).id == id
      modifies this
      ensures Feasible(config, start, es) && After(config, start, es) == View()
      ensures Finished(View())
      ensures forall e :: e in es && e.Commit? ==> e.result == task(e.result.id)
    {
      es := [];
      while exists w :: 0 <= w < |workers| && !workers[w].Done?
        invariant Feasible(config, start, es) && After(config, start, es) == View()
        invariant forall e :: e in es && e.Commit? ==> e.result == task(e.result.id)
        decreases Measure(View())
      {
        var w: int :| 0 <= w < |workers| && !workers[w].Done?;
        ghost var s := View();
        ghost var e: Event;
        if workers[w].Idle? {
          Take(w);
          e := Pull(w);
        } else {
          var r := task(workers[w].example);
          Complete(w, r);
          e := Commit(w, r);
        }
        StepDecreases(config, s, e);
        assert (es + [e])[..|es|] == es;
        es := es + [e];
      }
    }
  }
}
