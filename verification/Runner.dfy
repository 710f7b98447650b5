/**
 run_suite: resume, run the pool, put the results in dataset order
 (packages/evaluation-core/src/proofstep_core/runner.py).
 */
module Runner {
  import opened Common
  import opened Sorting
  import opened Labels
  import opened Journal
  import opened WorkerPool
  import opened Sessions

  // ----------------------------------------------------------------- dataset order

  /** The position of an example; ids the dataset does not know come last. */
  function Rank(dataset: seq<string>, id: string): (r: nat)
    ensures r <= |dataset|
    ensures r < |dataset| ==> dataset[r] == id
    ensures r == |dataset| <==> id !in dataset
  {
    if dataset == [] || dataset[0] == id then 0 else 1 + Rank(dataset[1..], id)
  }

  function InOrder(dataset: seq<string>): (ExampleResult, ExampleResult) -> bool {
    (a: ExampleResult, b: ExampleResult) => Rank(dataset, a.id) <= Rank(dataset, b.id)
  }

  /** Results for ids the dataset does not know. */
  function Foreign(dataset: seq<string>, rs: seq<ExampleResult>): seq<ExampleResult> {
    if rs == [] then []
    else (if rs[0].id in dataset then [] else [rs[0]]) + Foreign(dataset, rs[1..])
  }

  /** The result an example ends up with: the journalled one if there is one, else the newly computed one. */
  function Settled(completed: seq<ExampleResult>, task: string -> ExampleResult, id: string): ExampleResult {
    if completed == [] then task(id)
    else if completed[0].id == id then completed[0]
    else Settled(completed[1..], task, id)
  }

  function SettledAll(
    dataset: seq<string>, completed: seq<ExampleResult>, task: string -> ExampleResult): seq<ExampleResult> {
    seq(|dataset|, i requires 0 <= i < |dataset| => Settled(completed, task, dataset[i]))
  }

  /** The whole report: one result for each example, in dataset order, then what the journal had besides. */
  function Report(
    dataset: seq<string>, completed: seq<ExampleResult>, task: string -> ExampleResult): seq<ExampleResult> {
    SettledAll(dataset, completed, task) + Foreign(dataset, completed)
  }

  lemma {:induction false} SettledFacts(completed: seq<ExampleResult>, task: string -> ExampleResult, id: string)
    requires task(id).id == id
    ensures Settled(completed, task, id).id == id
    ensures Settled(completed, task, id) == task(id) || Settled(completed, task, id) in completed
    ensures HasResult(completed, id) ==> Settled(completed, task, id) in completed
    ensures !HasResult(completed, id) ==> Settled(completed, task, id) == task(id)
  {
    if completed != [] && completed[0].id != id {
      SettledFacts(completed[1..], task, id);
      assert completed == [completed[0]] + completed[1..];
    }
  }

  lemma {:induction false} ForeignMembers(dataset: seq<string>, rs: seq<ExampleResult>)
    ensures forall r :: r in Foreign(dataset, rs) <==> r in rs && r.id !in dataset
  {
    if rs != [] {
      ForeignMembers(dataset, rs[1..]);
      assert rs == [rs[0]] + rs[1..];
    }
  }

  lemma {:induction false} ForeignDistinct(dataset: seq<string>, rs: seq<ExampleResult>)
    requires DistinctResults(rs)
    ensures DistinctResults(Foreign(dataset, rs))
  {
    if rs != [] {
      ForeignDistinct(dataset, rs[1..]);
      ForeignMembers(dataset, rs[1..]);
      forall r | r in Foreign(dataset, rs[1..])
        ensures r.id != rs[0].id
      {
        var k :| 0 <= k < |rs[1..]| && rs[1..][k] == r;
        assert rs[k + 1] == r;
      }
    }
  }

  lemma {:induction false} ForeignExtremes(dataset: seq<string>, rs: seq<ExampleResult>)
    ensures (forall r :: r in rs ==> r.id in dataset) ==> Foreign(dataset, rs) == []
    ensures (forall r :: r in rs ==> r.id !in dataset) ==> Foreign(dataset, rs) == rs
  {
    if rs != [] {
      ForeignExtremes(dataset, rs[1..]);
      assert rs == [rs[0]] + rs[1..];
    }
  }

  lemma {:induction false} ForeignAppend(dataset: seq<string>, a: seq<ExampleResult>, b: seq<ExampleResult>)
    ensures Foreign(dataset, a + b) == Foreign(dataset, a) + Foreign(dataset, b)
  {
    if a == [] {
      assert a + b == b;
    } else {
      assert (a + b)[1..] == a[1..] + b;
      ForeignAppend(dataset, a[1..], b);
    }
  }

  // ----------------------------------------------------------------- what ties in dataset order

  lemma OrderIsTotal(dataset: seq<string>)
    ensures TotalPreorder(InOrder(dataset))
  {
  }

  lemma {:induction false} TiesOfForeign(dataset: seq<string>, s: seq<ExampleResult>, w: ExampleResult)
    requires w.id !in dataset
    ensures Ties(s, w, InOrder(dataset)) == Foreign(dataset, s)
  {
    if s != [] { TiesOfForeign(dataset, s[1..], w); }
  }

  lemma {:induction false} TiesOfOne(dataset: seq<string>, s: seq<ExampleResult>, w: ExampleResult, i: nat)
    requires w.id in dataset && DistinctResults(s)
    requires i < |s| && s[i].id == w.id
    ensures Ties(s, w, InOrder(dataset)) == [s[i]]
  {
    var rest := s[1..];
    if i == 0 {
      forall k | 0 <= k < |rest|
        ensures rest[k].id != w.id
      {
        assert rest[k] == s[k + 1];
      }
      TiesOfNone(dataset, rest, w);
    } else {
      assert s[0].id != s[i].id;
      TiesOfOne(dataset, rest, w, i - 1);
    }
  }

  lemma {:induction false} TiesOfNone(dataset: seq<string>, s: seq<ExampleResult>, w: ExampleResult)
    requires w.id in dataset && forall k :: 0 <= k < |s| ==> s[k].id != w.id
    ensures Ties(s, w, InOrder(dataset)) == []
  {
    if s != [] { TiesOfNone(dataset, s[1..], w); }
  }

  // ----------------------------------------------------------------- the report

  /** What the pool produced, for the examples that were pending. */
  ghost predicate Completes(
    dataset: seq<string>, completed: seq<ExampleResult>, produced: seq<ExampleResult>,
    task: string -> ExampleResult) {
    && multiset(Ids(produced)) == multiset(Pending(dataset, completed))
    && AllFrom(produced, task)
  }

  lemma ReportFacts(dataset: seq<string>, completed: seq<ExampleResult>, task: string -> ExampleResult)
    requires Distinct(dataset) && DistinctResults(completed) && forall id :: task(id).id == id
    ensures DistinctResults(Report(dataset, completed, task))
    ensures SortedBy(Report(dataset, completed, task), InOrder(dataset))
    ensures Foreign(dataset, Report(dataset, completed, task)) == Foreign(dataset, completed)
  {
    hide Foreign, Settled;
    var all, foreign := SettledAll(dataset, completed, task), Foreign(dataset, completed);
    ForeignMembers(dataset, completed);
    ForeignDistinct(dataset, completed);
    ForeignExtremes(dataset, all);
    ForeignExtremes(dataset, foreign);
    ForeignAppend(dataset, all, foreign);
    forall i | 0 <= i < |dataset|
      ensures all[i].id == dataset[i] && Rank(dataset, all[i].id) == i
    {
      SettledFacts(completed, task, dataset[i]);
    }
    forall k | 0 <= k < |foreign|
      ensures foreign[k].id !in dataset
    {
      assert foreign[k] in foreign;
    }
  }

  lemma AllDistinct(dataset: seq<string>, completed: seq<ExampleResult>, produced: seq<ExampleResult>)
    requires Distinct(dataset) && DistinctResults(completed)
    requires multiset(Ids(produced)) <= multiset(Pending(dataset, completed))
    ensures DistinctResults(completed + produced)
    ensures forall r :: r in produced ==> r.id in dataset && !HasResult(completed, r.id)
  {
    var pending := Pending(dataset, completed);
    PendingMembers(dataset, completed);
    IdsMember(produced);
    forall r | r in produced
      ensures r.id in dataset && !HasResult(completed, r.id)
    {
      assert r.id in multiset(Ids(produced));
      assert r.id in multiset(pending);
    }
    forall i, j | 0 <= i < j < |produced|
      ensures produced[i].id != produced[j].id
    {
      IdsAt(produced, i);
      IdsAt(produced, j);
      DistinctCount(pending, produced[i].id);
      if produced[i].id == produced[j].id { RepeatedCount(Ids(produced), i, j); }
    }
    forall i, j | 0 <= i < |completed| && 0 <= j < |produced|
      ensures completed[i].id != produced[j].id
    {
      assert completed[i] in completed && produced[j] in produced;
    }
  }

  /** The one place an example's result stands before sorting. */
  lemma WhereSettled(
    dataset: seq<string>, completed: seq<ExampleResult>, produced: seq<ExampleResult>,
    task: string -> ExampleResult, id: string) returns (i: nat)
    requires forall id :: task(id).id == id
    requires Completes(dataset, completed, produced, task) && id in dataset
    ensures i < |completed + produced| && (completed + produced)[i] == Settled(completed, task, id)
  {
    hide Ids, Settled, Pending;
    SettledFacts(completed, task, id);
    var settled := Settled(completed, task, id);
    if HasResult(completed, id) {
      var k :| 0 <= k < |completed| && completed[k] == settled;
      i := k;
    } else {
      PendingMembers(dataset, completed);
      IdsMember(produced);
      assert id in multiset(Pending(dataset, completed));
      assert id in multiset(Ids(produced));
      assert id in Ids(produced);
      var r :| r in produced && r.id == id;
      var k :| 0 <= k < |produced| && produced[k] == r;
      i := |completed| + k;
    }
  }

  lemma SameTies(
    dataset: seq<string>, completed: seq<ExampleResult>, produced: seq<ExampleResult>,
    task: string -> ExampleResult, w: ExampleResult)
    requires Distinct(dataset) && DistinctResults(completed) && forall id :: task(id).id == id
    requires Completes(dataset, completed, produced, task)
    ensures Ties(completed + produced, w, InOrder(dataset)) ==
        Ties(Report(dataset, completed, task), w, InOrder(dataset))
  {
    hide Ties, Foreign, Settled;
    ReportFacts(dataset, completed, task);
    AllDistinct(dataset, completed, produced);
    if w.id in dataset {
      var i := WhereSettled(dataset, completed, produced, task, w.id);
      SettledFacts(completed, task, w.id);
      TiesOfOne(dataset, completed + produced, w, i);
      TiesOfOne(dataset, Report(dataset, completed, task), w, Rank(dataset, w.id));
    } else {
      TiesOfForeign(dataset, completed + produced, w);
      TiesOfForeign(dataset, Report(dataset, completed, task), w);
      ForeignAppend(dataset, completed, produced);
      ForeignExtremes(dataset, produced);
    }
  }

  /** Whatever order the workers finished in, sorting gives the report. */
  lemma SortedIsReport(
    dataset: seq<string>, completed: seq<ExampleResult>, produced: seq<ExampleResult>,
    task: string -> ExampleResult)
    requires Distinct(dataset) && DistinctResults(completed) && forall id :: task(id).id == id
    requires Completes(dataset, completed, produced, task)
    ensures StableSort(completed + produced, InOrder(dataset)) == Report(dataset, completed, task)
  {
    hide Ties, StableSort, Report, SortedBy, TotalPreorder, Completes, InOrder;
    var le, all := InOrder(dataset), completed + produced;
    OrderIsTotal(dataset);
    SortSorts(all, le);
    ReportFacts(dataset, completed, task);
    forall w
      ensures Ties(StableSort(all, le), w, le) == Ties(Report(dataset, completed, task), w, le)
    {
      SortStable(all, w, le);
      SameTies(dataset, completed, produced, task, w);
    }
    StableUnique(StableSort(all, le), Report(dataset, completed, task), le);
  }

  // ----------------------------------------------------------------- resuming

  function StrippedAll(rs: seq<ExampleResult>): seq<ExampleResult> {
    seq(|rs|, i requires 0 <= i < |rs| => rs[i].Stripped())
  }

  /** Resuming from any faithful file gives, up to traces, the report of a run that was never interrupted. */
  lemma ResumeIsUninterrupted(dataset: seq<string>, file: File, task: string -> ExampleResult)
    requires Distinct(dataset) && forall id :: task(id).id == id
    requires Faithful(file, dataset, task)
    ensures StrippedAll(Report(dataset, Load(Lines(file)), task)) == StrippedAll(Report(dataset, [], task))
    ensures |Report(dataset, Load(Lines(file)), task)| == |dataset|
  {
    hide Settled, Foreign, Load, Lines;
    var completed := Load(Lines(file));
    FaithfulLoad(file, dataset, task);
    ForeignExtremes(dataset, completed);
    ForeignExtremes(dataset, []);
    forall i | 0 <= i < |dataset|
      ensures Settled(completed, task, dataset[i]).Stripped() == Settled([], task, dataset[i]).Stripped()
    {
      SettledFacts(completed, task, dataset[i]);
      SettledFacts([], task, dataset[i]);
    }
  }

  // ----------------------------------------------------------------- the error ceiling

  function ErrorCount(rs: seq<ExampleResult>): nat {
    if rs == [] then 0 else ErrorCount(rs[..|rs| - 1]) + if rs[|rs| - 1].status.Ok? then 0 else 1
  }

  lemma {:induction false} ErrorsCounted(rs: seq<ExampleResult>)
    ensures ErrorCount(rs) == |set i | 0 <= i < |rs| && rs[i].status != Ok|
  {
    var p := i => 0 <= i < |rs| && rs[i].status != Ok;
    assert (set i | 0 <= i < |rs| && rs[i].status != Ok) == Hits(|rs|, p);
    if rs != [] {
      var last := |rs| - 1;
      ErrorsCounted(rs[..last]);
      var q := i => 0 <= i < last && rs[..last][i].status != Ok;
      assert (set i | 0 <= i < last && rs[..last][i].status != Ok) == Hits(last, q);
      HitsNext(last, p, q);
    }
  }

  /** The share of examples that did not end well is above the ceiling. */
  ghost predicate CeilingBroken(rs: seq<ExampleResult>, maxErrorRate: real) {
    rs != [] && |set i | 0 <= i < |rs| && rs[i].status != Ok| as real / |rs| as real > maxErrorRate
  }

  /** A run that is not aborted already is aborted above the ceiling. */
  method CheckErrorCeiling(results: seq<ExampleResult>, abortedBefore: bool, maxErrorRate: real) returns (aborted: bool)
    ensures aborted == (abortedBefore || CeilingBroken(results, maxErrorRate))
  {
    if results == [] || abortedBefore {
      return abortedBefore;
    }
    var errors := 0;
    for i := 0 to |results|
      invariant errors == ErrorCount(results[..i])
    {
      assert results[..i + 1][..i] == results[..i];
      if !results[i].status.Ok? { errors := errors + 1; }
    }
    assert results[..|results|] == results;
    ErrorsCounted(results);
    aborted := errors as real / |results| as real > maxErrorRate;
  }

  // ----------------------------------------------------------------- the whole run

  function Completed(resume: Option<File>): seq<ExampleResult> {
    match resume
    case None => []
    case Some(file) => Load(Lines(file))
  }

  lemma CompletedDistinct(resume: Option<File>)
    ensures DistinctResults(Completed(resume))
  {
    if resume.Some? { LoadFacts(Lines(resume.value)); }
  }

  /** The state a run starts its pool from. */
  function Start(dataset: seq<string>, completed: seq<ExampleResult>, concurrency: int, file: File): State {
    var pending := Pending(dataset, completed);
    Init(pending, Max(1, Min(concurrency, Max(1, |pending|))), file)
  }

  lemma StartsUnaborted(dataset: seq<string>, completed: seq<ExampleResult>, concurrency: int, file: File)
    ensures !Start(dataset, completed, concurrency, file).aborted
  {
  }

  /** The results of a run, whether its budget stopped it, and the journal it leaves. */
  datatype Finish = Finish(results: seq<ExampleResult>, aborted: bool, left: File)

  /** The journal a run resumes from can be read. */
  predicate Resumable(resume: Option<File>) {
    resume.Some? ==> Decodes(resume.value)
  }

  // ----------------------------------------------------------------- the cost of a run

  /** The judge cost of running these examples. */
  ghost function CostOf(ids: seq<string>, task: string -> ExampleResult): real {
    if ids == [] then 0.0
    else
      var r := task(ids[|ids| - 1]);
      CostOf(ids[..|ids| - 1], task) + if r.status == Ok then r.judgeCost else 0.0
  }

  lemma {:induction false} CostWithout(ids: seq<string>, task: string -> ExampleResult, i: nat)
    requires i < |ids|
    ensures var r := task(ids[i]);
      CostOf(ids, task) == CostOf(ids[..i] + ids[i + 1..], task) + if r.status == Ok then r.judgeCost else 0.0
  {
    var last := |ids| - 1;
    if i < last {
      CostWithout(ids[..last], task, i);
      WithoutShape(ids, i);
    } else {
      assert ids[..i] + ids[i + 1..] == ids[..last];
    }
  }

  /** What some of the examples cost is at most what all of them do. */
  lemma {:induction false} CostOfSome(
    produced: seq<ExampleResult>, pending: seq<string>, task: string -> ExampleResult)
    requires AllFrom(produced, task) && multiset(Ids(produced)) <= multiset(pending)
    requires forall id :: 0.0 <= task(id).judgeCost
    ensures TotalSpend(produced) <= CostOf(pending, task)
  {
    if produced == [] {
      CostNonNegative(pending, task);
    } else {
      var last := |produced| - 1;
      var r := produced[last];
      assert r == task(r.id) by { assert r in produced; }
      assert Ids(produced) == Ids(produced[..last]) + [r.id];
      hide CostOf, Ids;
      var i := StillLeft(Ids(produced[..last]), r.id, pending);
      CostWithout(pending, task, i);
      assert forall x :: x in produced[..last] ==> x in produced;
      CostOfSome(produced[..last], pending[..i] + pending[i + 1..], task);
    }
  }

  lemma StillLeft(ids: seq<string>, id: string, pending: seq<string>) returns (i: nat)
    requires multiset(ids + [id]) <= multiset(pending)
    ensures i < |pending| && pending[i] == id
    ensures multiset(ids) <= multiset(pending[..i] + pending[i + 1..])
  {
    assert multiset(ids + [id]) == multiset(ids) + multiset{id};
    assert id in multiset(pending);
    i :| 0 <= i < |pending| && pending[i] == id;
    assert pending == pending[..i] + [pending[i]] + pending[i + 1..];
    ghost var rest := multiset(pending[..i] + pending[i + 1..]);
    assert multiset(pending) == rest + multiset{id};
    forall x
      ensures multiset(ids)[x] <= rest[x]
    {
      assert multiset(ids + [id])[x] <= multiset(pending)[x];
    }
  }

  lemma {:induction false} CostNonNegative(ids: seq<string>, task: string -> ExampleResult)
    requires forall id :: 0.0 <= task(id).judgeCost
    ensures 0.0 <= CostOf(ids, task)
  {
    if ids != [] { CostNonNegative(ids[..|ids| - 1], task); }
  }

  /** A budget stops a run only if the examples left to run cost the cap or more. */
  lemma AbortMeansCostly(
    dataset: seq<string>, config: Config, concurrency: int, resume: Option<File>, file: File,
    task: string -> ExampleResult, es: seq<Event>, f: Finish)
    requires Runs(dataset, config, concurrency, resume, file, task, es, f) && f.aborted
    requires forall id :: task(id).id == id && 0.0 <= task(id).judgeCost
    ensures config.limit.Some? && config.limit.value <= CostOf(Pending(dataset, Completed(resume)), task)
  {
    hide Ids, Everywhere, Feasible, After, Finished, StableSort, CostOf, TotalSpend, Pending;
    var pending := Pending(dataset, Completed(resume));
    var workers := Max(1, Min(concurrency, Max(1, |pending|)));
    var s := After(config, Init(pending, workers, file), es);
    JournalIsProduced(config, pending, workers, file, es, task);
    Conserved(config, pending, workers, file, es);
    ProducedFromPending(config, pending, s);
    AbortMeansSpent(config, pending, workers, file, es);
    CostOfSome(s.produced, pending, task);
  }

  /** The schedule runs to the end and leads to f. */
  ghost predicate Runs(
    dataset: seq<string>, config: Config, concurrency: int, resume: Option<File>, file: File,
    task: string -> ExampleResult, es: seq<Event>, f: Finish)
  {
    var start := Start(dataset, Completed(resume), concurrency, file);
    && Feasible(config, start, es) && Follows(es, task)
    && var s := After(config, start, es);
    && Finished(s) && f.left == s.journal && f.aborted == s.aborted
    && f.results == StableSort(Completed(resume) + s.produced, InOrder(dataset))
  }

  /** Resumes, runs the pool to the end in some schedule, and puts the results in dataset order. */
  method RunExamples(
    dataset: seq<string>, config: Config, concurrency: int, resume: Option<File>, file: File,
    task: string -> ExampleResult)
    returns (r: Fallible<Finish>, ghost es: seq<Event>)
    requires Distinct(dataset) && forall id :: task(id).id == id
    ensures r.Raises? <==> !Resumable(resume)
    ensures r.Yields? ==>
      && DistinctResults(r.value.results)
      && (!r.value.aborted ==> r.value.results == Report(dataset, Completed(resume), task))
      && (r.value.aborted ==> exists id :: id in dataset && !HasResult(r.value.results, id))
      && (config.limit.None? ==> !r.value.aborted)
      && (r.value.aborted && (forall id :: 0.0 <= task(id).judgeCost) ==>
          config.limit.Some? && config.limit.value <= CostOf(Pending(dataset, Completed(resume)), task))
    ensures r.Yields? ==> Runs(dataset, config, concurrency, resume, file, task, es, r.value)
  {
    hide Pending, Init, Feasible, After, Finished, StableSort, Load, Lines, InOrder, Report, DistinctResults,
        HasResult, Decodes, CostOf;
    var completed := [];
    es := [];
    if resume.Some? {
      var loaded := LoadJournal(resume.value);
      if loaded.Raises? {
        return Raises, [];
      }
      completed := loaded.value;
    }
    var pending := Pending(dataset, completed);
    var pool := new Pool(config, pending, concurrency, file);
    ghost var start := pool.View();
    es := pool.Run(task, start);
    var results := StableSort(completed + pool.produced, InOrder(dataset));
    RunResults(dataset, config, resume, concurrency, file, task, es);
    if config.limit.None? {
      StartsUnaborted(dataset, completed, concurrency, file);
      NoCapNoAbort(config, start, es);
    }
    ghost var f := Finish(results, pool.aborted, pool.journal);
    r := Yields(Finish(results, pool.aborted, pool.journal));
    if f.aborted && forall id :: 0.0 <= task(id).judgeCost {
      AbortMeansCostly(dataset, config, concurrency, resume, file, task, es, f);
    }
  }

  /** What any finished schedule leads to. */
  lemma RunResults(
    dataset: seq<string>, config: Config, resume: Option<File>, concurrency: int, file: File,
    task: string -> ExampleResult, es: seq<Event>)
    requires Distinct(dataset) && forall id :: task(id).id == id
    requires Feasible(config, Start(dataset, Completed(resume), concurrency, file), es) && Follows(es, task)
    requires Finished(After(config, Start(dataset, Completed(resume), concurrency, file), es))
    ensures
      var s := After(config, Start(dataset, Completed(resume), concurrency, file), es);
      var results := StableSort(Completed(resume) + s.produced, InOrder(dataset));
      && DistinctResults(results)
      && (!s.aborted ==> results == Report(dataset, Completed(resume), task))
      && (s.aborted ==> exists id :: id in dataset && !HasResult(results, id))
  {
    hide Ids, Everywhere, Feasible, After, Finished, StableSort, Report;
    var completed := Completed(resume);
    var pending := Pending(dataset, completed);
    var workers := Max(1, Min(concurrency, Max(1, |pending|)));
    var s := After(config, Init(pending, workers, file), es);
    CompletedDistinct(resume);
    JournalIsProduced(config, pending, workers, file, es, task);
    Conserved(config, pending, workers, file, es);
    FinishedRun(config, pending, workers, file, es);
    ProducedFromPending(config, pending, s);
    AllDistinct(dataset, completed, s.produced);
    SortKeepsDistinctResults(completed + s.produced, InOrder(dataset));
    if s.aborted {
      RefusedIsUnrun(config, dataset, completed, s);
    } else {
      SortedIsReport(dataset, completed, s.produced, task);
    }
  }

  /**
   However often the run was killed before, in whatever interleavings: resuming raises if and only if
   some kill cut a write inside a character, and otherwise an uncapped run that finishes reports what
   one uninterrupted run reports, traces aside.
   */
  lemma CrashesDoNotShow(
    dataset: seq<string>, task: string -> ExampleResult, files: seq<File>, xs: seq<Session>, config: Config,
    concurrency: int, file: File, es: seq<Event>)
    requires Distinct(dataset) && forall id :: task(id).id == id
    requires Chain(dataset, task, files, xs) && config.limit.None?
    requires
      var s0 := Start(dataset, Completed(Some(files[|xs|])), concurrency, file);
      Feasible(config, s0, es) && Follows(es, task) && Finished(After(config, s0, es))
    ensures Resumable(Some(files[|xs|])) <==> forall j :: 0 <= j < |xs| ==> Decodes(xs[j].tail)
    ensures Resumable(Some(files[|xs|])) ==>
      var resumed := Completed(Some(files[|xs|]));
      var s := After(config, Start(dataset, resumed, concurrency, file), es);
      StrippedAll(StableSort(resumed + s.produced, InOrder(dataset))) == StrippedAll(Report(dataset, [], task))
  {
    hide Feasible, After, Finished, StableSort, Report, StrippedAll, Faithful, Load, Lines, Leaves, Decodes;
    ChainDecodesIff(dataset, task, files, xs, |xs|);
    ChainFaithful(dataset, task, files, xs, |xs|);
    NoCapNoAbort(config, Start(dataset, Completed(Some(files[|xs|])), concurrency, file), es);
    RunResults(dataset, config, Some(files[|xs|]), concurrency, file, task, es);
    ResumeIsUninterrupted(dataset, files[|xs|], task);
  }

  /** Such a kill is possible as soon as an example is running: one worker, one example, no record yet. */
  lemma KillInsideCharacter(
    dataset: seq<string>, task: string -> ExampleResult) returns (files: seq<File>, xs: seq<Session>)
    requires dataset != []
    ensures Chain(dataset, task, files, xs) && xs != [] && !Resumable(Some(files[|xs|]))
  {
    var c := Config(None, true);
    var pending := Pending(dataset, Load(Lines([])));
    var tail := [Fragment(true)];
    assert Lines([]) == [[]];
    PendingMembers(dataset, Load(Lines([])));
    assert dataset[0] in pending;
    var s0 := Init(pending, 1, []);
    var es := [Pull(0)];
    assert es[..0] == [];
    assert After(c, s0, es) == PullStep(c, s0, 0);
    assert After(c, s0, es).workers[0].Running?;
    files, xs := [[], tail], [Session(c, 1, es, tail)];
    assert Continues(dataset, task, files[0], xs[0], files[1]);
  }

  /** One kill inside a character is enough, whatever later sessions try: the file can never be resumed from. */
  lemma CutInsideCharacterStays(
    dataset: seq<string>, task: string -> ExampleResult, files: seq<File>, xs: seq<Session>, j: nat, i: nat)
    requires Chain(dataset, task, files, xs) && j < i < |files| && !Decodes(xs[j].tail)
    ensures !Resumable(Some(files[i])) && files[i] == files[j + 1]
  {
    ChainDecodesIff(dataset, task, files, xs, i);
    ChainDecodesIff(dataset, task, files, xs, j + 1);
    if j + 1 < i {
      CutInsideCharacterStays(dataset, task, files, xs, j, i - 1);
      assert Continues(dataset, task, files[i - 1], xs[i - 1], files[i]);
    }
  }

  lemma ProducedFromPending(c: Config, pending: seq<string>, s: State)
    requires Inv(c, pending, s)
    ensures multiset(Ids(s.produced)) <= multiset(pending)
  {
  }

  /** The example the budget refused has no result. */
  lemma RefusedIsUnrun(c: Config, dataset: seq<string>, completed: seq<ExampleResult>, s: State)
    requires Inv(c, Pending(dataset, completed), s) && Distinct(dataset) && s.aborted
    ensures exists id :: id in dataset && !HasResult(StableSort(completed + s.produced, InOrder(dataset)), id)
  {
    var pending, id := Pending(dataset, completed), s.refused[0];
    PendingMembers(dataset, completed);
    DistinctCount(pending, id);
    IdsMember(s.produced);
    SortMembers(completed + s.produced, InOrder(dataset));
    assert id in dataset && !HasResult(StableSort(completed + s.produced, InOrder(dataset)), id);
  }

  lemma SortKeepsDistinctResults(rs: seq<ExampleResult>, le: (ExampleResult, ExampleResult) -> bool)
    requires DistinctResults(rs)
    ensures DistinctResults(StableSort(rs, le))
  {
    hide StableSort;
    var sorted := StableSort(rs, le);
    SameCountsDistinct(rs, sorted);
    SortMembers(rs, le);
    forall i, j | 0 <= i < j < |sorted|
      ensures sorted[i].id != sorted[j].id
    {
      assert sorted[i] in rs && sorted[j] in rs;
    }
  }
}
