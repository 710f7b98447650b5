/**
 What a run leaves in its journal, however its workers interleave and wherever it is killed
 (packages/evaluation-core/src/proofstep_core/runner.py).
 */
module Sessions {
  import opened Common
  import opened Journal
  import opened WorkerPool

  /** The writes of a run, in order of completion. */
  function Entries(rs: seq<ExampleResult>): File {
    if rs == [] then [] else Entries(rs[..|rs| - 1]) + Entry(rs[|rs| - 1])
  }

  /** Every result is what the suite's function yields for its example. */
  ghost predicate Follows(es: seq<Event>, task: string -> ExampleResult) {
    forall e :: e in es && e.Commit? ==> e.result == task(e.result.id)
  }

  ghost predicate AllFrom(rs: seq<ExampleResult>, task: string -> ExampleResult) {
    forall r :: r in rs ==> r == task(r.id)
  }

  // ----------------------------------------------------------------- the journal of a schedule

  /** The journal is the starting file and one entry for each result, in that order. */
  ghost predicate Journaled(c: Config, file: File, s: State, task: string -> ExampleResult) {
    && s.journal == (if c.journaling then file + Entries(s.produced) else file)
    && AllFrom(s.produced, task)
  }

  lemma CommitJournals(c: Config, file: File, s: State, w: nat, r: ExampleResult, task: string -> ExampleResult)
    requires w < |s.workers| && Journaled(c, file, s, task) && r == task(r.id)
    ensures Journaled(c, file, CommitStep(c, s, w, r), task)
  {
    hide Entry;
    var after := CommitStep(c, s, w, r);
    assert after.produced[..|s.produced|] == s.produced;
    assert file + Entries(s.produced) + Entry(r) == file + (Entries(s.produced) + Entry(r));
  }

  lemma JournalStep(c: Config, file: File, s: State, e: Event, task: string -> ExampleResult)
    requires Journaled(c, file, s, task) && Enabled(s, e)
    requires e.Commit? ==> e.result == task(e.result.id)
    ensures Journaled(c, file, Apply(c, s, e), task)
  {
    hide Entry, Entries, CommitStep, OverBudget;
    if e.Commit? { CommitJournals(c, file, s, e.w, e.result, task); }
  }

  lemma {:induction false} JournalIsProduced(
    c: Config, pending: seq<string>, workers: nat, file: File, es: seq<Event>, task: string -> ExampleResult)
    requires Feasible(c, Init(pending, workers, file), es) && Follows(es, task)
    ensures Journaled(c, file, After(c, Init(pending, workers, file), es), task)
  {
    hide Entries, Entry, Apply, Enabled;
    if es == [] {
      NoEntries(file);
    } else {
      var prefix, e := es[..|es| - 1], es[|es| - 1];
      assert e in es && forall x :: x in prefix ==> x in es;
      JournalIsProduced(c, pending, workers, file, prefix, task);
      hide Journaled, Init;
      JournalStep(c, file, After(c, Init(pending, workers, file), prefix), e, task);
    }
  }

  lemma NoEntries(file: File)
    ensures file + Entries([]) == file
  {
  }

  lemma {:induction false} RunningMember(ws: seq<Worker>, w: nat)
    requires w < |ws| && ws[w].Running?
    ensures ws[w].example in RunningIds(ws)
  {
    if w < |ws| - 1 { RunningMember(ws[..|ws| - 1], w); }
  }

  lemma {:induction false} IdsMember(rs: seq<ExampleResult>)
    ensures forall r :: r in rs ==> r.id in Ids(rs)
    ensures forall id :: id in Ids(rs) ==> exists r :: r in rs && r.id == id
  {
    if rs != [] {
      var last := |rs| - 1;
      IdsMember(rs[..last]);
      assert rs == rs[..last] + [rs[last]];
      forall id | id in Ids(rs)
        ensures exists r :: r in rs && r.id == id
      {
        if id == rs[last].id {
          assert rs[last] in rs;
        } else {
          assert id in Ids(rs[..last]);
          var r :| r in rs[..last] && r.id == id;
          assert r in rs;
        }
      }
    }
  }

  /** Only examples of the queue are run. */
  lemma OnlyPending(c: Config, pending: seq<string>, s: State)
    requires Inv(c, pending, s)
    ensures forall w :: 0 <= w < |s.workers| && s.workers[w].Running? ==> s.workers[w].example in pending
    ensures forall r :: r in s.produced ==> r.id in pending
  {
    forall w | 0 <= w < |s.workers| && s.workers[w].Running?
      ensures s.workers[w].example in pending
    {
      RunningMember(s.workers, w);
      assert s.workers[w].example in multiset(pending);
    }
    IdsMember(s.produced);
    forall r | r in s.produced
      ensures r.id in pending
    {
      assert r.id in multiset(Ids(s.produced));
      assert r.id in multiset(pending);
    }
  }

  // ----------------------------------------------------------------- faithful at every crash point

  lemma {:induction false} FaithfulEntries(
    file: File, rs: seq<ExampleResult>, dataset: seq<string>, task: string -> ExampleResult)
    requires Faithful(file, dataset, task) && AllFrom(rs, task)
    requires forall r :: r in rs ==> r.id in dataset
    ensures Faithful(file + Entries(rs), dataset, task)
  {
    if rs == [] {
      assert file + Entries(rs) == file;
    } else {
      var last := |rs| - 1;
      assert forall r :: r in rs[..last] ==> r in rs;
      FaithfulEntries(file, rs[..last], dataset, task);
      FaithfulEntry(file + Entries(rs[..last]), dataset, task, rs[last]);
      assert file + Entries(rs) == file + Entries(rs[..last]) + Entry(rs[last]);
    }
  }

  /** A kill may cut short the write of one example that was running. */
  ghost predicate CutShort(s: State, tail: File, task: string -> ExampleResult) {
    tail == [] || exists w :: 0 <= w < |s.workers| && s.workers[w].Running? && Torn(tail, task(s.workers[w].example))
  }

  /** One session: a run that resumes from `before`, appends to `file`, and ends or is killed. */
  datatype Session = Session(config: Config, workers: nat, schedule: seq<Event>, tail: File)

  ghost predicate Leaves(pending: seq<string>, task: string -> ExampleResult, file: File, x: Session, after: File) {
    var s0 := Init(pending, x.workers, file);
    && Feasible(x.config, s0, x.schedule)
    && Follows(x.schedule, task)
    && CutShort(After(x.config, s0, x.schedule), x.tail, task)
    && after == After(x.config, s0, x.schedule).journal + x.tail
  }

  /** Killed anywhere in any schedule, a run leaves a faithful file. */
  lemma CrashLeavesFaithful(
    dataset: seq<string>, pending: seq<string>, task: string -> ExampleResult, file: File, x: Session,
    after: File)
    requires forall id :: task(id).id == id
    requires forall id :: id in pending ==> id in dataset
    requires Faithful(file, dataset, task)
    requires Leaves(pending, task, file, x, after)
    ensures Faithful(after, dataset, task)
  {
    hide Faithful;
    var s0 := Init(pending, x.workers, file);
    var s := After(x.config, s0, x.schedule);
    JournalIsProduced(x.config, pending, x.workers, file, x.schedule, task);
    Conserved(x.config, pending, x.workers, file, x.schedule);
    OnlyPending(x.config, pending, s);
    if x.config.journaling {
      FaithfulEntries(file, s.produced, dataset, task);
    }
    if x.tail == [] {
      assert after == s.journal;
    } else {
      var w :| 0 <= w < |s.workers| && s.workers[w].Running? && Torn(x.tail, task(s.workers[w].example));
      FaithfulTorn(s.journal, dataset, task, task(s.workers[w].example), x.tail);
    }
  }

  /** Resuming from a file that does not decode raises before anything runs or is written. */
  ghost predicate Continues(
    dataset: seq<string>, task: string -> ExampleResult, before: File, x: Session, after: File) {
    if Decodes(before) then Leaves(Pending(dataset, Load(Lines(before))), task, before, x, after)
    else x.tail == [] && after == before
  }

  /** Any number of sessions, each resuming from and appending to what the one before left. */
  ghost predicate Chain(dataset: seq<string>, task: string -> ExampleResult, files: seq<File>, xs: seq<Session>) {
    && |files| == |xs| + 1
    && files[0] == []
    && forall i :: 0 <= i < |xs| ==> Continues(dataset, task, files[i], xs[i], files[i + 1])
  }

  predicate HasResult(rs: seq<ExampleResult>, id: string) {
    exists r :: r in rs && r.id == id
  }

  /** The examples still to run. */
  function Pending(dataset: seq<string>, completed: seq<ExampleResult>): seq<string> {
    if dataset == [] then []
    else
      var last := |dataset| - 1;
      Pending(dataset[..last], completed) + if HasResult(completed, dataset[last]) then [] else [dataset[last]]
  }

  lemma {:induction false} PendingMembers(dataset: seq<string>, completed: seq<ExampleResult>)
    ensures forall id :: id in Pending(dataset, completed) <==> id in dataset && !HasResult(completed, id)
    ensures Distinct(dataset) ==> Distinct(Pending(dataset, completed))
  {
    if dataset != [] {
      var last := |dataset| - 1;
      PendingMembers(dataset[..last], completed);
      assert dataset == dataset[..last] + [dataset[last]];
      if Distinct(dataset) {
        assert dataset[last] !in dataset[..last];
      }
    }
  }

  /** However many sessions crashed, what they leave is faithful. */
  lemma {:induction false} ChainFaithful(
    dataset: seq<string>, task: string -> ExampleResult, files: seq<File>, xs: seq<Session>, i: nat)
    requires forall id :: task(id).id == id
    requires Chain(dataset, task, files, xs) && i < |files|
    ensures Faithful(files[i], dataset, task)
  {
    if i == 0 {
      assert Lines([]) == [[]];
    } else {
      ChainFaithful(dataset, task, files, xs, i - 1);
      assert Continues(dataset, task, files[i - 1], xs[i - 1], files[i]);
      if Decodes(files[i - 1]) {
        var pending := Pending(dataset, Load(Lines(files[i - 1])));
        PendingMembers(dataset, Load(Lines(files[i - 1])));
        CrashLeavesFaithful(dataset, pending, task, files[i - 1], xs[i - 1], files[i]);
      }
    }
  }

  /** A session adds to what does not decode only by a tail cut inside a character. */
  lemma LeavesDecodes(pending: seq<string>, task: string -> ExampleResult, file: File, x: Session, after: File)
    requires Leaves(pending, task, file, x, after)
    ensures Decodes(after) <==> Decodes(file) && Decodes(x.tail)
  {
    hide Decodes;
    var s := After(x.config, Init(pending, x.workers, file), x.schedule);
    JournalIsProduced(x.config, pending, x.workers, file, x.schedule, task);
    EntriesDecode(file, s.produced);
    NeverDecodesAgain(s.journal, x.tail);
  }

  /** The file of a chain decodes exactly while no session's last write was cut inside a character. */
  lemma {:induction false} ChainDecodesIff(
    dataset: seq<string>, task: string -> ExampleResult, files: seq<File>, xs: seq<Session>, i: nat)
    requires Chain(dataset, task, files, xs) && i < |files|
    ensures Decodes(files[i]) <==> forall j :: 0 <= j < i ==> Decodes(xs[j].tail)
  {
    if i > 0 {
      ChainDecodesIff(dataset, task, files, xs, i - 1);
      assert Continues(dataset, task, files[i - 1], xs[i - 1], files[i]);
      if Decodes(files[i - 1]) {
        LeavesDecodes(Pending(dataset, Load(Lines(files[i - 1]))), task, files[i - 1], xs[i - 1], files[i]);
      }
    }
  }

  // ----------------------------------------------------------------- what appending keeps

  lemma EntryAddsOnly(file: File, r: ExampleResult, id: string)
    requires Recorded(file + Entry(r), id) && id != r.id
    ensures Recorded(file, id)
  {
    SplitEntry(file, r);
    RecordedIff(file, id);
    RecordedIff(file + Entry(r), id);
    var line :| line in Lines(file + Entry(r)) && Names(line, id);
    var done, open := Split(file).0, Split(file).1;
    assert Lines(file + Entry(r)) == done + [open + [Record(r.Stripped())]] + [[]];
    assert (open + [Record(r.Stripped())])[|open|] == Record(r.Stripped());
    assert line in done;
    assert line in Lines(file);
  }

  lemma {:induction false} EntriesKeep(file: File, rs: seq<ExampleResult>, id: string)
    requires Clean(file)
    ensures Clean(file + Entries(rs))
    ensures Recorded(file, id) || id in Ids(rs) ==> Recorded(file + Entries(rs), id)
  {
    hide Clean, Recorded, Entry;
    if rs == [] {
      assert file + Entries(rs) == file;
    } else {
      var last := |rs| - 1;
      var before := file + Entries(rs[..last]);
      assert file + Entries(rs) == before + Entry(rs[last]);
      EntriesKeep(file, rs[..last], id);
      EntryKeepsClean(before, rs[last]);
      if Recorded(before, id) {
        EntryKeeps(before, rs[last], id);
      } else if rs[last].id == id {
        EntryRecordedIff(before, rs[last]);
      }
    }
  }

  lemma EntryKeepsClean(file: File, r: ExampleResult)
    ensures Clean(file + Entry(r))
  {
    SplitEntry(file, r);
  }

  lemma {:induction false} FirstIsLost(file: File, rs: seq<ExampleResult>)
    requires rs != [] && Distinct(Ids(rs)) && !Clean(file)
    requires !Recorded(file, rs[0].id)
    ensures !Recorded(file + Entries(rs), rs[0].id)
  {
    hide Clean, Recorded, Entry;
    var last := |rs| - 1;
    var before := file + Entries(rs[..last]);
    assert file + Entries(rs) == before + Entry(rs[last]);
    if last == 0 {
      assert before == file;
      EntryRecordedIff(file, rs[0]);
    } else {
      DistinctIdsShrink(rs);
      FirstIsLost(file, rs[..last]);
      if Recorded(before + Entry(rs[last]), rs[0].id) {
        EntryAddsOnly(before, rs[last], rs[0].id);
      }
    }
  }

  lemma {:induction false} IdsAt(rs: seq<ExampleResult>, i: nat)
    requires i < |rs|
    ensures |Ids(rs)| == |rs| && Ids(rs)[i] == rs[i].id
  {
    IdsLength(rs);
    IdsLength(rs[..|rs| - 1]);
    if i < |rs| - 1 { IdsAt(rs[..|rs| - 1], i); }
  }

  lemma DistinctIdsShrink(rs: seq<ExampleResult>)
    requires |rs| > 1 && Distinct(Ids(rs))
    ensures Distinct(Ids(rs[..|rs| - 1]))
    ensures rs[0].id != rs[|rs| - 1].id
  {
    IdsAt(rs, 0);
    IdsAt(rs, |rs| - 1);
    assert Ids(rs)[..|rs| - 1] == Ids(rs[..|rs| - 1]);
  }

  lemma {:induction false} EntriesDecode(file: File, rs: seq<ExampleResult>)
    ensures Decodes(file + Entries(rs)) <==> Decodes(file)
  {
    hide Decodes, Entry;
    if rs == [] {
      assert file + Entries(rs) == file;
    } else {
      var last := |rs| - 1;
      EntriesDecode(file, rs[..last]);
      assert file + Entries(rs) == file + Entries(rs[..last]) + Entry(rs[last]);
      EntryDecodes(file + Entries(rs[..last]), rs[last]);
    }
  }

  /**
   A session that appends to a whole file that decodes loses nothing. On a torn file it loses the first
   result it completes, because that record joins the torn line; on one that does not decode, all.
   */
  lemma NothingLostIffWhole(
    c: Config, pending: seq<string>, workers: nat, file: File, es: seq<Event>, task: string -> ExampleResult)
    requires Feasible(c, Init(pending, workers, file), es) && Follows(es, task) && c.journaling
    requires Distinct(pending) && forall id :: id in pending ==> !Recoverable(file, id)
    requires After(c, Init(pending, workers, file), es).produced != []
    ensures var s := After(c, Init(pending, workers, file), es);
      (forall r :: r in s.produced ==> Recoverable(s.journal, r.id)) <==> Clean(file) && Decodes(file)
    ensures var s := After(c, Init(pending, workers, file), es);
      Clean(file) ==> forall id :: Recoverable(file, id) ==> Recoverable(s.journal, id)
  {
    hide Clean, Recorded, Entry, Decodes;
    var s := After(c, Init(pending, workers, file), es);
    JournalIsProduced(c, pending, workers, file, es, task);
    Conserved(c, pending, workers, file, es);
    OnlyPending(c, pending, s);
    EntriesDecode(file, s.produced);
    assert s.produced[0] in s.produced;
    if Clean(file) {
      IdsMember(s.produced);
      forall id | Recorded(file, id) || id in Ids(s.produced)
        ensures Recorded(s.journal, id)
      {
        EntriesKeep(file, s.produced, id);
      }
    } else if Decodes(file) {
      ProducedOnce(c, pending, s);
      FirstIsLost(file, s.produced);
    }
  }

  /** No example is run twice. */
  lemma ProducedOnce(c: Config, pending: seq<string>, s: State)
    requires Inv(c, pending, s) && Distinct(pending)
    ensures Distinct(Ids(s.produced))
  {
    var ids := Ids(s.produced);
    forall i, j | 0 <= i < j < |ids|
      ensures ids[i] != ids[j]
    {
      DistinctCount(pending, ids[i]);
      assert multiset(ids)[ids[i]] <= multiset(pending)[ids[i]];
      if ids[i] == ids[j] { RepeatedCount(ids, i, j); }
    }
  }

  /** A torn last line that still parses is readable once; the next entry takes it away. */
  lemma TailSurvivesIff(file: File, r: ExampleResult, id: string)
    requires Recoverable(file, id) && id != r.id
    ensures Recoverable(file + Entry(r), id) <==> exists line :: line in Split(file).0 && Names(line, id)
  {
    SplitEntry(file, r);
    RecordedIff(file + Entry(r), id);
    EntryDecodes(file, r);
    var done, open := Split(file).0, Split(file).1;
    var joined := open + [Record(r.Stripped())];
    assert Lines(file + Entry(r)) == done + [joined] + [[]];
    assert joined[|open|] == Record(r.Stripped());
    forall line | line in Lines(file + Entry(r)) && Names(line, id)
      ensures line in done
    {
      assert line != joined;
    }
    if line :| line in done && Names(line, id) {
      assert line in Lines(file + Entry(r));
    }
  }
}
