/**
 The append-only run journal (packages/evaluation-core/src/proofstep_core/runner.py). A file is a
 sequence of tokens: whole records, line ends, and fragments of records a kill cut short. A fragment
 may end inside a character of more than one byte, and then the file no longer decodes as UTF-8.
 */
module Journal {
  import opened Common
  import opened Scores

  datatype Status = Ok | Failed | TimedOut

  /** The outcome of one example. `body` stands for everything else the journal keeps. */
  datatype ExampleResult = ExampleResult(id: string, status: Status, judgeCost: real, scored: Scored, body: string,
      trace: Option<string>)
  {
    /** What the journal keeps: everything but the trace. */
    function Stripped(): ExampleResult {
      this.(trace := None)
    }

    /** Judge spend, committed only for an example that ran. */
    function Spend(): real {
      if status.Ok? then judgeCost else 0.0
    }
  }

  datatype Token = Record(result: ExampleResult) | Fragment(insideCharacter: bool) | Newline

  type File = seq<Token>

  /** Finished lines, and the tokens after the last line end. */
  function Split(file: File): (seq<seq<Token>>, seq<Token>) {
    if file == [] then ([], [])
    else
      var last := |file| - 1;
      var (done, open) := Split(file[..last]);
      if file[last].Newline? then (done + [open], []) else (done, open + [file[last]])
  }

  function Lines(file: File): seq<seq<Token>> {
    Split(file).0 + [Split(file).1]
  }

  /** A line parses if it is one whole record; blank, torn and run-together lines are skipped. */
  predicate Parses(line: seq<Token>) {
    |line| == 1 && line[0].Record?
  }

  /** The line is a record of that example. */
  predicate Names(line: seq<Token>, id: string) {
    Parses(line) && line[0].result.id == id
  }

  /** Every byte of the file belongs to a whole character. */
  predicate Decodes(file: File) {
    Fragment(true) !in file
  }

  /** Nothing follows the last line end. */
  predicate Clean(file: File) {
    Split(file).1 == []
  }

  ghost predicate DistinctResults(rs: seq<ExampleResult>) {
    forall i, j :: 0 <= i < j < |rs| ==> rs[i].id != rs[j].id
  }

  /** Dictionary assignment: a repeated id keeps its place and takes the new value. */
  function Put(rs: seq<ExampleResult>, r: ExampleResult): seq<ExampleResult> {
    if rs == [] then [r]
    else if rs[0].id == r.id then [r] + rs[1..]
    else [rs[0]] + Put(rs[1..], r)
  }

  lemma {:induction false} PutFacts(rs: seq<ExampleResult>, r: ExampleResult)
    requires DistinctResults(rs)
    ensures DistinctResults(Put(rs, r))
    ensures forall x :: x in Put(rs, r) <==> x == r || (x in rs && x.id != r.id)
  {
    if rs != [] && rs[0].id != r.id {
      PutFacts(rs[1..], r);
      assert rs == [rs[0]] + rs[1..];
    } else if rs != [] {
      assert rs == [rs[0]] + rs[1..];
    }
  }

  /** A new example comes last; a known one takes the place it had. */
  lemma {:induction false} PutKeepsPlaces(rs: seq<ExampleResult>, r: ExampleResult)
    requires DistinctResults(rs)
    ensures |rs| <= |Put(rs, r)| <= |rs| + 1
    ensures forall i :: 0 <= i < |rs| ==> Put(rs, r)[i] == if rs[i].id == r.id then r else rs[i]
    ensures |Put(rs, r)| == |rs| + 1 <==> forall i :: 0 <= i < |rs| ==> rs[i].id != r.id
    ensures |Put(rs, r)| == |rs| + 1 ==> Put(rs, r)[|rs|] == r
  {
    if rs != [] && rs[0].id != r.id {
      var rest := Put(rs[1..], r);
      PutKeepsPlaces(rs[1..], r);
      assert Put(rs, r) == [rs[0]] + rest;
      assert forall i :: 0 < i < |rs| ==> rs[1..][i - 1] == rs[i];
    }
  }

  function Load(lines: seq<seq<Token>>): seq<ExampleResult> {
    if lines == [] then []
    else
      var last := |lines| - 1;
      if Parses(lines[last]) then Put(Load(lines[..last]), lines[last][0].result) else Load(lines[..last])
  }

  lemma {:induction false} LinesHold(file: File)
    ensures Decodes(file) <==> forall line :: line in Lines(file) ==> Decodes(line)
  {
    if file != [] {
      var last := |file| - 1;
      LinesHold(file[..last]);
      assert file == file[..last] + [file[last]];
      var (done, open) := Split(file[..last]);
      assert Lines(file[..last]) == done + [open];
      if file[last].Newline? {
        assert Lines(file) == done + [open] + [[]];
        SameLines(done, open, [[]]);
      } else {
        assert Lines(file) == done + [open + [file[last]]];
        SameLines(done, open + [file[last]], []);
        SameLines(done, open, []);
      }
    }
  }

  lemma SameLines(done: seq<seq<Token>>, open: seq<Token>, after: seq<seq<Token>>)
    requires forall line :: line in after ==> Decodes(line)
    ensures (forall line :: line in done + [open] + after ==> Decodes(line)) <==>
      (forall line :: line in done ==> Decodes(line)) && Decodes(open)
  {
    assert forall line :: line in done + [open] + after <==> line in done || line == open || line in after;
  }

  /** The decoder raises at the first line it cannot read; what fails to parse is skipped. */
  method LoadJournal(file: File) returns (r: Fallible<seq<ExampleResult>>)
    ensures r.Raises? <==> !Decodes(file)
    ensures r.Yields? ==> r.value == Load(Lines(file))
  {
    var lines := Lines(file);
    LinesHold(file);
    var completed: seq<ExampleResult> := [];
    for i := 0 to |lines|
      invariant completed == Load(lines[..i])
      invariant forall k :: 0 <= k < i ==> Decodes(lines[k])
    {
      assert lines[..i + 1][..i] == lines[..i];
      if !Decodes(lines[i]) {
        return Raises;
      }
      if Parses(lines[i]) {
        completed := Put(completed, lines[i][0].result);
      }
    }
    assert lines[..|lines|] == lines;
    r := Yields(completed);
  }

  /** Once it cannot be read, a file never can be again, whatever is appended. */
  lemma NeverDecodesAgain(file: File, more: File)
    ensures Decodes(file + more) <==> Decodes(file) && Decodes(more)
  {
  }

  lemma {:induction false} LoadFacts(lines: seq<seq<Token>>)
    ensures DistinctResults(Load(lines))
    ensures forall x :: x in Load(lines) ==> [Record(x)] in lines
    ensures forall line :: line in lines && Parses(line) ==> exists x :: x in Load(lines) && Names(line, x.id)
  {
    if lines != [] {
      var last := |lines| - 1;
      LoadFacts(lines[..last]);
      assert lines == lines[..last] + [lines[last]];
      if Parses(lines[last]) {
        PutFacts(Load(lines[..last]), lines[last][0].result);
        var r := lines[last][0].result;
        assert lines[last] == [Record(r)];
        assert r in Load(lines);
        forall line | line in lines && Parses(line)
          ensures exists x :: x in Load(lines) && Names(line, x.id)
        {
          if Names(line, r.id) {
          } else {
            var x :| x in Load(lines[..last]) && Names(line, x.id);
            assert x in Load(lines);
          }
        }
      }
    }
  }

  /** Some line records x and no later one names its example. */
  ghost predicate LastFor(lines: seq<seq<Token>>, x: ExampleResult) {
    exists i :: 0 <= i < |lines| && lines[i] == [Record(x)] && NoneAfter(lines, i, x.id)
  }

  ghost predicate NoneAfter(lines: seq<seq<Token>>, i: int, id: string) {
    forall j :: i < j < |lines| && 0 <= j ==> !Names(lines[j], id)
  }

  /** What loads is exactly the last record of each example. */
  lemma {:induction false} LoadTakesLast(lines: seq<seq<Token>>, x: ExampleResult)
    ensures x in Load(lines) <==> LastFor(lines, x)
  {
    if lines != [] {
      var last := |lines| - 1;
      LoadTakesLast(lines[..last], x);
      if Parses(lines[last]) {
        LoadFacts(lines[..last]);
        PutFacts(Load(lines[..last]), lines[last][0].result);
        assert lines[last] == [Record(lines[last][0].result)];
      }
    }
  }

  // ----------------------------------------------------------------- appending

  /** What one write appends. */
  function Entry(r: ExampleResult): File {
    [Record(r.Stripped()), Newline]
  }

  lemma SplitEntry(file: File, r: ExampleResult)
    ensures Split(file + Entry(r)) == (Split(file).0 + [Split(file).1 + [Record(r.Stripped())]], [])
  {
    var one := file + [Record(r.Stripped())];
    assert one[..|file|] == file;
    assert file + Entry(r) == one + [Newline];
    assert (one + [Newline])[..|one|] == one;
  }

  // ----------------------------------------------------------------- faithful files

  /**
   Every line that parses records, without its trace, what the suite's function yields for an
   example of the dataset.
   */
  ghost predicate Faithful(file: File, dataset: seq<string>, task: string -> ExampleResult) {
    forall line :: line in Lines(file) && Parses(line) ==> FaithfulLine(line, dataset, task)
  }

  ghost predicate FaithfulLine(line: seq<Token>, dataset: seq<string>, task: string -> ExampleResult)
    requires Parses(line)
  {
    var r := line[0].result;
    r.id in dataset && r == task(r.id).(trace := None)
  }

  /** The ways a write of r can be cut short, not at all included. */
  ghost predicate Torn(tail: File, r: ExampleResult) {
    tail == [] || tail == [Fragment(false)] || tail == [Fragment(true)] || tail == [Record(r.Stripped())]
  }

  lemma FaithfulEntry(file: File, dataset: seq<string>, task: string -> ExampleResult, r: ExampleResult)
    requires Faithful(file, dataset, task) && r.id in dataset && r == task(r.id)
    ensures Faithful(file + Entry(r), dataset, task)
  {
    SplitEntry(file, r);
    var done, open := Split(file).0, Split(file).1;
    forall line | line in Lines(file + Entry(r)) && Parses(line)
      ensures FaithfulLine(line, dataset, task)
    {
      if line in done {
        assert line in Lines(file);
      } else {
        assert line == open + [Record(r.Stripped())] || line == [];
        assert |open| == 0;
      }
    }
  }

  lemma FaithfulTorn(file: File, dataset: seq<string>, task: string -> ExampleResult, r: ExampleResult, tail: File)
    requires Faithful(file, dataset, task) && r.id in dataset && r == task(r.id) && Torn(tail, r)
    ensures Faithful(file + tail, dataset, task)
  {
    if tail == [] {
      assert file + tail == file;
    } else {
      var done, open := Split(file).0, Split(file).1;
      assert file + tail == file + [tail[0]];
      forall line | line in Lines(file + tail) && Parses(line)
        ensures FaithfulLine(line, dataset, task)
      {
        if line in done {
          assert line in Lines(file);
        } else {
          assert line == open + [tail[0]];
          assert open == [];
        }
      }
    }
  }

  /** What loads from a faithful file. */
  lemma FaithfulLoad(file: File, dataset: seq<string>, task: string -> ExampleResult)
    requires Faithful(file, dataset, task)
    ensures DistinctResults(Load(Lines(file)))
    ensures forall r :: r in Load(Lines(file)) ==> r.id in dataset && r == task(r.id).Stripped()
  {
    LoadFacts(Lines(file));
    forall r | r in Load(Lines(file))
      ensures r.id in dataset && r == task(r.id).Stripped()
    {
      var line := [Record(r)];
      assert FaithfulLine(line, dataset, task);
    }
  }

  // ----------------------------------------------------------------- what a crash loses

  /** Some line of the file is a record of that example. */
  ghost predicate Recorded(file: File, id: string) {
    exists r :: r in Load(Lines(file)) && r.id == id
  }

  /** Loading the file yields a result for that example. */
  ghost predicate Recoverable(file: File, id: string) {
    Decodes(file) && Recorded(file, id)
  }

  lemma EntryDecodes(file: File, r: ExampleResult)
    ensures Decodes(file + Entry(r)) <==> Decodes(file)
  {
    NeverDecodesAgain(file, Entry(r));
  }

  lemma RecordedIff(file: File, id: string)
    ensures Recorded(file, id) <==> exists line :: line in Lines(file) && Names(line, id)
  {
    LoadFacts(Lines(file));
    if exists line :: line in Lines(file) && Names(line, id) {
      var line :| line in Lines(file) && Names(line, id);
      var x :| x in Load(Lines(file)) && Names(line, x.id);
    }
    if Recorded(file, id) {
      var r :| r in Load(Lines(file)) && r.id == id;
      assert Names([Record(r)], id);
    }
  }

  /** A record appended after a torn line joins that line and cannot be read back. */
  lemma EntryRecordedIff(file: File, r: ExampleResult)
    requires !Recorded(file, r.id)
    ensures Recorded(file + Entry(r), r.id) <==> Clean(file)
    ensures Clean(file + Entry(r))
  {
    SplitEntry(file, r);
    RecordedIff(file, r.id);
    RecordedIff(file + Entry(r), r.id);
    var done, open := Split(file).0, Split(file).1;
    var joined := open + [Record(r.Stripped())];
    assert Lines(file + Entry(r)) == done + [joined] + [[]];
    if Clean(file) {
      assert joined in Lines(file + Entry(r)) && Names(joined, r.id);
    } else {
      forall line | line in Lines(file + Entry(r)) && Parses(line)
        ensures line in Lines(file)
      {
      }
    }
  }

  /** Appending after a line end takes nothing away. */
  lemma EntryKeeps(file: File, r: ExampleResult, id: string)
    requires Clean(file) && Recorded(file, id)
    ensures Recorded(file + Entry(r), id)
  {
    SplitEntry(file, r);
    RecordedIff(file, id);
    RecordedIff(file + Entry(r), id);
    var line :| line in Lines(file) && Names(line, id);
    assert line in Split(file).0;
    assert line in Lines(file + Entry(r));
  }

  /** An appended record can be read back exactly when the file ended in a whole line and decodes. */
  lemma EntryRecoverableIff(file: File, r: ExampleResult)
    requires !Recorded(file, r.id)
    ensures Recoverable(file + Entry(r), r.id) <==> Clean(file) && Decodes(file)
  {
    EntryRecordedIff(file, r);
    EntryDecodes(file, r);
  }
}
