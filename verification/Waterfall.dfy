/**
 buildWaterfall as it runs: an explicit stack, a visited set and a map of children, each updated
 in place (apps/web/src/lib/spans.ts). The stack is proved to perform Forest.Visit.
 */
module Waterfall {
  import opened Common
  import opened Spans
  import SpanTree

  datatype Frame = Frame(span: Span, depth: nat)

  ghost predicate OfTrace(f: Forest, stack: seq<Frame>) {
    forall fr :: fr in stack ==> fr.span in f.ordered
  }

  /** What is still owed to the rows when the frames of `stack` are popped one after another. */
  ghost function Unwind(f: Forest, stack: seq<Frame>, rows: seq<Row>): seq<Row>
    requires f.start < f.end
    requires OfTrace(f, stack)
    decreases |stack|
  {
    if stack == [] then rows
    else
      var top := stack[|stack| - 1];
      assert top in stack;
      Unwind(f, stack[..|stack| - 1], f.Visit([top.span], top.depth, rows))
  }

  /** The frames of a list of siblings, pushed last to first. */
  function Frames(kids: seq<Span>, depth: nat): seq<Frame> {
    if kids == [] then [] else Frames(kids[1..], depth) + [Frame(kids[0], depth)]
  }

  lemma {:induction false} FramesIn(kids: seq<Span>, depth: nat)
    ensures forall fr :: fr in Frames(kids, depth) ==> fr.span in kids
  {
    if kids != [] { FramesIn(kids[1..], depth); }
  }

  lemma UnwindTop(f: Forest, base: seq<Frame>, top: Frame, rows: seq<Row>)
    requires f.start < f.end && OfTrace(f, base + [top])
    ensures OfTrace(f, base) && top.span in f.ordered
    ensures Unwind(f, base + [top], rows) == Unwind(f, base, f.Visit([top.span], top.depth, rows))
  {
    var stack := base + [top];
    assert stack[..|stack| - 1] == base;
    assert stack[|stack| - 1] == top;
    assert top in stack;
  }

  /** Siblings pushed in reverse are visited in order. */
  lemma {:induction false} UnwindFrames(f: Forest, base: seq<Frame>, kids: seq<Span>, depth: nat, rows: seq<Row>)
    requires f.start < f.end
    requires OfTrace(f, base)
    requires forall k :: k in kids ==> k in f.ordered
    ensures OfTrace(f, base + Frames(kids, depth))
    ensures Unwind(f, base + Frames(kids, depth), rows) == Unwind(f, base, f.Visit(kids, depth, rows))
    decreases |kids|
  {
    FramesIn(kids, depth);
    if kids == [] {
      assert base + Frames(kids, depth) == base;
    } else {
      var rest := base + Frames(kids[1..], depth);
      var top := Frame(kids[0], depth);
      assert base + Frames(kids, depth) == rest + [top];
      UnwindTop(f, rest, top, rows);
      UnwindFrames(f, base, kids[1..], depth, f.Visit([kids[0]], depth, rows));
    }
  }

  /** One unvisited span: its row, then its children, which is what popping its frame leads to. */
  lemma VisitOne(f: Forest, span: Span, depth: nat, rows: seq<Row>)
    requires f.start < f.end && span in f.ordered
    ensures span.id in RowIds(rows) ==> f.Visit([span], depth, rows) == rows
    ensures forall c :: c in f.Children(span.id) ==> c in f.ordered
    ensures span.id !in RowIds(rows) ==>
      f.Visit([span], depth, rows) == f.Visit(f.Children(span.id), depth + 1, rows + [f.RowFor(span, depth)])
  {
    ChildrenIn(f.ordered, span.id);
    assert [span][1..] == [];
  }

  ghost predicate ChildMap(f: Forest, upTo: nat, children: map<string, seq<Span>>)
    requires upTo <= |f.ordered|
  {
    forall p :: p in f.Ids() ==>
      ChildrenOf(f.ordered[..upTo], p) == if p in children then children[p] else []
  }

  /** Filing one more span under its parent, or under nobody. */
  function FileChild(children: map<string, seq<Span>>, p: string, span: Span): map<string, seq<Span>> {
    children[p := (if p in children then children[p] else []) + [span]]
  }

  lemma ChildMapStep(f: Forest, i: nat, children: map<string, seq<Span>>)
    requires i < |f.ordered| && ChildMap(f, i, children)
    ensures
      var span := f.ordered[i];
      ChildMap(f, i + 1, if f.HasParent(span) then FileChild(children, span.parent.value, span) else children)
  {
    var span := f.ordered[i];
    var next := if f.HasParent(span) then FileChild(children, span.parent.value, span) else children;
    forall p | p in f.Ids()
      ensures ChildrenOf(f.ordered[..i + 1], p) == if p in next then next[p] else []
    {
      assert f.ordered[..i + 1][..i] == f.ordered[..i];
      assert IsChildOf(span, p) <==> f.HasParent(span) && span.parent.value == p;
    }
  }

  method IndexChildren(f: Forest) returns (children: map<string, seq<Span>>, roots: seq<Span>)
    ensures ChildMap(f, |f.ordered|, children)
    ensures roots == f.Roots()
  {
    hide ChildMap;
    children, roots := map[], [];
    assert ChildMap(f, 0, children) by { ChildMapEmpty(f); }
    for i := 0 to |f.ordered|
      invariant ChildMap(f, i, children)
      invariant roots == f.RootsOf(f.ordered[..i])
    {
      var span := f.ordered[i];
      assert f.ordered[..i + 1][..i] == f.ordered[..i];
      ChildMapStep(f, i, children);
      if f.HasParent(span) {
        children := FileChild(children, span.parent.value, span);
      } else {
        roots := roots + [span];
      }
    }
    assert f.ordered[..|f.ordered|] == f.ordered;
  }

  lemma ChildMapEmpty(f: Forest)
    ensures ChildMap(f, 0, map[])
  {
  }

  /** Popping the frame of a span already drawn leaves the outcome unchanged. */
  lemma PopSeen(f: Forest, base: seq<Frame>, top: Frame, rows: seq<Row>)
    requires f.start < f.end && OfTrace(f, base + [top])
    requires top.span.id in RowIds(rows)
    ensures OfTrace(f, base)
    ensures Unwind(f, base, rows) == Unwind(f, base + [top], rows)
  {
    UnwindTop(f, base, top, rows);
    VisitOne(f, top.span, top.depth, rows);
  }

  /** So does popping a new span, drawing its row and pushing its children. */
  lemma PopNew(f: Forest, base: seq<Frame>, top: Frame, rows: seq<Row>)
    requires f.start < f.end && OfTrace(f, base + [top])
    requires top.span.id !in RowIds(rows)
    ensures top.span in f.ordered
    ensures OfTrace(f, base + Frames(f.Children(top.span.id), top.depth + 1))
    ensures Unwind(f, base + Frames(f.Children(top.span.id), top.depth + 1), rows + [f.RowFor(top.span, top.depth)])
            == Unwind(f, base + [top], rows)
  {
    hide *;
    UnwindTop(f, base, top, rows);
    VisitOne(f, top.span, top.depth, rows);
    UnwindFrames(f, base, f.Children(top.span.id), top.depth + 1, rows + [f.RowFor(top.span, top.depth)]);
  }

  method PushChildren(base: seq<Frame>, kids: seq<Span>, depth: nat) returns (stack: seq<Frame>)
    ensures stack == base + Frames(kids, depth)
  {
    stack := base;
    var i := |kids|;
    while i > 0
      invariant 0 <= i <= |kids|
      invariant stack == base + Frames(kids[i..], depth)
    {
      i := i - 1;
      assert kids[i..][1..] == kids[i + 1..];
      stack := stack + [Frame(kids[i], depth)];
    }
    assert kids[0..] == kids;
  }

  method PushKids(
    f: Forest, children: map<string, seq<Span>>, base: seq<Frame>, span: Span, depth: nat) returns (stack: seq<Frame>)
    requires ChildMap(f, |f.ordered|, children) && span in f.ordered
    ensures stack == base + Frames(f.Children(span.id), depth)
  {
    KidsFromMap(f, children, span);
    stack := base;
    if span.id in children {
      stack := PushChildren(base, children[span.id], depth);
    }
  }

  /** One turn of the loop: pop a frame; if its span is new, draw it and push its children. */
  method PopFrame(
    f: Forest, children: map<string, seq<Span>>, stack0: seq<Frame>, rows0: seq<Row>, visited0: set<string>)
    returns (stack: seq<Frame>, rows: seq<Row>, visited: set<string>)
    requires f.start < f.end && stack0 != [] && OfTrace(f, stack0)
    requires ChildMap(f, |f.ordered|, children)
    requires visited0 == RowIds(rows0)
    ensures OfTrace(f, stack) && visited == RowIds(rows)
    ensures Unwind(f, stack, rows) == Unwind(f, stack0, rows0)
    ensures (visited == visited0 && |stack| < |stack0|) || f.Ids() - visited < f.Ids() - visited0
  {
    var top := stack0[|stack0| - 1];
    ghost var base := stack0[..|stack0| - 1];
    stack, rows, visited := stack0[..|stack0| - 1], rows0, visited0;
    assert stack0 == base + [top];
    if top.span.id in visited {
      PopSeen(f, base, top, rows);
      return;
    }
    PopNew(f, base, top, rows);
    RowIdsPush(rows, f.RowFor(top.span, top.depth));
    visited := visited + {top.span.id};
    rows := rows + [f.RowFor(top.span, top.depth)];
    stack := PushKids(f, children, stack, top.span, top.depth + 1);
  }

  method Walk(
    f: Forest, children: map<string, seq<Span>>, entry: Span, entryDepth: nat, rows0: seq<Row>,
    visited0: set<string>)
    returns (rows: seq<Row>, visited: set<string>)
    requires f.start < f.end && entry in f.ordered
    requires ChildMap(f, |f.ordered|, children)
    requires visited0 == RowIds(rows0)
    ensures rows == f.Visit([entry], entryDepth, rows0)
    ensures visited == RowIds(rows)
  {
    rows, visited := rows0, visited0;
    var stack := [Frame(entry, entryDepth)];
    ghost var goal := Unwind(f, stack, rows);
    assert [] + stack == stack;
    UnwindTop(f, [], stack[0], rows);
    while |stack| > 0
      invariant OfTrace(f, stack) && visited == RowIds(rows)
      invariant Unwind(f, stack, rows) == goal
      decreases f.Ids() - visited, |stack|
    {
      stack, rows, visited := PopFrame(f, children, stack, rows, visited);
    }
  }

  lemma KidsFromMap(f: Forest, children: map<string, seq<Span>>, span: Span)
    requires ChildMap(f, |f.ordered|, children) && span in f.ordered
    ensures span.id in f.Ids()
    ensures f.Children(span.id) == if span.id in children then children[span.id] else []
  {
    assert f.ordered[..|f.ordered|] == f.ordered;
  }

  lemma RowIdsPush(rows: seq<Row>, row: Row)
    ensures RowIds(rows + [row]) == RowIds(rows) + {row.span.id}
  {
    assert (rows + [row])[|rows|] == row;
    forall id
      ensures id in RowIds(rows + [row]) <==> id in RowIds(rows) + {row.span.id}
    {
    }
  }

  /** One call of Visit, entry by entry. */
  lemma VisitNext(f: Forest, spans: seq<Span>, i: nat, rows0: seq<Row>)
    requires f.start < f.end && i < |spans|
    requires forall s :: s in spans ==> s in f.ordered
    ensures forall s :: s in spans[..i] ==> s in f.ordered
    ensures f.Visit(spans[..i + 1], 0, rows0) == f.Visit([spans[i]], 0, f.Visit(spans[..i], 0, rows0))
  {
    assert spans[..i + 1] == spans[..i] + [spans[i]];
    SpanTree.VisitAppend(f, spans[..i], [spans[i]], 0, rows0);
  }

  /** The trace as drawn: start order, and the window over all of it. */
  function Prepare(spans: seq<Span>, rank: Collation): (f: Forest)
    requires spans != []
  {
    var ordered := SortSpans(spans, rank);
    Forest(ordered, EarliestStart(ordered), WindowEnd(ordered))
  }

  method WalkRoots(f: Forest, children: map<string, seq<Span>>, roots: seq<Span>)
    returns (rows: seq<Row>, visited: set<string>)
    requires f.start < f.end && ChildMap(f, |f.ordered|, children)
    requires forall s :: s in roots ==> s in f.ordered
    ensures rows == f.Visit(roots, 0, []) && visited == RowIds(rows)
  {
    rows, visited := [], {};
    assert roots[..0] == [];
    for i := 0 to |roots|
      invariant forall s :: s in roots[..i] ==> s in f.ordered
      invariant rows == f.Visit(roots[..i], 0, [])
      invariant visited == RowIds(rows)
    {
      VisitNext(f, roots, i, []);
      rows, visited := Walk(f, children, roots[i], 0, rows, visited);
    }
    assert roots[..|roots|] == roots;
  }

  /** Anything unreachable from a root still gets rendered. */
  method WalkUnvisited(f: Forest, children: map<string, seq<Span>>, rows0: seq<Row>, visited0: set<string>)
    returns (rows: seq<Row>)
    requires f.start < f.end && ChildMap(f, |f.ordered|, children)
    requires visited0 == RowIds(rows0)
    ensures rows == f.Visit(f.ordered, 0, rows0)
  {
    rows := rows0;
    var visited := visited0;
    assert f.ordered[..0] == [];
    for i := 0 to |f.ordered|
      invariant rows == f.Visit(f.ordered[..i], 0, rows0)
      invariant visited == RowIds(rows)
    {
      VisitNext(f, f.ordered, i, rows0);
      VisitOne(f, f.ordered[i], 0, rows);
      if f.ordered[i].id !in visited {
        rows, visited := Walk(f, children, f.ordered[i], 0, rows, visited);
      }
    }
    assert f.ordered[..|f.ordered|] == f.ordered;
  }

  /** Every guarantee of WellDrawn, on every trace. */
  method BuildWaterfall(spans: seq<Span>, rank: Collation, now: int) returns (rows: seq<Row>)
    ensures spans == [] ==> rows == []
    ensures spans != [] ==>
      var f := Prepare(spans, rank);
      f.start < f.end && rows == f.Waterfall() && SpanTree.WellDrawn(f, rows)
  {
    if |spans| == 0 {
      return [];
    }
    var ordered := SortSpans(spans, rank);
    var start, end := TraceWindow(ordered, now);
    WindowCovers(ordered);
    var f := Forest(ordered, start, end);
    f.RootsIn(ordered);
    var children, roots := IndexChildren(f);
    var visited;
    rows, visited := WalkRoots(f, children, roots);
    rows := WalkUnvisited(f, children, rows, visited);
    SpanTree.WaterfallWellDrawn(f);
  }
}
