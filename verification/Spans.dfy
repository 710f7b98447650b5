/**
 The span tree behind the waterfall view (apps/web/src/lib/spans.ts).

 Timestamps are parsed milliseconds. The locale collation that breaks the last tie is an arbitrary
 ranking of ids: every total preorder on strings is one of these, ties included.
 */
module Spans {
  import opened Common
  import opened Sorting

  datatype Span = Span(
    id: string,
    parent: Option<string>,
    startedAt: int,
    endedAt: Option<int>,
    durationMs: Option<int>,
    sequenceIndex: int)

  type Collation = string -> real

  datatype Row = Row(
    span: Span,
    depth: nat,
    offset: real,
    width: real,
    hasChildren: bool,
    isOrphan: bool,
    isOpen: bool)

  const MIN_VISIBLE_WIDTH := 0.002

  // ----------------------------------------------------------------- order and window

  predicate SpanLe(a: Span, b: Span, rank: Collation) {
    if a.startedAt != b.startedAt then a.startedAt < b.startedAt
    else if a.sequenceIndex != b.sequenceIndex then a.sequenceIndex < b.sequenceIndex
    else rank(a.id) <= rank(b.id)
  }

  function SpanOrder(rank: Collation): (Span, Span) -> bool {
    (a, b) => SpanLe(a, b, rank)
  }

  function SortSpans(spans: seq<Span>, rank: Collation): seq<Span> {
    StableSort(spans, SpanOrder(rank))
  }

  /** A permutation, earliest start first, then lowest sequence index, then id; ties keep their order. */
  lemma SortSpansSpec(spans: seq<Span>, rank: Collation)
    ensures multiset(SortSpans(spans, rank)) == multiset(spans)
    ensures forall s :: s in SortSpans(spans, rank) <==> s in spans
    ensures var r := SortSpans(spans, rank);
      forall i, j :: 0 <= i < j < |r| ==>
        && r[i].startedAt <= r[j].startedAt
        && (r[i].startedAt == r[j].startedAt ==>
            && r[i].sequenceIndex <= r[j].sequenceIndex
            && (r[i].sequenceIndex == r[j].sequenceIndex ==> rank(r[i].id) <= rank(r[j].id)))
    ensures forall s :: Ties(SortSpans(spans, rank), s, SpanOrder(rank)) == Ties(spans, s, SpanOrder(rank))
  {
    var le := SpanOrder(rank);
    assert TotalPreorder(le);
    SortSorts(spans, le);
    SortMembers(spans, le);
    forall s
      ensures Ties(SortSpans(spans, rank), s, le) == Ties(spans, s, le)
    {
      SortStable(spans, s, le);
    }
  }

  function SpanEnd(s: Span): int {
    if s.endedAt.Some? then s.endedAt.value else s.startedAt
  }

  function EarliestStart(spans: seq<Span>): int
    requires spans != []
  {
    var last := |spans| - 1;
    if last == 0 then spans[0].startedAt else Min(EarliestStart(spans[..last]), spans[last].startedAt)
  }

  function LatestEnd(spans: seq<Span>): int
    requires spans != []
  {
    var last := |spans| - 1;
    if last == 0 then SpanEnd(spans[0]) else Max(LatestEnd(spans[..last]), SpanEnd(spans[last]))
  }

  /** A trace within one millisecond still gets a window of width one. */
  function WindowEnd(spans: seq<Span>): int
    requires spans != []
  {
    Max(LatestEnd(spans), EarliestStart(spans) + 1)
  }

  lemma {:induction false} WindowCovers(spans: seq<Span>)
    requires spans != []
    ensures EarliestStart(spans) < WindowEnd(spans)
    ensures forall s ::
      s in spans ==> EarliestStart(spans) <= s.startedAt && SpanEnd(s) <= LatestEnd(spans) <= WindowEnd(spans)
    ensures exists s :: s in spans && s.startedAt == EarliestStart(spans)
    ensures exists s :: s in spans && SpanEnd(s) == LatestEnd(spans)
  {
    var last := |spans| - 1;
    if last > 0 {
      WindowCovers(spans[..last]);
      assert spans == spans[..last] + [spans[last]];
      assert spans[last] in spans;
    }
  }

  /** `now` is the clock, read only for an empty trace. */
  method TraceWindow(spans: seq<Span>, now: int) returns (start: int, end: int)
    ensures spans == [] ==> start == now && end == now + 1
    ensures spans != [] ==> start == EarliestStart(spans) && end == WindowEnd(spans)
  {
    if |spans| == 0 {
      return now, now + 1;
    }
    start, end := spans[0].startedAt, SpanEnd(spans[0]);
    for i := 1 to |spans|
      invariant start == EarliestStart(spans[..i]) && end == LatestEnd(spans[..i])
    {
      assert spans[..i + 1][..i] == spans[..i];
      if spans[i].startedAt < start { start := spans[i].startedAt; }
      if SpanEnd(spans[i]) > end { end := SpanEnd(spans[i]); }
    }
    assert spans[..|spans|] == spans;
    end := if end > start then end else start + 1;
  }

  // ----------------------------------------------------------------- rows

  function Clamp(value: real): real {
    MinReal(1.0, MaxReal(0.0, value))
  }

  /** Parent links that count: non-empty, and naming a span of the trace. */
  predicate IsChildOf(s: Span, p: string) {
    p != "" && s.parent == Some(p)
  }

  /** The children of p among s, in the order of s. */
  function ChildrenOf(s: seq<Span>, p: string): seq<Span> {
    if s == [] then []
    else
      var last := |s| - 1;
      ChildrenOf(s[..last], p) + if IsChildOf(s[last], p) then [s[last]] else []
  }

  function RowIds(rows: seq<Row>): set<string> {
    set r | r in rows :: r.span.id
  }

  function SpanIds(spans: seq<Span>): set<string> {
    set s | s in spans :: s.id
  }

  /** A trace made ready to draw: its spans in start order, and the window of the drawing. */
  datatype Forest = Forest(ordered: seq<Span>, start: int, end: int)
  {
    function Ids(): set<string> {
      SpanIds(ordered)
    }

    predicate HasParent(s: Span) {
      s.parent.Some? && s.parent.value != "" && s.parent.value in Ids()
    }

    function RootsOf(s: seq<Span>): seq<Span> {
      if s == [] then []
      else
        var last := |s| - 1;
        RootsOf(s[..last]) + if HasParent(s[last]) then [] else [s[last]]
    }

    function Roots(): seq<Span> {
      RootsOf(ordered)
    }

    function Children(p: string): seq<Span> {
      ChildrenOf(ordered, p)
    }

    function RowFor(s: Span, depth: nat): Row
      requires start < end
    {
      var width := (end - start) as real;
      var to := if s.endedAt.None? then end else s.endedAt.value;
      Row(s, depth,
          Clamp((s.startedAt - start) as real / width),
          MaxReal(MIN_VISIBLE_WIDTH, Clamp((to - s.startedAt) as real / width)),
          Children(s.id) != [],
          s.parent.Some? && s.parent.value != "" && s.parent.value !in Ids(),
          s.endedAt.None?)
    }

    /**
     The recursive walk the explicit stack stands for: place each span not yet placed, then
     everything below it, then go on with its siblings.
     */
    function Visit(spans: seq<Span>, depth: nat, rows: seq<Row>): (r: seq<Row>)
      requires start < end
      requires forall s :: s in spans ==> s in ordered
      ensures rows <= r
      ensures forall s :: s in spans ==> s.id in RowIds(r)
      decreases Ids() - RowIds(rows), |spans|
    {
      if spans == [] then
        rows
      else if spans[0].id in RowIds(rows) then
        var r := Visit(spans[1..], depth, rows);
        r
      else
        var placed := rows + [RowFor(spans[0], depth)];
        assert spans[0].id in RowIds(placed) by { assert placed[|rows|] in placed; }
        ChildrenIn(ordered, spans[0].id);
        var below := Visit(Children(spans[0].id), depth + 1, placed);
        var r := Visit(spans[1..], depth, below);
        r
    }

    /** Roots first; then whatever no root reaches, which is a cycle of parent links and what hangs off it. */
    function Waterfall(): seq<Row>
      requires start < end
    {
      RootsIn(ordered);
      Visit(ordered, 0, Visit(Roots(), 0, []))
    }

    lemma {:induction false} RootsIn(s: seq<Span>)
      ensures forall x :: x in RootsOf(s) <==> x in s && !HasParent(x)
    {
      if s != [] {
        RootsIn(s[..|s| - 1]);
        assert s == s[..|s| - 1] + [s[|s| - 1]];
      }
    }
  }

  lemma {:induction false} ChildrenIn(s: seq<Span>, p: string)
    ensures forall x :: x in ChildrenOf(s, p) <==> x in s && IsChildOf(x, p)
  {
    if s != [] {
      ChildrenIn(s[..|s| - 1], p);
      assert s == s[..|s| - 1] + [s[|s| - 1]];
    }
  }
}
