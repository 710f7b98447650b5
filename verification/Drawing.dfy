/**
 The drawn trace said in the fields of its spans alone (apps/web/src/lib/spans.ts).
 */
module Drawing {
  import opened Common
  import opened Spans
  import opened SpanTree
  import Waterfall

  /** The rows buildWaterfall returns for a trace that is not empty. */
  ghost function Rows(spans: seq<Span>, rank: Collation): seq<Row>
    requires spans != []
  {
    Waterfall.Prepare(spans, rank).Waterfall()
  }

  lemma PreparedTrace(spans: seq<Span>, rank: Collation)
    requires spans != []
    ensures var f := Waterfall.Prepare(spans, rank);
      && f.start < f.end && f.ordered == SortSpans(spans, rank)
      && forall s :: s in f.ordered <==> s in spans
  {
    SortSpansSpec(spans, rank);
    WindowCovers(SortSpans(spans, rank));
  }

  /** The span names another span of the trace as its parent. */
  ghost predicate Linked(spans: seq<Span>, s: Span) {
    exists p :: p in spans && p.id != "" && s.parent == Some(p.id)
  }

  lemma HasParentIff(spans: seq<Span>, rank: Collation, s: Span)
    requires spans != []
    ensures Waterfall.Prepare(spans, rank).HasParent(s) <==> Linked(spans, s)
  {
    PreparedTrace(spans, rank);
    var f := Waterfall.Prepare(spans, rank);
    if f.HasParent(s) {
      var p :| p in f.ordered && p.id == s.parent.value;
      assert p in spans;
    }
  }

  // ----------------------------------------------------------------- where a row stands

  /**
   A nested row has the row of its parent as the nearest earlier row one level up; a span without a
   parent in the trace is at the top.
   */
  lemma RowsFollowLinks(spans: seq<Span>, rank: Collation, i: nat)
    requires spans != [] && i < |Rows(spans, rank)|
    ensures var rows := Rows(spans, rank);
      && rows[i].span in spans
      && (rows[i].depth > 0 ==>
          exists j :: ParentRow(rows, j, i) && rows[i].span.parent == Some(rows[j].span.id) && rows[j].span.id != "")
      && (!Linked(spans, rows[i].span) ==> rows[i].depth == 0)
  {
    PreparedTrace(spans, rank);
    var f, rows := Waterfall.Prepare(spans, rank), Rows(spans, rank);
    WaterfallWellDrawn(f);
    assert rows[i] in rows;
    if rows[i].depth > 0 {
      assert Hangs(f, rows, 0, i);
      var j :| 0 <= j && ParentRow(rows, j, i) && IsChildOf(rows[i].span, rows[j].span.id);
      assert rows[j] in rows;
    }
  }

  /** What a row says of its span. */
  lemma FlagsMean(spans: seq<Span>, rank: Collation, i: nat)
    requires spans != [] && i < |Rows(spans, rank)|
    ensures var row := Rows(spans, rank)[i];
      && (row.isOpen <==> row.span.endedAt == None)
      && (row.isOrphan <==> row.span.parent.Some? && row.span.parent != Some("") && !Linked(spans, row.span))
      && (row.hasChildren <==> row.span.id != "" && exists c :: c in spans && c.parent == Some(row.span.id))
  {
    PreparedTrace(spans, rank);
    var f, rows := Waterfall.Prepare(spans, rank), Rows(spans, rank);
    WaterfallWellDrawn(f);
    assert rows[i] in rows;
    var s := rows[i].span;
    assert rows[i] == f.RowFor(s, rows[i].depth);
    HasParentIff(spans, rank, s);
    ChildrenIn(f.ordered, s.id);
    if f.Children(s.id) != [] {
      var c := f.Children(s.id)[0];
      assert c in f.Children(s.id) && c in spans;
    }
  }

  // ----------------------------------------------------------------- the bars

  /** From the earliest start to the latest end, an open span ending as it starts; at least a millisecond. */
  ghost predicate IsWindow(spans: seq<Span>, start: int, end: int) {
    && start < end
    && (forall s :: s in spans ==> start <= s.startedAt && Or(s.endedAt, s.startedAt) <= end)
    && (exists s :: s in spans && s.startedAt == start)
    && (end == start + 1 || exists s :: s in spans && Or(s.endedAt, s.startedAt) == end)
  }

  /**
   Left edge and length of a bar, in milliseconds of the window, are those of its span; an open one
   runs to the end.
   */
  ghost predicate ToScale(row: Row, start: int, end: int) {
    var unit, length := (end - start) as real, (Or(row.span.endedAt, end) - row.span.startedAt) as real;
    && row.offset * unit == (row.span.startedAt - start) as real
    && 0.002 <= row.width
    && (row.width > 0.002 ==> row.width * unit == length)
    && (row.width == 0.002 ==> length <= 0.002 * unit)
  }

  /** Every bar is drawn to scale in the window of the trace, where spans end no earlier than they start. */
  lemma BarsMean(spans: seq<Span>, rank: Collation, i: nat)
    requires spans != [] && i < |Rows(spans, rank)|
    requires forall s :: s in spans && s.endedAt.Some? ==> s.startedAt <= s.endedAt.value
    ensures exists start, end :: IsWindow(spans, start, end) && ToScale(Rows(spans, rank)[i], start, end)
  {
    PreparedTrace(spans, rank);
    var f, rows := Waterfall.Prepare(spans, rank), Rows(spans, rank);
    WaterfallWellDrawn(f);
    assert rows[i] in rows;
    WindowMeans(spans, rank);
    RowToScale(f, rows[i].span, rows[i].depth);
    hide Forest.RowFor, Forest.Waterfall, Waterfall.Prepare, SortSpans, ToScale;
  }

  lemma RowToScale(f: Forest, s: Span, depth: nat)
    requires f.start < f.end && f.start <= s.startedAt && Or(s.endedAt, s.startedAt) <= f.end
    requires s.endedAt.Some? ==> s.startedAt <= s.endedAt.value
    ensures ToScale(f.RowFor(s, depth), f.start, f.end)
  {
    BarsToScale(f, s, depth);
    hide Clamp;
  }

  lemma WindowMeans(spans: seq<Span>, rank: Collation)
    requires spans != []
    ensures var f := Waterfall.Prepare(spans, rank); IsWindow(spans, f.start, f.end)
  {
    PreparedTrace(spans, rank);
    var f := Waterfall.Prepare(spans, rank);
    WindowCovers(f.ordered);
    hide EarliestStart, LatestEnd;
    var e :| e in f.ordered && SpanEnd(e) == LatestEnd(f.ordered);
    assert e in spans;
    var s :| s in f.ordered && s.startedAt == EarliestStart(f.ordered);
    assert s in spans;
  }

  // ----------------------------------------------------------------- time order

  lemma SortedBefore(spans: seq<Span>, rank: Collation, x: Span, y: Span)
    requires Before(SortSpans(spans, rank), x, y)
    ensures x.startedAt <= y.startedAt
    ensures x.startedAt == y.startedAt ==> x.sequenceIndex <= y.sequenceIndex
    ensures x.startedAt == y.startedAt && x.sequenceIndex == y.sequenceIndex ==> rank(x.id) <= rank(y.id)
  {
    hide SortSpans;
    SortSpansSpec(spans, rank);
    var r := SortSpans(spans, rank);
    var a, b :| 0 <= a < b < |r| && r[a] == x && r[b] == y;
  }

  lemma {:induction false} RootsInOrder(f: Forest, s: seq<Span>, x: Span, y: Span)
    requires Before(f.RootsOf(s), x, y)
    ensures Before(s, x, y)
  {
    var last := |s| - 1;
    var roots, earlier := f.RootsOf(s), f.RootsOf(s[..last]);
    var a, b :| 0 <= a < b < |roots| && roots[a] == x && roots[b] == y;
    if b < |earlier| {
      RootsInOrder(f, s[..last], x, y);
      var c, d :| 0 <= c < d < |s[..last]| && s[..last][c] == x && s[..last][d] == y;
      assert s[c] == x && s[d] == y;
    } else {
      f.RootsIn(s[..last]);
      assert x == earlier[a] && x in earlier;
      var c :| 0 <= c < |s[..last]| && s[..last][c] == x;
      assert s[c] == x && s[last] == y;
    }
  }

  /** Rows of spans without a parent in the trace come from the first pass, in the order of the roots. */
  lemma RootRowsInOrder(f: Forest, i: nat, k: nat)
    requires f.start < f.end && i < k < |f.Waterfall()|
    requires !f.HasParent(f.Waterfall()[i].span) && !f.HasParent(f.Waterfall()[k].span)
    ensures Before(f.ordered, f.Waterfall()[i].span, f.Waterfall()[k].span)
  {
    f.RootsIn(f.ordered);
    var rows, first := f.Waterfall(), f.Visit(f.Roots(), 0, []);
    WaterfallWellDrawn(f);
    VisitOrder(f, f.Roots(), 0, []);
    VisitShape(f, f.Roots(), 0, []);
    RootRowFirst(f, i);
    RootRowFirst(f, k);
    RootsInOrder(f, f.ordered, rows[i].span, rows[k].span);
  }

  /** The rows of the pass over the roots come first and hold every root. */
  lemma FirstPass(f: Forest)
    requires f.start < f.end
    ensures forall s :: s in f.Roots() <==> s in f.ordered && !f.HasParent(s)
    ensures f.Visit(f.Roots(), 0, []) <= f.Waterfall()
    ensures forall s :: s in f.Roots() ==> s.id in RowIds(f.Visit(f.Roots(), 0, []))
  {
    f.RootsIn(f.ordered);
  }

  lemma RootRowFirst(f: Forest, i: nat)
    requires f.start < f.end && i < |f.Waterfall()| && !f.HasParent(f.Waterfall()[i].span)
    ensures forall s :: s in f.Roots() ==> s in f.ordered
    ensures var first := f.Visit(f.Roots(), 0, []);
      i < |first| && first[i] == f.Waterfall()[i] && first[i].depth == 0
  {
    FirstPass(f);
    WaterfallWellDrawn(f);
    hide Forest.Visit, Forest.Waterfall, Forest.RowFor, Forest.RootsOf, Forest.Roots, TopOrdered, AllPlaced,
        SiblingsOrdered;
    var rows, first := f.Waterfall(), f.Visit(f.Roots(), 0, []);
    assert rows[i] in rows;
    RowOfId(rows, first, i);
  }

  lemma RowOfId(rows: seq<Row>, first: seq<Row>, i: nat)
    requires first <= rows && RowIdsDistinct(rows) && i < |rows| && rows[i].span.id in RowIds(first)
    ensures i < |first| && first[i] == rows[i]
  {
    var r :| r in first && r.span.id == rows[i].span.id;
    var m :| 0 <= m < |first| && first[m] == r;
    assert rows[m] == r;
  }

  /**
   Of two rows under one parent, or two at the top for want of a parent, the earlier one starts no later;
   at the same time it has the lower sequence index; then the id that collates first.
   */
  lemma SiblingsByTime(spans: seq<Span>, rank: Collation, i: nat, k: nat)
    requires spans != [] && i < k < |Rows(spans, rank)|
    requires var rows := Rows(spans, rank);
      || (exists j :: ParentRow(rows, j, i) && ParentRow(rows, j, k))
      || (!Linked(spans, rows[i].span) && !Linked(spans, rows[k].span))
    ensures var x, y := Rows(spans, rank)[i].span, Rows(spans, rank)[k].span;
      && x.startedAt <= y.startedAt
      && (x.startedAt == y.startedAt ==>
          && x.sequenceIndex <= y.sequenceIndex
          && (x.sequenceIndex == y.sequenceIndex ==> rank(x.id) <= rank(y.id)))
  {
    PreparedTrace(spans, rank);
    var f, rows := Waterfall.Prepare(spans, rank), Rows(spans, rank);
    WaterfallWellDrawn(f);
    if exists j :: ParentRow(rows, j, i) && ParentRow(rows, j, k) {
      assert Before(f.ordered, rows[i].span, rows[k].span);
    } else {
      HasParentIff(spans, rank, rows[i].span);
      HasParentIff(spans, rank, rows[k].span);
      RootRowsInOrder(f, i, k);
    }
    SortedBefore(spans, rank, rows[i].span, rows[k].span);
  }
}
