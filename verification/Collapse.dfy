/**
 Collapsing subtrees of the waterfall: one row at a time (collapsedDescendants in
 apps/web/src/lib/spans.ts) and all at once in one pass (hideCollapsedSubtrees in
 apps/web/src/components/Waterfall.tsx).
 */
module Collapse {
  import opened Common
  import opened Spans
  import opened SpanTree

  /** Index of the first row of a span, or -1. */
  function IndexOf(rows: seq<Row>, id: string): (i: int)
    ensures -1 <= i < |rows|
    ensures i == -1 ==> forall k :: 0 <= k < |rows| ==> rows[k].span.id != id
    ensures i >= 0 ==> rows[i].span.id == id && forall k :: 0 <= k < i ==> rows[k].span.id != id
  {
    if rows == [] then -1
    else if rows[0].span.id == id then 0
    else
      var rest := IndexOf(rows[1..], id);
      if rest == -1 then -1 else rest + 1
  }

  /** Ids to hide when one span is collapsed: those of the deeper rows directly after it. */
  ghost function Descendants(rows: seq<Row>, id: string): set<string> {
    var i := IndexOf(rows, id);
    if i == -1 then {} else UnderIds(rows, i)
  }

  method CollapsedDescendants(rows: seq<Row>, id: string) returns (hidden: set<string>)
    ensures hidden == Descendants(rows, id)
  {
    hidden := {};
    var index := IndexOf(rows, id);
    if index == -1 {
      return;
    }
    var i := index + 1;
    while i < |rows| && rows[i].depth > rows[index].depth
      invariant index < i <= |rows|
      invariant forall m :: index < m < i ==> rows[m].depth > rows[index].depth
      invariant hidden == set k | index < k < i :: rows[k].span.id
    {
      hidden := hidden + {rows[i].span.id};
      i := i + 1;
    }
    assert forall k :: index < k < |rows| ==> (Under(rows, index, k) <==> k < i);
  }

  /** Row j starts a collapsed subtree in the one-pass version. */
  predicate Folded(rows: seq<Row>, collapsed: set<string>, j: int)
    requires 0 <= j < |rows|
  {
    rows[j].span.id in collapsed && rows[j].hasChildren
  }

  /** The subtree folded at row j has not been left before row i. */
  ghost predicate Open(rows: seq<Row>, collapsed: set<string>, j: int, i: int) {
    && 0 <= j < i <= |rows|
    && Folded(rows, collapsed, j)
    && forall m :: j < m < i ==> rows[m].depth > rows[j].depth
  }

  /** Indices of the rows inside a folded subtree. */
  ghost function Shadow(rows: seq<Row>, collapsed: set<string>): set<int> {
    set i | 0 <= i < |rows| && Shadowed(rows, collapsed, i)
  }

  ghost predicate Shadowed(rows: seq<Row>, collapsed: set<string>, i: int) {
    exists j :: 0 <= j < |rows| && Folded(rows, collapsed, j) && Under(rows, j, i)
  }

  /** The first n rows without the hidden ones, in order. */
  ghost function Keep(rows: seq<Row>, hidden: set<int>, n: nat): seq<Row>
    requires n <= |rows|
  {
    if n == 0 then []
    else Keep(rows, hidden, n - 1) + if n - 1 in hidden then [] else [rows[n - 1]]
  }

  /** Which folded subtree, if any, row i would continue: the outermost one decides. */
  ghost predicate Outermost(rows: seq<Row>, collapsed: set<string>, i: int, below: Option<nat>) {
    && (below.Some? ==> exists j :: Open(rows, collapsed, j, i) && rows[j].depth == below.value)
    && (forall j :: Open(rows, collapsed, j, i) ==> below.Some? && below.value <= rows[j].depth)
  }

  lemma OutermostStep(rows: seq<Row>, collapsed: set<string>, i: int, below: Option<nat>)
    requires 0 <= i < |rows| && Outermost(rows, collapsed, i, below)
    ensures below.Some? && rows[i].depth > below.value ==> Outermost(rows, collapsed, i + 1, below)
    ensures !(below.Some? && rows[i].depth > below.value) ==>
      Outermost(rows, collapsed, i + 1, if Folded(rows, collapsed, i) then Some(rows[i].depth) else None)
  {
    forall j | Open(rows, collapsed, j, i + 1)
      ensures j == i || (Open(rows, collapsed, j, i) && rows[i].depth > rows[j].depth)
    {
    }
    if below.Some? && rows[i].depth > below.value {
      var j :| Open(rows, collapsed, j, i) && rows[j].depth == below.value;
      assert Open(rows, collapsed, j, i + 1);
    } else if Folded(rows, collapsed, i) {
      assert Open(rows, collapsed, i, i + 1);
    }
  }

  method HideCollapsedSubtrees(rows: seq<Row>, collapsed: set<string>) returns (out: seq<Row>)
    ensures out == Keep(rows, Shadow(rows, collapsed), |rows|)
  {
    out := [];
    var hiddenBelowDepth: Option<nat> := None;
    assert Outermost(rows, collapsed, 0, None);
    hide Outermost, Shadow;
    for i := 0 to |rows|
      invariant Outermost(rows, collapsed, i, hiddenBelowDepth)
      invariant out == Keep(rows, Shadow(rows, collapsed), i)
    {
      var row := rows[i];
      OutermostStep(rows, collapsed, i, hiddenBelowDepth);
      if hiddenBelowDepth.Some? {
        if row.depth > hiddenBelowDepth.value {
          continue;
        }
        hiddenBelowDepth := None;
      }
      out := out + [row];
      if row.span.id in collapsed && row.hasChildren {
        hiddenBelowDepth := Some(row.depth);
      }
    }
  }

  // ----------------------------------------------------------------- agreement of the two

  /** Indices of the rows in the union, over the collapsed spans, of their descendants. */
  ghost function UnionHidden(rows: seq<Row>, collapsed: set<string>): set<int> {
    set i | 0 <= i < |rows| && exists c :: c in collapsed && rows[i].span.id in Descendants(rows, c)
  }

  /** A row followed by a deeper one says it has children. */
  ghost predicate ChildrenDeclared(rows: seq<Row>) {
    forall i :: 0 <= i < |rows| - 1 && rows[i].depth < rows[i + 1].depth ==> rows[i].hasChildren
  }

  lemma ShadowIsUnion(rows: seq<Row>, collapsed: set<string>)
    requires RowIdsDistinct(rows) && ChildrenDeclared(rows)
    ensures Shadow(rows, collapsed) == UnionHidden(rows, collapsed)
  {
    forall i | 0 <= i < |rows|
      ensures i in Shadow(rows, collapsed) <==> i in UnionHidden(rows, collapsed)
    {
      if i in Shadow(rows, collapsed) {
        var j :| 0 <= j < |rows| && Folded(rows, collapsed, j) && Under(rows, j, i);
        assert IndexOf(rows, rows[j].span.id) == j;
        assert rows[i].span.id in Descendants(rows, rows[j].span.id);
      }
      if i in UnionHidden(rows, collapsed) {
        var c :| c in collapsed && rows[i].span.id in Descendants(rows, c);
        var j := IndexOf(rows, c);
        var k :| j < k < |rows| && Under(rows, j, k) && rows[k].span.id == rows[i].span.id;
        assert k == i;
        assert rows[j + 1].depth > rows[j].depth;
        assert Folded(rows, collapsed, j);
      }
    }
  }

  /**
   For rows with distinct ids, one pass hides exactly the union of the per-span descendants,
   whatever is collapsed, if and only if deeper rows only follow rows that declare children.
   */
  lemma OnePassIsUnionIff(rows: seq<Row>)
    requires RowIdsDistinct(rows)
    ensures (forall collapsed :: Shadow(rows, collapsed) == UnionHidden(rows, collapsed)) <==> ChildrenDeclared(rows)
  {
    if ChildrenDeclared(rows) {
      forall collapsed
        ensures Shadow(rows, collapsed) == UnionHidden(rows, collapsed)
      {
        ShadowIsUnion(rows, collapsed);
      }
    } else {
      var i :| 0 <= i < |rows| - 1 && rows[i].depth < rows[i + 1].depth && !rows[i].hasChildren;
      UndeclaredChildrenStay(rows, i);
    }
  }

  /** Collapsing only row i hides the row after it span by span, but not in one pass. */
  lemma UndeclaredChildrenStay(rows: seq<Row>, i: nat)
    requires RowIdsDistinct(rows)
    requires i < |rows| - 1 && rows[i].depth < rows[i + 1].depth && !rows[i].hasChildren
    ensures i + 1 in UnionHidden(rows, {rows[i].span.id})
    ensures i + 1 !in Shadow(rows, {rows[i].span.id})
  {
    var id := rows[i].span.id;
    assert IndexOf(rows, id) == i;
    assert Under(rows, i, i + 1);
    assert rows[i + 1].span.id in Descendants(rows, id);
    forall j | 0 <= j < |rows|
      ensures !Folded(rows, {id}, j)
    {
      assert j == i || rows[j].span.id != id;
    }
  }

  lemma DeeperNextIsChild(f: Forest, rows: seq<Row>, i: nat)
    requires f.start < f.end && Drawn(f, rows)
    requires i + 1 < |rows| && rows[i].depth < rows[i + 1].depth && Hangs(f, rows, 0, i + 1)
    ensures rows[i].hasChildren
  {
    var j :| 0 <= j && ParentRow(rows, j, i + 1) && IsChildOf(rows[i + 1].span, rows[j].span.id);
    assert !(j < i);
    assert rows[i] in rows && rows[i + 1] in rows;
    ChildrenIn(f.ordered, rows[i].span.id);
    assert rows[i + 1].span in f.Children(rows[i].span.id);
  }

  lemma DrawnRowsDeclareChildren(f: Forest)
    requires f.start < f.end
    ensures ChildrenDeclared(f.Waterfall()) && RowIdsDistinct(f.Waterfall())
  {
    WaterfallWellDrawn(f);
    NestedRowsDeclareChildren(f, f.Waterfall());
  }

  lemma NestedRowsDeclareChildren(f: Forest, rows: seq<Row>)
    requires f.start < f.end && Drawn(f, rows) && Nested(f, rows)
    ensures ChildrenDeclared(rows)
  {
    forall i | 0 <= i < |rows| - 1 && rows[i].depth < rows[i + 1].depth
      ensures rows[i].hasChildren
    {
      assert Hangs(f, rows, 0, i + 1);
      DeeperNextIsChild(f, rows, i);
    }
  }

  /**
   On every trace and for every collapsed set, nested ones included, the view hides exactly what
   each collapse hides.
   */
  lemma CollapsingIsExact(f: Forest, collapsed: set<string>)
    requires f.start < f.end
    ensures Shadow(f.Waterfall(), collapsed) == UnionHidden(f.Waterfall(), collapsed)
  {
    DrawnRowsDeclareChildren(f);
    ShadowIsUnion(f.Waterfall(), collapsed);
  }
}
