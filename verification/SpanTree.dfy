/**
 What the rows of a waterfall mean, for any parent links at all: orphans, self-parents, cycles
 and repeated ids included. Every statement is about Forest.Visit, the recursive walk that
 buildWaterfall's explicit stack is proved to perform.
 */
module SpanTree {
  import opened Common
  import opened Spans

  // ----------------------------------------------------------------- vocabulary

  /** Row j is the nearest earlier row one level up from row i. */
  ghost predicate ParentRow(rows: seq<Row>, j: int, i: int) {
    && 0 <= j < i < |rows|
    && rows[j].depth + 1 == rows[i].depth
    && forall k :: j < k < i ==> rows[k].depth >= rows[i].depth
  }

  /** Row k is among the deeper rows that directly follow row i. */
  ghost predicate Under(rows: seq<Row>, i: int, k: int) {
    && 0 <= i < k < |rows|
    && forall m :: i < m <= k ==> rows[m].depth > rows[i].depth
  }

  /** Row i, if not at the top level, hangs under a row at or after `from` that its span names as parent. */
  ghost predicate Hangs(f: Forest, rows: seq<Row>, from: int, i: int) {
    exists j :: from <= j && ParentRow(rows, j, i) && IsChildOf(rows[i].span, rows[j].span.id)
  }

  /** Every child of row i was placed no later than row i, or lies under it. */
  ghost predicate ChildrenPlaced(f: Forest, rows: seq<Row>, i: int)
    requires 0 <= i < |rows|
  {
    forall c :: c in f.Children(rows[i].span.id) ==>
      exists k :: 0 <= k < |rows| && rows[k].span.id == c.id && (k <= i || Under(rows, i, k))
  }

  ghost predicate RowOk(f: Forest, rows: seq<Row>, from: int, depth: nat, spans: seq<Span>, i: int)
    requires f.start < f.end
    requires 0 <= i < |rows|
  {
    && rows[i].span in f.ordered
    && rows[i] == f.RowFor(rows[i].span, rows[i].depth)
    && rows[i].span.id !in RowIds(rows[..i])
    && rows[i].depth >= depth
    && (rows[i].depth == depth ==> rows[i].span in spans)
    && (rows[i].depth > depth ==> Hangs(f, rows, from, i))
  }

  // ----------------------------------------------------------------- one walk, by induction

  ghost predicate Shaped(f: Forest, rows: seq<Row>, from: int, depth: nat, spans: seq<Span>)
    requires f.start < f.end
    requires 0 <= from
  {
    forall i :: from <= i < |rows| ==> RowOk(f, rows, from, depth, spans, i)
  }

  /** Shape of the block one call to Visit appends. */
  lemma {:induction false} VisitShape(f: Forest, spans: seq<Span>, depth: nat, rows: seq<Row>)
    requires f.start < f.end
    requires forall s :: s in spans ==> s in f.ordered
    ensures Shaped(f, f.Visit(spans, depth, rows), |rows|, depth, spans)
    decreases f.Ids() - RowIds(rows), |spans|
  {
    if spans == [] {
    } else if spans[0].id in RowIds(rows) {
      VisitShape(f, spans[1..], depth, rows);
      ShapedWider(f, f.Visit(spans[1..], depth, rows), |rows|, depth, spans);
    } else {
      var placed, below := FirstBlock(f, spans, depth, rows);
      VisitShape(f, f.Children(spans[0].id), depth + 1, placed);
      VisitShape(f, spans[1..], depth, below);
      ShapeJoin(f, spans, depth, rows, placed, below, f.Visit(spans[1..], depth, below));
    }
  }

  lemma ShapedWider(f: Forest, r: seq<Row>, from: nat, depth: nat, spans: seq<Span>)
    requires f.start < f.end && spans != []
    requires Shaped(f, r, from, depth, spans[1..])
    ensures Shaped(f, r, from, depth, spans)
  {
    forall i | from <= i < |r|
      ensures RowOk(f, r, from, depth, spans, i)
    {
      assert RowOk(f, r, from, depth, spans[1..], i);
    }
  }

  lemma ShapeJoin(
    f: Forest, spans: seq<Span>, depth: nat, rows: seq<Row>, placed: seq<Row>, below: seq<Row>, r: seq<Row>)
    requires f.start < f.end && spans != [] && spans[0] in f.ordered && spans[0].id !in RowIds(rows)
    requires placed == rows + [f.RowFor(spans[0], depth)]
    requires placed <= below <= r
    requires Shaped(f, below, |placed|, depth + 1, f.Children(spans[0].id))
    requires Shaped(f, r, |below|, depth, spans[1..])
    ensures Shaped(f, r, |rows|, depth, spans)
  {
    var kids := f.Children(spans[0].id);
    forall i | |rows| <= i < |r|
      ensures RowOk(f, r, |rows|, depth, spans, i)
    {
      if i >= |below| {
        assert RowOk(f, r, |below|, depth, spans[1..], i);
      } else if i > |rows| {
        assert RowOk(f, below, |placed|, depth + 1, kids, i);
        assert r[..i] == below[..i];
        forall k | |rows| < k < |below|
          ensures below[k].depth >= depth + 1
        {
          assert RowOk(f, below, |placed|, depth + 1, kids, k);
        }
        assert below[|rows|] == placed[|rows|];
        BlockRowHangs(f, below, |rows|, depth, i);
      } else {
        assert r[i] == placed[i];
        assert r[..i] == rows;
      }
    }
  }

  /** The three sequences a step of Visit goes through, and how they extend each other. */
  lemma FirstBlock(f: Forest, spans: seq<Span>, depth: nat, rows: seq<Row>)
    returns (placed: seq<Row>, below: seq<Row>)
    requires f.start < f.end
    requires forall s :: s in spans ==> s in f.ordered
    requires spans != [] && spans[0].id !in RowIds(rows)
    ensures placed == rows + [f.RowFor(spans[0], depth)]
    ensures forall c :: c in f.Children(spans[0].id) ==> c in f.ordered && IsChildOf(c, spans[0].id)
    ensures below == f.Visit(f.Children(spans[0].id), depth + 1, placed)
    ensures f.Visit(spans, depth, rows) == f.Visit(spans[1..], depth, below)
    ensures rows <= placed <= below <= f.Visit(spans, depth, rows)
    ensures spans[0].id in f.Ids()
    ensures f.Ids() - RowIds(placed) < f.Ids() - RowIds(rows)
    ensures f.Ids() - RowIds(below) < f.Ids() - RowIds(rows)
  {
    ChildrenIn(f.ordered, spans[0].id);
    placed := rows + [f.RowFor(spans[0], depth)];
    below := f.Visit(f.Children(spans[0].id), depth + 1, placed);
    assert placed[|rows|] in placed;
    assert spans[0].id in RowIds(placed);
    assert spans[0].id in f.Ids();
  }

  /** A row of the block under spans[0] hangs at or below the row of spans[0], which is row `from`. */
  lemma BlockRowHangs(f: Forest, below: seq<Row>, from: nat, depth: nat, i: nat)
    requires f.start < f.end
    requires from < i < |below| && below[from].depth == depth
    requires forall k :: from < k < |below| ==> below[k].depth >= depth + 1
    requires RowOk(f, below, from + 1, depth + 1, f.Children(below[from].span.id), i)
    ensures Hangs(f, below, from, i)
  {
    if below[i].depth > depth + 1 {
    } else {
      ChildrenIn(f.ordered, below[from].span.id);
      assert ParentRow(below, from, i);
    }
  }

  ghost predicate AllPlaced(f: Forest, rows: seq<Row>, from: nat) {
    forall i :: from <= i < |rows| ==> ChildrenPlaced(f, rows, i)
  }

  lemma {:induction false} VisitPlacesChildren(f: Forest, spans: seq<Span>, depth: nat, rows: seq<Row>)
    requires f.start < f.end
    requires forall s :: s in spans ==> s in f.ordered
    ensures AllPlaced(f, f.Visit(spans, depth, rows), |rows|)
    decreases f.Ids() - RowIds(rows), |spans|
  {
    if spans == [] {
    } else if spans[0].id in RowIds(rows) {
      VisitPlacesChildren(f, spans[1..], depth, rows);
    } else {
      var placed, below := FirstBlock(f, spans, depth, rows);
      var kids := f.Children(spans[0].id);
      VisitPlacesChildren(f, kids, depth + 1, placed);
      VisitPlacesChildren(f, spans[1..], depth, below);
      VisitShape(f, kids, depth + 1, placed);
      PlacedJoin(f, spans, depth, rows, placed, below, f.Visit(spans[1..], depth, below));
    }
  }

  lemma PlacedJoin(
    f: Forest, spans: seq<Span>, depth: nat, rows: seq<Row>, placed: seq<Row>, below: seq<Row>, r: seq<Row>)
    requires f.start < f.end && spans != []
    requires placed == rows + [f.RowFor(spans[0], depth)]
    requires placed <= below <= r
    requires Shaped(f, below, |placed|, depth + 1, f.Children(spans[0].id))
    requires forall c :: c in f.Children(spans[0].id) ==> c.id in RowIds(below)
    requires AllPlaced(f, below, |placed|) && AllPlaced(f, r, |below|)
    ensures AllPlaced(f, r, |rows|)
  {
    var kids := f.Children(spans[0].id);
    var i := |rows|;
    assert below[i] == placed[i];
    forall c | c in kids
      ensures exists k :: 0 <= k < |below| && below[k].span.id == c.id && (k <= i || Under(below, i, k))
    {
      assert c.id in RowIds(below);
      var k :| 0 <= k < |below| && below[k].span.id == c.id;
      if k > i {
        forall m | i < m <= k
          ensures below[m].depth > below[i].depth
        {
          assert RowOk(f, below, |placed|, depth + 1, kids, m);
        }
      }
    }
    forall i | |rows| <= i < |r|
      ensures ChildrenPlaced(f, r, i)
    {
      if i < |below| { ChildrenPlacedGrows(f, below, r, i); }
    }
  }

  lemma ChildrenPlacedGrows(f: Forest, a: seq<Row>, b: seq<Row>, i: int)
    requires a <= b && 0 <= i < |a| && ChildrenPlaced(f, a, i)
    ensures ChildrenPlaced(f, b, i)
  {
    forall c | c in f.Children(b[i].span.id)
      ensures exists k :: 0 <= k < |b| && b[k].span.id == c.id && (k <= i || Under(b, i, k))
    {
      var k :| 0 <= k < |a| && a[k].span.id == c.id && (k <= i || Under(a, i, k));
      assert b[k].span.id == c.id;
    }
  }

  // ----------------------------------------------------------------- order of siblings

  ghost predicate SiblingsOrdered(f: Forest, rows: seq<Row>, from: int) {
    forall j, i, k :: from <= j && i < k && ParentRow(rows, j, i) && ParentRow(rows, j, k) ==>
      Before(f.ordered, rows[i].span, rows[k].span)
  }

  ghost predicate TopOrdered(rows: seq<Row>, from: nat, depth: nat, spans: seq<Span>) {
    forall i, k :: from <= i < k < |rows| && rows[i].depth == rows[k].depth == depth ==>
      Before(spans, rows[i].span, rows[k].span)
  }

  lemma {:induction false} ChildrenInOrder(s: seq<Span>, p: string, x: Span, y: Span)
    requires Before(ChildrenOf(s, p), x, y)
    ensures Before(s, x, y)
  {
    var last := |s| - 1;
    var kids := ChildrenOf(s, p);
    var earlier := ChildrenOf(s[..last], p);
    var a, b :| 0 <= a < b < |kids| && kids[a] == x && kids[b] == y;
    if b < |earlier| {
      ChildrenInOrder(s[..last], p, x, y);
      var c, d :| 0 <= c < d < |s[..last]| && s[..last][c] == x && s[..last][d] == y;
      assert s[c] == x && s[d] == y;
    } else {
      ChildrenIn(s[..last], p);
      assert x in s[..last];
      var c :| 0 <= c < |s[..last]| && s[..last][c] == x;
      assert s[c] == x && s[last] == y;
    }
  }

  lemma {:induction false} VisitOrder(f: Forest, spans: seq<Span>, depth: nat, rows: seq<Row>)
    requires f.start < f.end
    requires forall s :: s in spans ==> s in f.ordered
    ensures TopOrdered(f.Visit(spans, depth, rows), |rows|, depth, spans)
    ensures SiblingsOrdered(f, f.Visit(spans, depth, rows), |rows|)
    decreases f.Ids() - RowIds(rows), |spans|
  {
    if spans == [] {
    } else if spans[0].id in RowIds(rows) {
      VisitOrder(f, spans[1..], depth, rows);
    } else {
      var placed, below := FirstBlock(f, spans, depth, rows);
      var kids := f.Children(spans[0].id);
      VisitOrder(f, kids, depth + 1, placed);
      VisitOrder(f, spans[1..], depth, below);
      VisitShape(f, kids, depth + 1, placed);
      VisitShape(f, spans[1..], depth, below);
      var r := f.Visit(spans[1..], depth, below);
      TopJoin(f, spans, depth, rows, placed, below, r);
      SiblingsJoin(f, spans, depth, rows, placed, below, r);
    }
  }

  lemma TopJoin(f: Forest, spans: seq<Span>, depth: nat, rows: seq<Row>, placed: seq<Row>, below: seq<Row>, r: seq<Row>)
    requires f.start < f.end && spans != []
    requires placed == rows + [f.RowFor(spans[0], depth)]
    requires placed <= below <= r
    requires Shaped(f, below, |placed|, depth + 1, f.Children(spans[0].id))
    requires Shaped(f, r, |below|, depth, spans[1..])
    requires TopOrdered(r, |below|, depth, spans[1..])
    ensures TopOrdered(r, |rows|, depth, spans)
  {
    forall x | |rows| < x < |below|
      ensures r[x].depth > depth
    {
      assert RowOk(f, below, |placed|, depth + 1, f.Children(spans[0].id), x);
    }
    forall i, k | |rows| <= i < k < |r| && r[i].depth == r[k].depth == depth
      ensures Before(spans, r[i].span, r[k].span)
    {
      if i == |rows| {
        assert r[i] == placed[i];
        assert RowOk(f, r, |below|, depth, spans[1..], k);
        var b :| 0 <= b < |spans[1..]| && spans[1..][b] == r[k].span;
        assert spans[0] == r[i].span && spans[b + 1] == r[k].span;
      }
    }
  }

  lemma SiblingsJoin(
    f: Forest, spans: seq<Span>, depth: nat, rows: seq<Row>, placed: seq<Row>, below: seq<Row>, r: seq<Row>)
    requires f.start < f.end && spans != []
    requires placed == rows + [f.RowFor(spans[0], depth)]
    requires placed <= below <= r
    requires Shaped(f, below, |placed|, depth + 1, f.Children(spans[0].id))
    requires Shaped(f, r, |below|, depth, spans[1..])
    requires TopOrdered(below, |placed|, depth + 1, f.Children(spans[0].id))
    requires SiblingsOrdered(f, below, |placed|)
    requires SiblingsOrdered(f, r, |below|)
    ensures SiblingsOrdered(f, r, |rows|)
  {
    var kids := f.Children(spans[0].id);
    forall j, i, k | |rows| <= j && i < k && ParentRow(r, j, i) && ParentRow(r, j, k)
      ensures Before(f.ordered, r[i].span, r[k].span)
    {
      if j < |below| {
        if k >= |below| {
          LaterBlockElsewhere(f, spans, depth, rows, placed, below, r, j, k);
        }
        assert ParentRow(below, j, i) && ParentRow(below, j, k);
        if j == |rows| {
          assert below[j] == placed[j];
          ChildrenInOrder(f.ordered, spans[0].id, r[i].span, r[k].span);
        }
      }
    }
  }

  /** A row of a later block has its parent row in that block. */
  lemma LaterBlockElsewhere(
    f: Forest, spans: seq<Span>, depth: nat, rows: seq<Row>, placed: seq<Row>, below: seq<Row>, r: seq<Row>,
    j: int, k: int)
    requires f.start < f.end && spans != []
    requires placed == rows + [f.RowFor(spans[0], depth)]
    requires placed <= below <= r
    requires Shaped(f, below, |placed|, depth + 1, f.Children(spans[0].id))
    requires Shaped(f, r, |below|, depth, spans[1..])
    requires |rows| <= j < |below| <= k < |r|
    ensures !ParentRow(r, j, k)
  {
    assert RowOk(f, r, |below|, depth, spans[1..], k);
    if r[k].depth > depth {
      var j' :| |below| <= j' && ParentRow(r, j', k) && IsChildOf(r[k].span, r[j'].span.id);
    } else if j == |rows| {
      assert r[j] == placed[j];
    } else {
      assert RowOk(f, below, |placed|, depth + 1, f.Children(spans[0].id), j);
      assert r[j] == below[j];
    }
  }

  // ----------------------------------------------------------------- the whole waterfall

  lemma {:induction false} VisitAppend(f: Forest, a: seq<Span>, b: seq<Span>, depth: nat, rows: seq<Row>)
    requires f.start < f.end
    requires forall s :: s in a + b ==> s in f.ordered
    ensures forall s :: s in a ==> s in a + b
    ensures forall s :: s in b ==> s in a + b
    ensures f.Visit(a + b, depth, rows) == f.Visit(b, depth, f.Visit(a, depth, rows))
    decreases f.Ids() - RowIds(rows), |a|
  {
    if a == [] {
      assert a + b == b;
    } else {
      assert (a + b)[0] == a[0];
      assert (a + b)[1..] == a[1..] + b;
      assert a[0] in a + b;
      if a[0].id in RowIds(rows) {
        VisitAppend(f, a[1..], b, depth, rows);
      } else {
        var placed, below := FirstBlock(f, a, depth, rows);
        VisitAppend(f, a[1..], b, depth, below);
        var _, _ := FirstBlock(f, a + b, depth, rows);
      }
    }
  }

  lemma WaterfallIsOneVisit(f: Forest)
    requires f.start < f.end
    ensures forall s :: s in f.Roots() + f.ordered ==> s in f.ordered
    ensures f.Waterfall() == f.Visit(f.Roots() + f.ordered, 0, [])
  {
    f.RootsIn(f.ordered);
    VisitAppend(f, f.Roots(), f.ordered, 0, []);
  }

  ghost predicate RowIdsDistinct(rows: seq<Row>) {
    forall i, j :: 0 <= i < j < |rows| ==> rows[i].span.id != rows[j].span.id
  }

  ghost predicate Drawn(f: Forest, rows: seq<Row>)
    requires f.start < f.end
  {
    forall r :: r in rows ==> r.span in f.ordered && r == f.RowFor(r.span, r.depth)
  }

  ghost predicate Nested(f: Forest, rows: seq<Row>) {
    forall i :: 0 <= i < |rows| && rows[i].depth > 0 ==> Hangs(f, rows, 0, i)
  }

  /** Everything the drawing promises about its rows, for any spans whatever. */
  ghost predicate WellDrawn(f: Forest, rows: seq<Row>)
    requires f.start < f.end
  {
    // Each id of the trace gets exactly one row, drawn from a span of the trace.
    && RowIds(rows) == f.Ids()
    && RowIdsDistinct(rows)
    && Drawn(f, rows)
    // A nested row hangs under the nearest earlier row one level up, which is its parent.
    && Nested(f, rows)
    // Children are never lost to another part of the drawing that comes later.
    && AllPlaced(f, rows, 0)
    // Rows under one parent follow start order.
    && SiblingsOrdered(f, rows, 0)
  }

  lemma ShapedDistinct(f: Forest, rows: seq<Row>, spans: seq<Span>)
    requires f.start < f.end && Shaped(f, rows, 0, 0, spans)
    ensures RowIdsDistinct(rows)
  {
    forall i, j | 0 <= i < j < |rows|
      ensures rows[i].span.id != rows[j].span.id
    {
      assert RowOk(f, rows, 0, 0, spans, j);
      assert rows[..j][i] == rows[i];
      assert rows[i] in rows[..j];
    }
  }

  lemma ShapedDrawn(f: Forest, rows: seq<Row>, spans: seq<Span>)
    requires f.start < f.end && Shaped(f, rows, 0, 0, spans)
    ensures Drawn(f, rows) && Nested(f, rows)
  {
    forall i | 0 <= i < |rows|
      ensures rows[i].span in f.ordered && rows[i] == f.RowFor(rows[i].span, rows[i].depth)
      ensures rows[i].depth > 0 ==> Hangs(f, rows, 0, i)
    {
      assert RowOk(f, rows, 0, 0, spans, i);
    }
  }

  lemma DrawsAllIds(f: Forest, rows: seq<Row>)
    requires f.start < f.end && Drawn(f, rows)
    requires forall s :: s in f.ordered ==> s.id in RowIds(rows)
    ensures RowIds(rows) == f.Ids()
  {
    forall r | r in rows
      ensures r.span.id in f.Ids()
    {
    }
  }

  lemma WaterfallWellDrawn(f: Forest)
    requires f.start < f.end
    ensures WellDrawn(f, f.Waterfall())
    ensures TopOrdered(f.Waterfall(), 0, 0, f.Roots() + f.ordered)
  {
    WaterfallIsOneVisit(f);
    var spans := f.Roots() + f.ordered;
    VisitShape(f, spans, 0, []);
    VisitPlacesChildren(f, spans, 0, []);
    VisitOrder(f, spans, 0, []);
    ShapedDistinct(f, f.Waterfall(), spans);
    ShapedDrawn(f, f.Waterfall(), spans);
    assert forall s :: s in f.ordered ==> s in spans;
    DrawsAllIds(f, f.Waterfall());
  }

  // ----------------------------------------------------------------- subtrees

  /** a's parent link names b, and b is in the trace. */
  ghost predicate Link(f: Forest, a: string, b: string) {
    b in f.Ids() && exists s :: s in f.ordered && s.id == a && IsChildOf(s, b)
  }

  /** A chain of child links from v down to w, at least one link long, avoiding some ids below v. */
  ghost predicate Chain(f: Forest, path: seq<string>, v: string, w: string, avoid: set<string>) {
    && |path| >= 2
    && path[0] == v
    && path[|path| - 1] == w
    && forall k :: 0 < k < |path| ==> Link(f, path[k], path[k - 1]) && path[k] !in avoid
  }

  ghost predicate Descends(f: Forest, w: string, v: string, avoid: set<string>) {
    exists path :: Chain(f, path, v, w, avoid)
  }

  ghost predicate Acyclic(f: Forest) {
    forall v :: !Descends(f, v, v, {})
  }

  /** Row ids under row i. */
  ghost function UnderIds(rows: seq<Row>, i: int): set<string>
    requires 0 <= i < |rows|
  {
    set k | i < k < |rows| && Under(rows, i, k) :: rows[k].span.id
  }

  lemma ChainExtend(f: Forest, path: seq<string>, v: string, u: string, w: string, avoid: set<string>)
    requires Chain(f, path, v, u, avoid) && Link(f, w, u) && w !in avoid
    ensures Chain(f, path + [w], v, w, avoid)
  {
    var long := path + [w];
    forall k | 0 < k < |long|
      ensures Link(f, long[k], long[k - 1]) && long[k] !in avoid
    {
      if k < |path| { assert Link(f, path[k], path[k - 1]); }
    }
  }

  lemma ChildLandsUnder(f: Forest, rows: seq<Row>, i: int, j: int, w: string)
    requires AllPlaced(f, rows, 0)
    requires 0 <= i < |rows| && (j == i || Under(rows, i, j))
    requires Link(f, w, rows[j].span.id) && w !in RowIds(rows[..i + 1])
    ensures w in UnderIds(rows, i)
  {
    var s :| s in f.ordered && s.id == w && IsChildOf(s, rows[j].span.id);
    ChildrenIn(f.ordered, rows[j].span.id);
    assert ChildrenPlaced(f, rows, j);
    var k :| 0 <= k < |rows| && rows[k].span.id == s.id && (k <= j || Under(rows, j, k));
    forall m | 0 <= m <= i
      ensures rows[m].span.id in RowIds(rows[..i + 1])
    {
      assert rows[..i + 1][m] == rows[m];
    }
    assert Under(rows, i, k);
  }

  lemma {:induction false} ChainLandsUnder(f: Forest, rows: seq<Row>, i: int, path: seq<string>, w: string)
    requires AllPlaced(f, rows, 0)
    requires 0 <= i < |rows| && Chain(f, path, rows[i].span.id, w, RowIds(rows[..i + 1]))
    ensures w in UnderIds(rows, i)
    decreases |path|
  {
    var n := |path| - 1;
    assert Link(f, path[n], path[n - 1]);
    if n == 1 {
      ChildLandsUnder(f, rows, i, i, w);
    } else {
      ChainLandsUnder(f, rows, i, path[..n], path[n - 1]);
      var j :| i < j < |rows| && Under(rows, i, j) && rows[j].span.id == path[n - 1];
      ChildLandsUnder(f, rows, i, j, w);
    }
  }

  lemma {:induction false} UnderHasChain(f: Forest, rows: seq<Row>, i: int, k: int) returns (path: seq<string>)
    requires RowIdsDistinct(rows) && Nested(f, rows) && RowIds(rows) == f.Ids()
    requires forall r :: r in rows ==> r.span in f.ordered
    requires Under(rows, i, k)
    ensures Chain(f, path, rows[i].span.id, rows[k].span.id, RowIds(rows[..i + 1]))
    decreases k
  {
    assert Hangs(f, rows, 0, k);
    var j :| 0 <= j && ParentRow(rows, j, k) && IsChildOf(rows[k].span, rows[j].span.id);
    assert rows[k] in rows && rows[j] in rows;
    assert rows[j].span.id in RowIds(rows);
    assert Link(f, rows[k].span.id, rows[j].span.id);
    if j == i {
      path := [rows[i].span.id, rows[k].span.id];
    } else {
      var up := UnderHasChain(f, rows, i, j);
      ChainExtend(f, up, rows[i].span.id, rows[j].span.id, rows[k].span.id, RowIds(rows[..i + 1]));
      path := up + [rows[k].span.id];
    }
  }

  /**
   The rows directly under a row are exactly the spans a chain of child links reaches from it
   without passing through anything placed up to that row. True of every input, cycles included.
   */
  lemma SubtreeIsUnplacedDescendants(f: Forest, i: int, w: string)
    requires f.start < f.end
    requires 0 <= i < |f.Waterfall()|
    ensures var rows := f.Waterfall();
      w in UnderIds(rows, i) <==> Descends(f, w, rows[i].span.id, RowIds(rows[..i + 1]))
  {
    var rows := f.Waterfall();
    WaterfallWellDrawn(f);
    if w in UnderIds(rows, i) {
      var k :| i < k < |rows| && Under(rows, i, k) && rows[k].span.id == w;
      var path := UnderHasChain(f, rows, i, k);
    }
    if Descends(f, w, rows[i].span.id, RowIds(rows[..i + 1])) {
      var path :| Chain(f, path, rows[i].span.id, w, RowIds(rows[..i + 1]));
      ChainLandsUnder(f, rows, i, path, w);
    }
  }

  // ----------------------------------------------------------------- acyclic parent links

  ghost predicate DistinctIds(spans: seq<Span>) {
    forall i, j :: 0 <= i < j < |spans| ==> spans[i].id != spans[j].id
  }

  /** Under every row lie exactly its transitive descendants. */
  ghost predicate SubtreesExact(f: Forest, rows: seq<Row>) {
    forall i, w :: 0 <= i < |rows| ==>
      (w in UnderIds(rows, i) <==> Descends(f, w, rows[i].span.id, {}))
  }

  ghost predicate Linked(f: Forest, path: seq<string>) {
    forall k :: 0 < k < |path| ==> Link(f, path[k], path[k - 1])
  }

  lemma LoopCloses(f: Forest, path: seq<string>, m: nat)
    requires 0 < m < |path| && Linked(f, path) && path[m] == path[0]
    ensures !Acyclic(f)
  {
    var loop := path[..m + 1];
    forall k | 0 < k < |loop|
      ensures Link(f, loop[k], loop[k - 1])
    {
      assert Link(f, path[k], path[k - 1]);
    }
    assert Chain(f, loop, path[0], path[0], {});
    assert Descends(f, path[0], path[0], {});
  }

  /** Some id that a span named a links up to. */
  ghost function LinkOf(f: Forest, a: string): (b: string)
    ensures (exists p :: Link(f, a, p)) ==> Link(f, a, b)
  {
    if exists p :: Link(f, a, p) then
      var p :| Link(f, a, p);
      p
    else
      ""
  }

  ghost predicate Climbs(f: Forest, u: set<string>) {
    forall a {:trigger LinkOf(f, a)} :: a in u ==> LinkOf(f, a) in u && Link(f, a, LinkOf(f, a))
  }

  /** Climbing parent links for ever inside a finite set comes back to where it was. */
  lemma {:induction false} ClimbFindsCycle(f: Forest, u: set<string>, path: seq<string>)
    requires Climbs(f, u)
    requires path != [] && Distinct(path) && (forall a :: a in path ==> a in u)
    requires Linked(f, path)
    ensures !Acyclic(f)
    decreases |u| - |path|
  {
    var top := path[0];
    assert top in u;
    var p := LinkOf(f, top);
    var longer := [p] + path;
    if p in path {
      var m :| 0 <= m < |path| && path[m] == p;
      assert longer[m + 1] == p;
      LoopCloses(f, longer, m + 1);
    } else {
      SetOfSeqSize(longer);
      SubsetSize((set a | a in longer), u);
      ClimbFindsCycle(f, u, longer);
    }
  }

  lemma {:induction false} SubsetSize<T>(a: set<T>, b: set<T>)
    requires a <= b
    ensures |a| <= |b|
  {
    assert b == a + (b - a);
    assert |a + (b - a)| == |a| + |b - a|;
  }

  /** A span no root walk reaches links up only to spans no root walk reaches, and does link up. */
  lemma UnreachedClimb(f: Forest)
    requires f.start < f.end
    ensures forall s :: s in f.Roots() ==> s in f.ordered
    ensures Climbs(f, f.Ids() - RowIds(f.Visit(f.Roots(), 0, [])))
  {
    f.RootsIn(f.ordered);
    var rows := f.Visit(f.Roots(), 0, []);
    VisitPlacesChildren(f, f.Roots(), 0, []);
    forall a | a in f.Ids() - RowIds(rows)
      ensures LinkOf(f, a) in f.Ids() - RowIds(rows) && Link(f, a, LinkOf(f, a))
    {
      var s :| s in f.ordered && s.id == a;
      assert f.HasParent(s);
      assert Link(f, a, s.parent.value);
      UnreachedParent(f, rows, a, LinkOf(f, a));
    }
  }

  lemma UnreachedParent(f: Forest, rows: seq<Row>, a: string, b: string)
    requires AllPlaced(f, rows, 0) && a !in RowIds(rows) && Link(f, a, b)
    ensures b !in RowIds(rows)
  {
    ChildrenIn(f.ordered, b);
    if b in RowIds(rows) {
      var r :| r in rows && r.span.id == b;
      var i :| 0 <= i < |rows| && rows[i] == r;
      ChildIsPlaced(f, rows, a, i);
    }
  }

  lemma ChildIsPlaced(f: Forest, rows: seq<Row>, a: string, i: nat)
    requires i < |rows| && ChildrenPlaced(f, rows, i) && Link(f, a, rows[i].span.id)
    ensures a in RowIds(rows)
  {
    ChildrenIn(f.ordered, rows[i].span.id);
    var s :| s in f.ordered && s.id == a && IsChildOf(s, rows[i].span.id);
    var k :| 0 <= k < |rows| && rows[k].span.id == s.id;
    assert rows[k] in rows;
  }

  lemma RootsReachAll(f: Forest)
    requires f.start < f.end && Acyclic(f)
    ensures forall s :: s in f.Roots() ==> s in f.ordered
    ensures f.Ids() <= RowIds(f.Visit(f.Roots(), 0, []))
  {
    UnreachedClimb(f);
    var u := f.Ids() - RowIds(f.Visit(f.Roots(), 0, []));
    if u != {} {
      var a :| a in u;
      ClimbFindsCycle(f, u, [a]);
    }
    assert u == {};
    forall a | a in f.Ids()
      ensures a in RowIds(f.Visit(f.Roots(), 0, []))
    {
      assert a !in u;
    }
  }

  /** Without cycles the second pass, over spans no root reaches, finds nothing to do. */
  lemma AcyclicIsRootsOnly(f: Forest)
    requires f.start < f.end && Acyclic(f)
    ensures forall s :: s in f.Roots() ==> s in f.ordered
    ensures f.Waterfall() == f.Visit(f.Roots(), 0, [])
  {
    RootsReachAll(f);
    forall s | s in f.ordered
      ensures s.id in f.Ids()
    {
    }
    VisitNothingNew(f, f.ordered, 0, f.Visit(f.Roots(), 0, []));
  }

  lemma {:induction false} VisitNothingNew(f: Forest, spans: seq<Span>, depth: nat, rows: seq<Row>)
    requires f.start < f.end
    requires forall s :: s in spans ==> s in f.ordered && s.id in RowIds(rows)
    ensures f.Visit(spans, depth, rows) == rows
    decreases |spans|
  {
    if spans != [] {
      VisitNothingNew(f, spans[1..], depth, rows);
    }
  }

  /** Every parent is drawn above its child. */
  ghost predicate ParentsAbove(f: Forest, rows: seq<Row>) {
    forall k, b :: 0 <= k < |rows| && Link(f, rows[k].span.id, b) ==>
      exists j :: 0 <= j < k && rows[j].span.id == b
  }

  lemma AcyclicParentsAbove(f: Forest)
    requires f.start < f.end && DistinctIds(f.ordered) && Acyclic(f)
    ensures ParentsAbove(f, f.Waterfall())
  {
    var rows := f.Waterfall();
    AcyclicIsRootsOnly(f);
    VisitShape(f, f.Roots(), 0, []);
    f.RootsIn(f.ordered);
    forall k, b | 0 <= k < |rows| && Link(f, rows[k].span.id, b)
      ensures exists j :: 0 <= j < k && rows[j].span.id == b
    {
      assert RowOk(f, rows, 0, 0, f.Roots(), k);
      var s :| s in f.ordered && s.id == rows[k].span.id && IsChildOf(s, b);
      assert f.HasParent(s);
      var j :| 0 <= j && ParentRow(rows, j, k) && IsChildOf(rows[k].span, rows[j].span.id);
    }
  }

  lemma {:induction false} ChainGoesDown(
    f: Forest, rows: seq<Row>, i: int, path: seq<string>, w: string) returns (k: int)
    requires RowIdsDistinct(rows) && RowIds(rows) == f.Ids() && ParentsAbove(f, rows)
    requires 0 <= i < |rows| && Chain(f, path, rows[i].span.id, w, {})
    ensures i < k < |rows| && rows[k].span.id == w
    ensures Chain(f, path, rows[i].span.id, w, RowIds(rows[..i + 1]))
    decreases |path|
  {
    var n := |path| - 1;
    assert Link(f, w, path[n - 1]);
    var parent := i;
    if n > 1 {
      parent := ChainGoesDown(f, rows, i, path[..n], path[n - 1]);
    }
    k := RowOf(f, rows, w, path[n - 1]);
    var j :| 0 <= j < k && rows[j].span.id == path[n - 1];
    assert j == parent;
    forall m | 0 < m < |path|
      ensures Link(f, path[m], path[m - 1]) && path[m] !in RowIds(rows[..i + 1])
    {
      if m < n { assert path[..n][m] == path[m]; }
    }
  }

  lemma RowOf(f: Forest, rows: seq<Row>, w: string, p: string) returns (k: int)
    requires RowIds(rows) == f.Ids() && Link(f, w, p)
    ensures 0 <= k < |rows| && rows[k].span.id == w
  {
    var s :| s in f.ordered && s.id == w && IsChildOf(s, p);
    assert w in RowIds(rows);
    var r :| r in rows && r.span.id == w;
    k :| 0 <= k < |rows| && rows[k] == r;
  }

  /**
   The deeper rows directly after each row are exactly its descendants if and only if no parent link
   closes a cycle.
   */
  lemma SubtreesExactIffAcyclic(f: Forest)
    requires f.start < f.end && DistinctIds(f.ordered)
    ensures SubtreesExact(f, f.Waterfall()) <==> Acyclic(f)
  {
    var rows := f.Waterfall();
    WaterfallWellDrawn(f);
    if Acyclic(f) {
      AcyclicParentsAbove(f);
      forall i, w | 0 <= i < |rows|
        ensures w in UnderIds(rows, i) <==> Descends(f, w, rows[i].span.id, {})
      {
        SubtreeIsUnplacedDescendants(f, i, w);
        if Descends(f, w, rows[i].span.id, {}) {
          var path :| Chain(f, path, rows[i].span.id, w, {});
          var k := ChainGoesDown(f, rows, i, path, w);
        }
        if w in UnderIds(rows, i) {
          var path :| Chain(f, path, rows[i].span.id, w, RowIds(rows[..i + 1]));
          assert Chain(f, path, rows[i].span.id, w, {});
        }
      }
    } else {
      var v :| Descends(f, v, v, {});
      SelfDescendantInTrace(f, v);
      var r :| r in rows && r.span.id == v;
      var i :| 0 <= i < |rows| && rows[i] == r;
      assert v !in UnderIds(rows, i);
    }
  }

  lemma SelfDescendantInTrace(f: Forest, v: string)
    requires Descends(f, v, v, {})
    ensures v in f.Ids()
  {
    var path :| Chain(f, path, v, v, {});
    assert Link(f, path[1], path[0]);
  }

  // ----------------------------------------------------------------- one row per span, and where it is drawn

  function RowSpans(rows: seq<Row>): seq<Span> {
    seq(|rows|, i requires 0 <= i < |rows| => rows[i].span)
  }

  /** Every span is drawn exactly once if and only if the trace repeats no id. */
  lemma EachSpanOnceIffDistinct(f: Forest)
    requires f.start < f.end
    ensures multiset(RowSpans(f.Waterfall())) == multiset(f.ordered) <==> DistinctIds(f.ordered)
  {
    var rows := f.Waterfall();
    WaterfallWellDrawn(f);
    if DistinctIds(f.ordered) {
      DistinctSpansOnce(f, rows);
    } else {
      var i, j :| 0 <= i < j < |f.ordered| && f.ordered[i].id == f.ordered[j].id;
      RepeatNotDrawn(f, rows, i, j);
    }
  }

  lemma DistinctSpansOnce(f: Forest, rows: seq<Row>)
    requires f.start < f.end && WellDrawn(f, rows) && DistinctIds(f.ordered)
    ensures multiset(RowSpans(rows)) == multiset(f.ordered)
  {
    var drawn := RowSpans(rows);
    assert Distinct(drawn) && Distinct(f.ordered);
    forall x
      ensures multiset(drawn)[x] == multiset(f.ordered)[x]
    {
      DistinctCount(drawn, x);
      DistinctCount(f.ordered, x);
      if x in f.ordered { DrawnById(f, rows, x); }
      if x in drawn {
        var i :| 0 <= i < |drawn| && drawn[i] == x;
        assert rows[i] in rows;
      }
    }
  }

  lemma DrawnById(f: Forest, rows: seq<Row>, x: Span)
    requires f.start < f.end && WellDrawn(f, rows) && DistinctIds(f.ordered) && x in f.ordered
    ensures x in RowSpans(rows)
  {
    hide Nested, AllPlaced, SiblingsOrdered, RowIdsDistinct;
    assert x.id in RowIds(rows);
    var r :| r in rows && r.span.id == x.id;
    var k :| 0 <= k < |rows| && rows[k] == r;
    assert RowSpans(rows)[k] == x;
  }

  lemma RepeatNotDrawn(f: Forest, rows: seq<Row>, i: int, j: int)
    requires RowIdsDistinct(rows)
    requires 0 <= i < j < |f.ordered| && f.ordered[i].id == f.ordered[j].id
    ensures multiset(RowSpans(rows)) != multiset(f.ordered)
  {
    var drawn := RowSpans(rows);
    var x, y := f.ordered[i], f.ordered[j];
    if x == y {
      RepeatedCount(f.ordered, i, j);
      assert Distinct(drawn);
      DistinctCount(drawn, x);
    } else {
      assert x in multiset(f.ordered) && y in multiset(f.ordered);
      forall a, b | 0 <= a < |drawn| && 0 <= b < |drawn|
        ensures !(drawn[a] == x && drawn[b] == y)
      {
      }
      assert x !in drawn || y !in drawn;
      assert x !in multiset(drawn) || y !in multiset(drawn);
    }
  }

  /** A bar's share of the drawing, once clamped and once floored at the visible minimum. */
  lemma BarShare(x: real, unit: real)
    requires unit > 0.0
    ensures 0.0 <= Clamp(x / unit) <= 1.0
    ensures 0.0 <= x <= unit ==>
      var share := Clamp(x / unit);
      share * unit == x && (share <= MIN_VISIBLE_WIDTH ==> x <= MIN_VISIBLE_WIDTH * unit)
  {
    if 0.0 <= x <= unit {
      FractionOf(x, unit);
      ShareAtMost(Clamp(x / unit), unit, MIN_VISIBLE_WIDTH);
    }
  }

  lemma ShareAtMost(share: real, unit: real, least: real)
    requires unit > 0.0
    ensures share <= least ==> share * unit <= least * unit
  {
    if share <= least { assert (least - share) * unit >= 0.0; }
  }

  lemma FractionOf(x: real, unit: real)
    requires 0.0 <= x <= unit && unit > 0.0
    ensures Clamp(x / unit) * unit == x
  {
    assert x / unit * unit == x;
    assert 0.0 <= x / unit <= 1.0;
  }

  /** Bars stay inside the drawing, and a span that ended no earlier than it began is drawn to scale. */
  lemma BarsToScale(f: Forest, s: Span, depth: nat)
    requires f.start < f.end
    ensures var r := f.RowFor(s, depth); 0.0 <= r.offset <= 1.0 && MIN_VISIBLE_WIDTH <= r.width <= 1.0
    ensures
      var r, unit := f.RowFor(s, depth), (f.end - f.start) as real;
      f.start <= s.startedAt <= f.end && (s.endedAt.Some? ==> s.startedAt <= s.endedAt.value <= f.end) ==>
        && r.offset * unit == (s.startedAt - f.start) as real
        && (r.width > MIN_VISIBLE_WIDTH ==> r.width * unit == (Or(s.endedAt, f.end) - s.startedAt) as real)
        && (r.width == MIN_VISIBLE_WIDTH ==> (Or(s.endedAt, f.end) - s.startedAt) as real <= MIN_VISIBLE_WIDTH * unit)
  {
    hide Clamp, Forest.RowFor;
    var unit, from, length :=
      (f.end - f.start) as real, (s.startedAt - f.start) as real, (Or(s.endedAt, f.end) - s.startedAt) as real;
    RowShares(f, s, depth, unit, from, length);
    BarShare(from, unit);
    BarShare(length, unit);
  }

  lemma RowShares(f: Forest, s: Span, depth: nat, unit: real, from: real, length: real)
    requires f.start < f.end && unit == (f.end - f.start) as real
    requires from == (s.startedAt - f.start) as real && length == (Or(s.endedAt, f.end) - s.startedAt) as real
    ensures var r := f.RowFor(s, depth);
      r.offset == Clamp(from / unit) && r.width == MaxReal(MIN_VISIBLE_WIDTH, Clamp(length / unit))
  {
  }
}
