/** Self time of a span: its duration less the time its children account for (apps/web/src/lib/spans.ts). */
module SelfTime {
  import opened Common
  import opened Sorting
  import opened Spans

  datatype Interval = Interval(from: int, to: int)

  function ChildInterval(c: Span): Interval {
    Interval(c.startedAt, SpanEnd(c))
  }

  function IntervalsOf(spans: seq<Span>, id: string): seq<Interval> {
    if spans == [] then []
    else (if spans[0].parent == Some(id) then [ChildInterval(spans[0])] else []) + IntervalsOf(spans[1..], id)
  }

  function Range(from: int, upTo: int): (r: set<int>)
    ensures forall t :: t in r <==> from <= t < upTo
    ensures |r| == Max(0, upTo - from)
    decreases Max(0, upTo - from)
  {
    if from >= upTo then {}
    else
      var below := Range(from, upTo - 1);
      assert upTo - 1 !in below;
      below + {upTo - 1}
  }

  /** Milliseconds inside at least one of the intervals. An interval that ends before it starts covers none. */
  ghost function Covered(xs: seq<Interval>): set<int> {
    if xs == [] then {}
    else
      var last := |xs| - 1;
      Covered(xs[..last]) + Range(xs[last].from, xs[last].to)
  }

  lemma {:induction false} CoveredIs(xs: seq<Interval>, t: int)
    ensures t in Covered(xs) <==> exists x :: x in xs && x.from <= t < x.to
  {
    if xs != [] {
      var last := |xs| - 1;
      CoveredIs(xs[..last], t);
      assert xs == xs[..last] + [xs[last]];
    }
  }

  /** Some interval starting no later than `from` reaches the cursor, and all of it is covered. */
  ghost predicate Reaches(xs: seq<Interval>, cursor: int, covered: set<int>) {
    exists x :: x in xs && x.to == cursor && Range(x.from, x.to) <= covered
  }

  /** The sweep's state: everything covered ends by the cursor, which some earlier interval reaches. */
  ghost predicate Swept(xs: seq<Interval>, cursor: Option<int>) {
    if cursor.None? then Covered(xs) == {}
    else Reaches(xs, cursor.value, Covered(xs)) && forall t :: t in Covered(xs) ==> t < cursor.value
  }

  /** What the next interval overlaps of the past is already covered. */
  lemma OverlapCovered(xs: seq<Interval>, next: Interval, cursor: int)
    requires Reaches(xs, cursor, Covered(xs))
    requires forall x :: x in xs ==> x.from <= next.from
    ensures Range(next.from, cursor) <= Covered(xs)
  {
    var x :| x in xs && x.to == cursor && Range(x.from, x.to) <= Covered(xs);
    assert Range(next.from, cursor) <= Range(x.from, x.to);
  }

  /** Where the sweep starts counting the next interval. */
  function CountFrom(next: Interval, cursor: Option<int>): int {
    if cursor.Some? then Max(next.from, cursor.value) else next.from
  }

  lemma CoveredGrows(xs: seq<Interval>, next: Interval, cursor: Option<int>)
    requires Swept(xs, cursor)
    requires forall x :: x in xs ==> x.from <= next.from
    ensures Covered(xs + [next]) == Covered(xs) + Range(CountFrom(next, cursor), next.to)
    ensures Covered(xs) !! Range(CountFrom(next, cursor), next.to)
  {
    var ys := xs + [next];
    assert ys[..|xs|] == xs;
    if cursor.Some? {
      OverlapCovered(xs, next, cursor.value);
    }
  }

  /** One step of the sweep, on intervals sorted by start. */
  lemma SweepStep(xs: seq<Interval>, next: Interval, cursor: Option<int>)
    requires Swept(xs, cursor)
    requires forall x :: x in xs ==> x.from <= next.from
    ensures |Covered(xs + [next])| == |Covered(xs)| + Max(0, next.to - CountFrom(next, cursor))
    ensures Swept(xs + [next], if next.to > CountFrom(next, cursor) then Some(next.to) else cursor)
  {
    var ys := xs + [next];
    CoveredGrows(xs, next, cursor);
    assert ys[|xs|] == next;
    if next.to > CountFrom(next, cursor) {
      assert Range(next.from, next.to) <= Covered(ys) by {
        assert ys[..|xs|] == xs;
      }
      assert Reaches(ys, next.to, Covered(ys));
    } else {
      assert Covered(ys) == Covered(xs);
      if cursor.Some? {
        var x :| x in xs && x.to == cursor.value && Range(x.from, x.to) <= Covered(xs);
        assert x in ys;
      }
    }
  }

  /** The order the intervals are swept in. */
  function ByStart(): (Interval, Interval) -> bool {
    (a: Interval, b: Interval) => a.from <= b.from
  }

  lemma StartsBefore(sorted: seq<Interval>, i: nat)
    requires SortedBy(sorted, ByStart()) && i < |sorted|
    ensures forall x :: x in sorted[..i] ==> x.from <= sorted[i].from
  {
    forall x | x in sorted[..i]
      ensures x.from <= sorted[i].from
    {
      var k :| 0 <= k < i && sorted[k] == x;
      assert ByStart()(sorted[k], sorted[i]);
    }
  }

  lemma NothingSwept()
    ensures Swept([], None) && Covered([]) == {}
  {
  }

  method Sweep(sorted: seq<Interval>) returns (covered: int)
    requires SortedBy(sorted, ByStart())
    ensures covered == |Covered(sorted)|
  {
    hide Swept, Covered, SortedBy;
    covered := 0;
    var cursor: Option<int> := None;
    NothingSwept();
    for i := 0 to |sorted|
      invariant covered == |Covered(sorted[..i])|
      invariant Swept(sorted[..i], cursor)
    {
      var interval := sorted[i];
      assert sorted[..i + 1] == sorted[..i] + [interval];
      StartsBefore(sorted, i);
      SweepStep(sorted[..i], interval, cursor);
      var from := CountFrom(interval, cursor);
      if interval.to > from {
        covered := covered + (interval.to - from);
        cursor := Some(interval.to);
      }
    }
    assert sorted[..|sorted|] == sorted;
  }

  /** Milliseconds of the trace during which at least one child of the span ran. */
  ghost predicate Busy(spans: seq<Span>, id: string, t: int) {
    exists c :: c in spans && c.parent == Some(id) && c.startedAt <= t && c.endedAt.Some? && t < c.endedAt.value
  }

  lemma {:induction false} IntervalsIn(spans: seq<Span>, id: string)
    ensures forall x ::
      x in IntervalsOf(spans, id) <==> exists c :: c in spans && c.parent == Some(id) && x == ChildInterval(c)
  {
    if spans != [] {
      IntervalsIn(spans[1..], id);
      assert spans == [spans[0]] + spans[1..];
    }
  }

  /** The milliseconds of the trace during which at least one child of the span was running. */
  ghost function BusyTime(spans: seq<Span>, id: string): set<int> {
    Covered(IntervalsOf(spans, id))
  }

  /** Which milliseconds those are depends on which spans there are, not on their order. */
  lemma BusyTimeIs(spans: seq<Span>, id: string, t: int)
    ensures t in BusyTime(spans, id) <==> Busy(spans, id, t)
  {
    IntervalsIn(spans, id);
    CoveredIs(IntervalsOf(spans, id), t);
    if Busy(spans, id, t) {
      var c :| c in spans && c.parent == Some(id) && c.startedAt <= t && c.endedAt.Some? && t < c.endedAt.value;
      assert ChildInterval(c) in IntervalsOf(spans, id);
    }
  }

  lemma CoveredSameMembers(a: seq<Interval>, b: seq<Interval>)
    requires forall x :: x in a <==> x in b
    ensures Covered(a) == Covered(b)
  {
    forall t
      ensures t in Covered(a) <==> t in Covered(b)
    {
      CoveredIs(a, t);
      CoveredIs(b, t);
    }
  }

  /**
   The time subtracted is the number of milliseconds some child was running: overlapping
   children count once, and the result stays between zero and the span's own duration.
   */
  method SelfTimeMs(span: Span, spans: seq<Span>) returns (r: Option<int>)
    ensures r == if span.durationMs.None? then None
                 else if forall c :: c in spans ==> c.parent != Some(span.id) then span.durationMs
                 else Some(Max(0, span.durationMs.value - |BusyTime(spans, span.id)|))
    ensures r.Some? && span.durationMs.value >= 0 ==> 0 <= r.value <= span.durationMs.value
  {
    if span.durationMs.None? {
      return None;
    }
    hide *;
    var intervals := IntervalsOf(spans, span.id);
    NoChildren(spans, span.id);
    if |intervals| == 0 {
      return span.durationMs;
    }
    var sorted := StableSort(intervals, ByStart());
    SweepOrder(intervals);
    var covered := Sweep(sorted);
    SelfTimeRange(span.durationMs.value, spans, span.id);
    r := Some(Max(0, span.durationMs.value - covered));
  }

  lemma SelfTimeRange(duration: int, spans: seq<Span>, id: string)
    ensures BusyTime(spans, id) == Covered(IntervalsOf(spans, id))
    ensures duration >= 0 ==> 0 <= Max(0, duration - |BusyTime(spans, id)|) <= duration
  {
  }

  lemma NoChildren(spans: seq<Span>, id: string)
    ensures IntervalsOf(spans, id) == [] <==> forall c :: c in spans ==> c.parent != Some(id)
  {
    IntervalsIn(spans, id);
    var intervals := IntervalsOf(spans, id);
    if intervals != [] {
      assert intervals[0] in intervals;
    } else {
      forall c | c in spans && c.parent == Some(id)
        ensures ChildInterval(c) in intervals
      {
      }
    }
  }

  lemma SweepOrder(intervals: seq<Interval>)
    ensures SortedBy(StableSort(intervals, ByStart()), ByStart())
    ensures Covered(StableSort(intervals, ByStart())) == Covered(intervals)
  {
    SortMembers(intervals, ByStart());
    SortSorts(intervals, ByStart());
    CoveredSameMembers(StableSort(intervals, ByStart()), intervals);
  }
}
