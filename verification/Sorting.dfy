/**
 The library sorts of both languages, as one stable sort over an arbitrary total preorder.
 JavaScript's Array.prototype.sort and Python's sorted and list.sort are all stable.
 */
module Sorting {

  ghost predicate TotalPreorder<T(!new)>(le: (T, T) -> bool) {
    && (forall x, y :: le(x, y) || le(y, x))
    && (forall x, y, z :: le(x, y) && le(y, z) ==> le(x, z))
  }

  ghost predicate SortedBy<T>(s: seq<T>, le: (T, T) -> bool) {
    forall i, j :: 0 <= i < j < |s| ==> le(s[i], s[j])
  }

  /** Puts x before the first element that is not strictly below it. */
  function Insert<T>(x: T, s: seq<T>, le: (T, T) -> bool): (r: seq<T>)
    ensures multiset(r) == multiset{x} + multiset(s)
    ensures |r| == |s| + 1
  {
    if s == [] || le(x, s[0]) then
      [x] + s
    else
      assert s == [s[0]] + s[1..];
      [s[0]] + Insert(x, s[1..], le)
  }

  function StableSort<T>(s: seq<T>, le: (T, T) -> bool): (r: seq<T>)
    ensures multiset(r) == multiset(s)
    ensures |r| == |s|
  {
    if s == [] then
      []
    else
      assert s == [s[0]] + s[1..];
      Insert(s[0], StableSort(s[1..], le), le)
  }

  lemma InsertMembers<T>(x: T, s: seq<T>, le: (T, T) -> bool)
    ensures forall y :: y in Insert(x, s, le) <==> y == x || y in s
  {
    forall y
      ensures y in Insert(x, s, le) <==> y == x || y in s
    {
      assert y in Insert(x, s, le) <==> y in multiset(Insert(x, s, le));
    }
  }

  lemma SortMembers<T>(s: seq<T>, le: (T, T) -> bool)
    ensures forall y :: y in StableSort(s, le) <==> y in s
  {
    forall y
      ensures y in StableSort(s, le) <==> y in s
    {
      assert y in StableSort(s, le) <==> y in multiset(StableSort(s, le));
    }
  }

  lemma {:induction false} InsertSorted<T(!new)>(x: T, s: seq<T>, le: (T, T) -> bool)
    requires TotalPreorder(le)
    requires SortedBy(s, le)
    ensures SortedBy(Insert(x, s, le), le)
  {
    if s != [] && !le(x, s[0]) {
      InsertSorted(x, s[1..], le);
      InsertMembers(x, s[1..], le);
      var rest := Insert(x, s[1..], le);
      forall j | 0 <= j < |rest|
        ensures le(s[0], rest[j])
      {
        assert rest[j] in rest;
        if rest[j] in s[1..] {
          var k :| 0 <= k < |s[1..]| && s[1..][k] == rest[j];
          assert s[k + 1] == rest[j];
        }
      }
    } else if s != [] {
      forall j | 0 <= j < |s|
        ensures le(x, s[j])
      {
        assert le(s[0], s[j]) || j == 0;
      }
    }
  }

  lemma {:induction false} SortSorts<T(!new)>(s: seq<T>, le: (T, T) -> bool)
    requires TotalPreorder(le)
    ensures SortedBy(StableSort(s, le), le)
  {
    if s != [] {
      SortSorts(s[1..], le);
      InsertSorted(s[0], StableSort(s[1..], le), le);
    }
  }

  /** The elements of s that tie with x, in order. */
  ghost function Ties<T>(s: seq<T>, x: T, le: (T, T) -> bool): seq<T> {
    if s == [] then []
    else (if le(x, s[0]) && le(s[0], x) then [s[0]] else []) + Ties(s[1..], x, le)
  }

  lemma {:induction false} InsertStable<T(!new)>(x: T, s: seq<T>, w: T, le: (T, T) -> bool)
    requires TotalPreorder(le)
    ensures Ties(Insert(x, s, le), w, le) == Ties([x] + s, w, le)
  {
    if s == [] || le(x, s[0]) {
    } else {
      InsertStable(x, s[1..], w, le);
      var r := Insert(x, s, le);
      assert r[1..] == Insert(x, s[1..], le);
      assert ([x] + s)[1..] == s;
      assert ([x] + s[1..])[1..] == s[1..];
      // x and s[0] cannot both tie with w: s[0] is strictly below x.
      var head := s[0];
      if le(w, x) && le(x, w) && le(w, head) && le(head, w) {
        assert false;
      }
    }
  }

  /** Elements that compare equal keep their input order. */
  lemma {:induction false} SortStable<T(!new)>(s: seq<T>, w: T, le: (T, T) -> bool)
    requires TotalPreorder(le)
    ensures Ties(StableSort(s, le), w, le) == Ties(s, w, le)
  {
    if s != [] {
      SortStable(s[1..], w, le);
      var t := StableSort(s[1..], le);
      InsertStable(s[0], t, w, le);
      assert ([s[0]] + t)[1..] == t;
    }
  }

  lemma {:induction false} TiesTie<T>(s: seq<T>, w: T, le: (T, T) -> bool)
    ensures forall x :: x in Ties(s, w, le) ==> le(w, x) && le(x, w) && x in s
  {
    if s != [] { TiesTie(s[1..], w, le); }
  }

  lemma TiesTail<T>(s: seq<T>, w: T, le: (T, T) -> bool)
    requires s != []
    ensures Ties(s[1..], w, le) == if le(w, s[0]) && le(s[0], w) then Ties(s, w, le)[1..] else Ties(s, w, le)
  {
  }

  /** A stable arrangement is unique: sorted, and equal elements in the given order. */
  lemma {:induction false} StableUnique<T(!new)>(a: seq<T>, b: seq<T>, le: (T, T) -> bool)
    requires TotalPreorder(le)
    requires SortedBy(a, le) && SortedBy(b, le)
    requires forall w :: Ties(a, w, le) == Ties(b, w, le)
    ensures a == b
  {
    EmptyTogether(a, b, le);
    EmptyTogether(b, a, le);
    if a != [] {
      StableHeads(a, b, le);
      forall w
        ensures Ties(a[1..], w, le) == Ties(b[1..], w, le)
      {
        assert Ties(a, w, le) == Ties(b, w, le);
        TiesTail(a, w, le);
        TiesTail(b, w, le);
      }
      StableUnique(a[1..], b[1..], le);
    }
  }

  lemma EmptyTogether<T(!new)>(a: seq<T>, b: seq<T>, le: (T, T) -> bool)
    requires TotalPreorder(le)
    requires forall w :: Ties(a, w, le) == Ties(b, w, le)
    ensures a == [] ==> b == []
  {
    if b != [] {
      assert Ties(b, b[0], le)[0] == b[0];
      assert Ties(a, b[0], le) != [];
    }
  }

  lemma StableHeads<T(!new)>(a: seq<T>, b: seq<T>, le: (T, T) -> bool)
    requires TotalPreorder(le)
    requires SortedBy(a, le) && SortedBy(b, le) && a != [] && b != []
    requires forall w :: Ties(a, w, le) == Ties(b, w, le)
    ensures a[0] == b[0]
  {
    var fromA, fromB := Ties(a, a[0], le), Ties(b, b[0], le);
    assert fromA[0] == a[0] && fromB[0] == b[0];
    TiesTie(b, a[0], le);
    TiesTie(a, b[0], le);
    assert a[0] in Ties(b, a[0], le) && b[0] in Ties(a, b[0], le);
    var i :| 0 <= i < |b| && b[i] == a[0];
    var j :| 0 <= j < |a| && a[j] == b[0];
    assert le(b[0], a[0]) && le(a[0], b[0]);
    assert Ties(b, a[0], le)[0] == b[0];
  }

  /** When no two distinct elements tie, the sorted arrangement does not depend on where it started. */
  lemma {:induction false} SortedUnique<T(!new)>(a: seq<T>, b: seq<T>, le: (T, T) -> bool)
    requires SortedBy(a, le) && SortedBy(b, le)
    requires multiset(a) == multiset(b)
    requires forall x, y :: x in a && y in a && le(x, y) && le(y, x) ==> x == y
    ensures a == b
  {
    if a == [] {
      assert |multiset(b)| == 0;
    } else {
      HeadsAgree(a, b, le);
      TailsAgree(a, b);
      assert forall x :: x in a[1..] ==> x in a;
      SortedUnique(a[1..], b[1..], le);
      assert a == [a[0]] + a[1..] && b == [b[0]] + b[1..];
    }
  }

  lemma TailsAgree<T>(a: seq<T>, b: seq<T>)
    requires multiset(a) == multiset(b) && a != [] && b != [] && a[0] == b[0]
    ensures multiset(a[1..]) == multiset(b[1..])
  {
    assert a == [a[0]] + a[1..] && b == [b[0]] + b[1..];
    assert multiset(a[1..]) == multiset(a) - multiset{a[0]};
    assert multiset(b[1..]) == multiset(b) - multiset{b[0]};
  }

  lemma HeadsAgree<T(!new)>(a: seq<T>, b: seq<T>, le: (T, T) -> bool)
    requires SortedBy(a, le) && SortedBy(b, le)
    requires multiset(a) == multiset(b) && a != []
    requires forall x, y :: x in a && y in a && le(x, y) && le(y, x) ==> x == y
    ensures b != [] && a[0] == b[0]
  {
    assert |multiset(a)| == |multiset(b)|;
    assert a[0] in multiset(b) && b[0] in multiset(a);
    var i :| 0 <= i < |a| && a[i] == b[0];
    var j :| 0 <= j < |b| && b[j] == a[0];
    if i > 0 && j > 0 {
      assert le(a[0], a[i]) && le(b[0], b[j]);
    }
  }
}
