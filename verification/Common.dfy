/** Small vocabulary shared by every component of the model. */
module Common {

  /** A value the source may leave absent: null in TypeScript, None in Python. */
  datatype Option<+T> = None | Some(value: T)

  /** How a call ends that may raise. */
  datatype Fallible<+T> = Yields(value: T) | Raises

  function Or<T>(x: Option<T>, otherwise: T): T {
    if x.Some? then x.value else otherwise
  }

  function Max(a: int, b: int): int {
    if a < b then b else a
  }

  function Min(a: int, b: int): int {
    if a < b then a else b
  }

  function MaxReal(a: real, b: real): real {
    if a < b then b else a
  }

  function MinReal(a: real, b: real): real {
    if a < b then a else b
  }

  /** x occurs strictly before y in s. */
  ghost predicate Before<T>(s: seq<T>, x: T, y: T) {
    exists a, b :: 0 <= a < b < |s| && s[a] == x && s[b] == y
  }

  /** No value occurs twice in s. */
  ghost predicate Distinct<T>(s: seq<T>) {
    forall i, j :: 0 <= i < j < |s| ==> s[i] != s[j]
  }

  /** A sequence shorter than a set cannot name every member of it. */
  lemma {:induction false} SetOfSeqSize<T>(s: seq<T>)
    ensures |set x | x in s| <= |s|
    ensures Distinct(s) ==> |set x | x in s| == |s|
  {
    if s == [] {
      assert (set x | x in s) == {};
    } else {
      var last := |s| - 1;
      SetOfSeqSize(s[..last]);
      assert s == s[..last] + [s[last]];
      assert (set x | x in s) == (set x | x in s[..last]) + {s[last]};
      if Distinct(s) {
        assert s[last] !in s[..last];
      }
    }
  }

  /** The indices below n where p holds. */
  ghost function Hits(n: nat, p: int -> bool): set<int> {
    set i | 0 <= i < n && p(i)
  }

  lemma HitsNext(n: nat, p: int -> bool, q: int -> bool)
    requires forall i :: 0 <= i < n ==> p(i) == q(i)
    ensures |Hits(n + 1, p)| == |Hits(n, q)| + if p(n) then 1 else 0
  {
    assert Hits(n + 1, p) == Hits(n, q) + if p(n) then {n} else {};
  }

  lemma {:induction false} HitsAll(n: nat, p: int -> bool)
    requires forall i :: 0 <= i < n ==> p(i)
    ensures |Hits(n, p)| == n
  {
    if n == 0 {
      assert Hits(0, p) == {};
    } else {
      HitsAll(n - 1, p);
      HitsNext(n - 1, p, p);
    }
  }

  lemma {:induction false} DistinctCount<T>(s: seq<T>, x: T)
    requires Distinct(s)
    ensures multiset(s)[x] == if x in s then 1 else 0
  {
    if s != [] {
      var last := |s| - 1;
      DistinctCount(s[..last], x);
      assert s == s[..last] + [s[last]];
      if x == s[last] { assert x !in s[..last]; }
    }
  }

  lemma RepeatedCount<T>(s: seq<T>, i: int, j: int)
    requires 0 <= i < j < |s| && s[i] == s[j]
    ensures multiset(s)[s[i]] >= 2
  {
    assert s == s[..j] + [s[j]] + s[j + 1..];
    assert s[..j][i] in multiset(s[..j]);
  }

  /** Two arrangements of the same values, each without one occurrence of the last value of the first. */
  lemma MatchLast<T>(a: seq<T>, b: seq<T>) returns (i: nat)
    requires multiset(a) == multiset(b) && a != []
    ensures i < |b| && b[i] == a[|a| - 1]
    ensures multiset(a[..|a| - 1]) == multiset(b[..i] + b[i + 1..])
  {
    var last := |a| - 1;
    assert a == a[..last] + [a[last]];
    assert a[last] in multiset(b);
    i :| 0 <= i < |b| && b[i] == a[last];
    assert b == b[..i] + [b[i]] + b[i + 1..];
    CancelOne(multiset(a[..last]), multiset(b[..i] + b[i + 1..]), a[last]);
  }

  lemma CancelOne<T>(a: multiset<T>, b: multiset<T>, x: T)
    requires a + multiset{x} == b + multiset{x}
    ensures a == b
  {
    forall y
      ensures a[y] == b[y]
    {
      assert (a + multiset{x})[y] == (b + multiset{x})[y];
    }
  }

  /** Leaving out element i commutes with leaving out the last one. */
  lemma WithoutShape<T>(s: seq<T>, i: nat)
    requires i + 1 < |s|
    ensures
      var rest, last := s[..i] + s[i + 1..], |s| - 1;
      rest != [] && rest[|rest| - 1] == s[last] && rest[..|rest| - 1] == s[..last][..i] + s[..last][i + 1..]
  {
    var rest, last := s[..i] + s[i + 1..], |s| - 1;
    var short := s[..last][..i] + s[..last][i + 1..];
    assert |short| == |rest| - 1;
    forall k | 0 <= k < |short|
      ensures rest[k] == short[k]
    {
    }
  }
}
