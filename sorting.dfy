/**
  Python's `list.sort(key=...)` / `sorted(...)`: a stable sort. It is written as an
  insertion sort over a "less or equal" relation on keys; any stable sort yields
  the same list, so the properties proved here (permutation, order, stability)
  are the ones Python guarantees.
*/
module Sorting {

  /** le is total and transitive: the order a key function induces. */
  ghost predicate TotalPreorder<T(!new)>(le: (T, T) -> bool) {
    (forall a, b :: le(a, b) || le(b, a))
    && (forall a, b, c :: le(a, b) && le(b, c) ==> le(a, c))
  }

  predicate Sorted<T>(s: seq<T>, le: (T, T) -> bool) {
    forall i, j :: 0 <= i < j < |s| ==> le(s[i], s[j])
  }

  /** Put x before the first element it does not exceed: after every y with y < x. */
  function Insert<T>(x: T, s: seq<T>, le: (T, T) -> bool): (r: seq<T>)
    ensures multiset(r) == multiset(s) + multiset{x}
    ensures |r| == |s| + 1
  {
    if s == [] then [x]
    else if le(x, s[0]) then [x] + s
    else
      assert s == [s[0]] + s[1..];
      [s[0]] + Insert(x, s[1..], le)
  }

  /** The list sorted by le, equal elements in their original order. */
  function SortBy<T>(s: seq<T>, le: (T, T) -> bool): (r: seq<T>)
    ensures multiset(r) == multiset(s)
    ensures |r| == |s|
  {
    if s == [] then []
    else
      assert s == [s[0]] + s[1..];
      Insert(s[0], SortBy(s[1..], le), le)
  }

  lemma {:induction false} InsertSorted<T(!new)>(x: T, s: seq<T>, le: (T, T) -> bool)
    requires TotalPreorder(le) && Sorted(s, le)
    ensures Sorted(Insert(x, s, le), le)
  {
    if s != [] && !le(x, s[0]) {
      InsertSorted(x, s[1..], le);
      var r := Insert(x, s[1..], le);
      assert multiset(r) == multiset(s[1..]) + multiset{x};
      forall j | 0 <= j < |r|
        ensures le(s[0], r[j])
      {
        assert r[j] in multiset(r);
        if r[j] == x {
        } else {
          assert r[j] in multiset(s[1..]);
          var k :| 0 <= k < |s[1..]| && s[1..][k] == r[j];
          assert s[k + 1] == r[j];
        }
      }
    }
  }

  /** The result is ordered by le. */
  lemma {:induction false} SortBySorted<T(!new)>(s: seq<T>, le: (T, T) -> bool)
    requires TotalPreorder(le)
    ensures Sorted(SortBy(s, le), le)
  {
    if s != [] {
      SortBySorted(s[1..], le);
      InsertSorted(s[0], SortBy(s[1..], le), le);
    }
  }

  function TieOf<T>(x: T, e: T, le: (T, T) -> bool): seq<T> {
    if le(x, e) && le(e, x) then [x] else []
  }

  /** The elements of s that tie with e, in their order in s. */
  function Ties<T>(s: seq<T>, e: T, le: (T, T) -> bool): seq<T> {
    if s == [] then [] else TieOf(s[0], e, le) + Ties(s[1..], e, le)
  }

  lemma {:induction false} TiesInsert<T(!new)>(x: T, s: seq<T>, e: T, le: (T, T) -> bool)
    requires TotalPreorder(le)
    ensures Ties(Insert(x, s, le), e, le) == TieOf(x, e, le) + Ties(s, e, le)
  {
    if s == [] {
      assert Insert(x, s, le) == [x];
      assert Ties([x], e, le) == TieOf(x, e, le) + Ties([x][1..], e, le);
    } else if le(x, s[0]) {
      var r := [x] + s;
      assert r[0] == x && r[1..] == s;
    } else {
      TiesInsert(x, s[1..], e, le);
      TiesInsertAfter(x, s, e, le);
    }
  }

  /** Inserting x after the head s[0]: the step of TiesInsert, from its result on s[1..]. */
  lemma TiesInsertAfter<T(!new)>(x: T, s: seq<T>, e: T, le: (T, T) -> bool)
    requires TotalPreorder(le) && s != [] && !le(x, s[0])
    requires Ties(Insert(x, s[1..], le), e, le) == TieOf(x, e, le) + Ties(s[1..], e, le)
    ensures Ties(Insert(x, s, le), e, le) == TieOf(x, e, le) + Ties(s, e, le)
  {
    var t := Insert(x, s[1..], le);
    assert Insert(x, s, le) == [s[0]] + t;
    TiesCons(s[0], t, e, le);
    TiesCons(s[0], s[1..], e, le);
    assert [s[0]] + s[1..] == s;
    TiesExclusive(x, s[0], e, le);
    SwapAroundEmpty(TieOf(s[0], e, le), TieOf(x, e, le), Ties(s[1..], e, le));
  }

  lemma SwapAroundEmpty<T>(a: seq<T>, b: seq<T>, rest: seq<T>)
    requires a == [] || b == []
    ensures a + (b + rest) == b + (a + rest)
  {
    if a == [] {
      assert a + (b + rest) == b + rest == b + (a + rest);
    } else {
      assert a + (b + rest) == a + rest == b + (a + rest);
    }
  }

  lemma TiesCons<T>(h: T, t: seq<T>, e: T, le: (T, T) -> bool)
    ensures Ties([h] + t, e, le) == TieOf(h, e, le) + Ties(t, e, le)
  {
    assert ([h] + t)[0] == h && ([h] + t)[1..] == t;
  }

  /** When x goes after y, x and y do not both tie with e. */
  lemma TiesExclusive<T(!new)>(x: T, y: T, e: T, le: (T, T) -> bool)
    requires TotalPreorder(le) && !le(x, y)
    ensures TieOf(x, e, le) == [] || TieOf(y, e, le) == []
  {
  }

  /** Stability: the elements that tie with any e keep their relative order. */
  lemma {:induction false} SortByStable<T(!new)>(s: seq<T>, e: T, le: (T, T) -> bool)
    requires TotalPreorder(le)
    ensures Ties(SortBy(s, le), e, le) == Ties(s, e, le)
  {
    if s != [] {
      SortByStable(s[1..], e, le);
      TiesInsert(s[0], SortBy(s[1..], le), e, le);
    }
  }

  /** A list that is already ordered is left as it is. */
  lemma {:induction false} SortBySortedInput<T(!new)>(s: seq<T>, le: (T, T) -> bool)
    requires Sorted(s, le)
    ensures SortBy(s, le) == s
  {
    if s != [] {
      assert Sorted(s[1..], le);
      SortBySortedInput(s[1..], le);
      assert s == [s[0]] + s[1..];
      if |s| > 1 {
        assert le(s[0], s[1]);
      }
    }
  }

  function Take<T>(s: seq<T>, n: int): (r: seq<T>)
    ensures |r| == if n <= 0 then 0 else if n < |s| then n else |s|
    ensures forall i :: 0 <= i < |r| ==> r[i] == s[i]
  {
    if n <= 0 then [] else if n < |s| then s[..n] else s
  }
}
