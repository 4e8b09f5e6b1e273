/**
  Python's `collections.Counter` over a list: its keys in first-seen order,
  the count of each key, and `most_common(n)`, which lists the items by count,
  highest first, equal counts in first-seen order.
*/
module Counter {
  import opened Sorting

  /** How often x occurs in s. */
  function Occurrences<T(==)>(s: seq<T>, x: T): nat {
    if s == [] then 0
    else Occurrences(s[..|s| - 1], x) + (if s[|s| - 1] == x then 1 else 0)
  }

  /** The elements of s without repeats, each where it first occurs: the key order of `Counter(s)`. */
  function Distinct<T(==)>(s: seq<T>): seq<T> {
    if s == [] then []
    else
      var d := Distinct(s[..|s| - 1]);
      if s[|s| - 1] in d then d else d + [s[|s| - 1]]
  }

  predicate NoDuplicates<T(==)>(s: seq<T>) {
    forall i, j :: 0 <= i < j < |s| ==> s[i] != s[j]
  }

  /** The (key, count) pairs of keys, counted in s. */
  function CountsOf<T(==)>(keys: seq<T>, s: seq<T>): (r: seq<(T, nat)>)
    ensures |r| == |keys|
    ensures forall i :: 0 <= i < |r| ==> r[i] == (keys[i], Occurrences(s, keys[i]))
  {
    if keys == [] then [] else CountsOf(keys[..|keys| - 1], s) + [(keys[|keys| - 1], Occurrences(s, keys[|keys| - 1]))]
  }

  /** `Counter(s).items()` */
  function Items<T(==)>(s: seq<T>): seq<(T, nat)> {
    CountsOf(Distinct(s), s)
  }

  lemma {:induction false} OccurrencesAppend<T>(s: seq<T>, t: seq<T>, x: T)
    ensures Occurrences(s + t, x) == Occurrences(s, x) + Occurrences(t, x)
    decreases |t|
  {
    if t != [] {
      var u := t[..|t| - 1];
      assert (s + t)[..|s + t| - 1] == s + u;
      assert (s + t)[|s + t| - 1] == t[|t| - 1];
      OccurrencesAppend(s, u, x);
    } else {
      assert s + t == s;
    }
  }

  lemma {:induction false} OccurrencesMember<T>(s: seq<T>, x: T)
    ensures Occurrences(s, x) > 0 <==> x in s
  {
    if s != [] {
      var u := s[..|s| - 1];
      OccurrencesMember(u, x);
      assert s == u + [s[|s| - 1]];
    }
  }

  /** Every element occurs exactly once among the keys, in first-seen order. */
  lemma {:induction false} DistinctSpec<T>(s: seq<T>)
    ensures forall x :: x in Distinct(s) <==> x in s
    ensures NoDuplicates(Distinct(s))
  {
    if s != [] {
      var u := s[..|s| - 1];
      DistinctSpec(u);
      assert s == u + [s[|s| - 1]];
    }
  }

  /** The counts add up to the length of the list. */
  function SumCounts<T>(items: seq<(T, nat)>): nat {
    if items == [] then 0 else SumCounts(items[..|items| - 1]) + items[|items| - 1].1
  }

  lemma {:induction false} SumCountsAppend<T>(a: seq<(T, nat)>, b: seq<(T, nat)>)
    ensures SumCounts(a + b) == SumCounts(a) + SumCounts(b)
    decreases |b|
  {
    if b != [] {
      var u := b[..|b| - 1];
      assert (a + b)[..|a + b| - 1] == a + u;
      assert (a + b)[|a + b| - 1] == b[|b| - 1];
      SumCountsAppend(a, u);
    } else {
      assert a + b == a;
    }
  }

  lemma SumCountsOfLast<T>(keys: seq<T>, s: seq<T>)
    requires keys != []
    ensures SumCounts(CountsOf(keys, s)) == SumCounts(CountsOf(keys[..|keys| - 1], s)) + Occurrences(s, keys[|keys| - 1])
  {
    var c := CountsOf(keys, s);
    assert c[..|c| - 1] == CountsOf(keys[..|keys| - 1], s);
  }

  lemma OccurrencesOne<T>(x: T, k: T)
    ensures Occurrences([x], k) == if x == k then 1 else 0
  {
    assert [x][..0] == [];
  }

  /** Counting one more x adds one to the total exactly when x is among the keys. */
  lemma {:induction false} CountsOfStep<T>(keys: seq<T>, s: seq<T>, x: T)
    requires NoDuplicates(keys)
    ensures SumCounts(CountsOf(keys, s + [x])) == SumCounts(CountsOf(keys, s)) + (if x in keys then 1 else 0)
    decreases |keys|
  {
    if keys != [] {
      var init, k := keys[..|keys| - 1], keys[|keys| - 1];
      assert keys == init + [k];
      CountsOfStep(init, s, x);
      OccurrencesAppend(s, [x], k);
      OccurrencesOne(x, k);
      SumCountsOfLast(keys, s + [x]);
      SumCountsOfLast(keys, s);
    }
  }

  /** `sum(Counter(s).values()) == len(s)` */
  lemma {:induction false} SumItems<T>(s: seq<T>)
    ensures SumCounts(Items(s)) == |s|
  {
    if s != [] {
      var u, x := s[..|s| - 1], s[|s| - 1];
      assert s == u + [x];
      SumItems(u);
      DistinctSpec(u);
      var d := Distinct(u);
      CountsOfStep(d, u, x);
      if x !in u {
        assert Distinct(s) == d + [x];
        assert CountsOf(d + [x], s) == CountsOf(d, s) + [(x, Occurrences(s, x))] by {
          assert (d + [x])[..|d|] == d;
        }
        OccurrencesMember(u, x);
        OccurrencesAppend(u, [x], x);
        assert Occurrences([x], x) == 1 by {
          assert [x][..0] == [];
        }
      }
    }
  }

  /** Orders items by count, highest first. */
  function CountGe<T>(a: (T, nat), b: (T, nat)): bool {
    a.1 >= b.1
  }

  /** `Counter(s).most_common(n)` */
  function MostCommon<T(==)>(s: seq<T>, n: int): seq<(T, nat)> {
    Take(SortBy(Items(s), CountGe), n)
  }

  lemma CountGeTotalPreorder<T(!new)>()
    ensures TotalPreorder((a: (T, nat), b: (T, nat)) => CountGe(a, b))
  {
  }

  lemma {:induction false} SumCountsInsert<T>(x: (T, nat), s: seq<(T, nat)>, le: ((T, nat), (T, nat)) -> bool)
    ensures SumCounts(Insert(x, s, le)) == SumCounts(s) + x.1
  {
    if s == [] {
      assert Insert(x, s, le) == [] + [x];
    } else if le(x, s[0]) {
      SumCountsAppend([x], s);
      assert [x] == [] + [x];
    } else {
      SumCountsInsert(x, s[1..], le);
      SumCountsAppend([s[0]], Insert(x, s[1..], le));
      SumCountsAppend([s[0]], s[1..]);
      assert s == [s[0]] + s[1..];
      assert [s[0]] == [] + [s[0]];
    }
  }

  lemma {:induction false} SumCountsSortBy<T>(s: seq<(T, nat)>, le: ((T, nat), (T, nat)) -> bool)
    ensures SumCounts(SortBy(s, le)) == SumCounts(s)
  {
    if s != [] {
      SumCountsSortBy(s[1..], le);
      SumCountsInsert(s[0], SortBy(s[1..], le), le);
      SumCountsAppend([s[0]], s[1..]);
      assert s == [s[0]] + s[1..];
      assert [s[0]] == [] + [s[0]];
    }
  }

  /**
    Any reordering of the items by a sort key lists each key of s once, with
    its count.
  */
  lemma SortedItemsSpec<T(!new)>(s: seq<T>, le: ((T, nat), (T, nat)) -> bool)
    ensures var all := SortBy(Items(s), le);
      |all| == |Distinct(s)|
      && (forall i :: 0 <= i < |all| ==> all[i].0 in s && all[i].1 == Occurrences(s, all[i].0))
      && (forall i, j :: 0 <= i < j < |all| ==> all[i].0 != all[j].0)
  {
    var items, all := Items(s), SortBy(Items(s), le);
    DistinctSpec(s);
    forall i | 0 <= i < |all|
      ensures all[i].0 in s && all[i].1 == Occurrences(s, all[i].0)
    {
      assert all[i] in multiset(all);
      var k :| 0 <= k < |items| && items[k] == all[i];
    }
    PermutationKeepsNoDuplicates(items, all);
  }

  /** Such a reordering leaves out no element of s. */
  lemma SortedItemsComplete<T(!new)>(s: seq<T>, le: ((T, nat), (T, nat)) -> bool)
    ensures var all := SortBy(Items(s), le);
      forall x :: x in s ==> exists i :: 0 <= i < |all| && all[i].0 == x
  {
    var items, all := Items(s), SortBy(Items(s), le);
    DistinctSpec(s);
    forall x | x in s
      ensures exists i :: 0 <= i < |all| && all[i].0 == x
    {
      var k :| 0 <= k < |Distinct(s)| && Distinct(s)[k] == x;
      assert items[k] == (x, Occurrences(s, x));
      assert items[k] in multiset(items);
      assert items[k] in multiset(all);
      var i :| 0 <= i < |all| && all[i] == items[k];
      assert all[i].0 == x;
    }
    assert all == SortBy(Items(s), le);
  }

  /**
    `most_common(n)` lists at most n items, each a key of s with its count,
    no key twice, counts never increasing; it is a prefix of the full listing.
  */
  lemma MostCommonSpec<T(!new)>(s: seq<T>, n: int)
    ensures var r := MostCommon(s, n); var all := SortBy(Items(s), CountGe);
      |r| == (if n <= 0 then 0 else if n < |Distinct(s)| then n else |Distinct(s)|)
      && r == all[..|r|]
      && (forall i :: 0 <= i < |r| ==> r[i].0 in s && r[i].1 == Occurrences(s, r[i].0))
      && (forall i, j :: 0 <= i < j < |r| ==> r[i].0 != r[j].0 && r[i].1 >= r[j].1)
  {
    SortedItemsSpec(s, CountGe);
    CountGeTotalPreorder<T>();
    SortBySorted(Items(s), CountGe);
  }

  /** In the full listing, items with equal counts keep their first-seen order. */
  lemma MostCommonStable<T(!new)>(s: seq<T>)
    ensures forall e :: Ties(SortBy(Items(s), CountGe), e, CountGe) == Ties(Items(s), e, CountGe)
  {
    CountGeTotalPreorder<T>();
    forall e
      ensures Ties(SortBy(Items(s), CountGe), e, CountGe) == Ties(Items(s), e, CountGe)
    {
      SortByStable(Items(s), e, CountGe);
    }
  }

  /** When n covers every key, the counts listed add up to the length of s. */
  lemma MostCommonTotal<T(!new)>(s: seq<T>, n: int)
    requires n >= |Distinct(s)|
    ensures SumCounts(MostCommon(s, n)) == |s|
  {
    SumCountsSortBy(Items(s), CountGe);
    SumItems(s);
  }

  /** Items have pairwise distinct keys, so no two entries of a reordering of them are equal. */
  lemma PermutationKeepsNoDuplicates<T>(items: seq<(T, nat)>, all: seq<(T, nat)>)
    requires NoDuplicates(items)
    requires multiset(all) == multiset(items)
    ensures NoDuplicates(all)
  {
    MultiplicityOfNoDuplicates(items);
    forall i, j | 0 <= i < j < |all|
      ensures all[i] != all[j]
    {
      if all[i] == all[j] {
        RepeatMultiplicity(all, i, j);
      }
    }
  }

  lemma RepeatMultiplicity<T>(t: seq<T>, i: int, j: int)
    requires 0 <= i < j < |t| && t[i] == t[j]
    ensures multiset(t)[t[j]] >= 2
  {
    assert t == t[..j] + [t[j]] + t[j + 1..];
    assert t[..j][i] == t[i];
    assert t[j] in multiset(t[..j]);
  }

  lemma {:induction false} MultiplicityOfNoDuplicates<T>(s: seq<T>)
    requires NoDuplicates(s)
    ensures forall x :: multiset(s)[x] <= 1
  {
    if s != [] {
      var u := s[..|s| - 1];
      MultiplicityOfNoDuplicates(u);
      assert s == u + [s[|s| - 1]];
    }
  }
}
