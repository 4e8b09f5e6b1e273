/**
  The taste snapshot taken after login: the artist names in Spotify's order
  and the genre ranking derived from the artists' genre lists.
*/
module Tastes {
  import opened Wrappers
  import opened Text
  import opened Events
  import opened Sorting
  import opened Counter
  import opened Artists

  /** The sort key `(-count, genre)`: the higher count first, equal counts in string order. */
  predicate ByCountThenName(a: (string, nat), b: (string, nat)) {
    a.1 > b.1 || (a.1 == b.1 && StrLe(a.0, b.0))
  }

  /** `[g for (g, _) in items]` */
  function Keys(items: seq<(string, nat)>): (r: seq<string>)
    ensures |r| == |items|
    ensures forall i :: 0 <= i < |r| ==> r[i] == items[i].0
  {
    seq(|items|, i requires 0 <= i < |items| => items[i].0)
  }

  /** The genre ranking of a flattened genre list: `Counter(genres)` sorted by `(-count, genre)`. */
  function GenreRanking(genres: seq<string>): seq<string> {
    Keys(SortBy(Items(genres), ByCountThenName))
  }

  /** `_rank_genres(artists_items)` */
  method RankGenres(artists: seq<Artist>) returns (ranked: seq<string>)
    ensures ranked == GenreRanking(AllGenres(artists))
  {
    var genres: seq<string> := [];
    for i := 0 to |artists|
      invariant genres == AllGenres(artists[..i])
    {
      assert artists[..i + 1][..i] == artists[..i];
      genres := genres + GenresOf(artists[i]);
    }
    assert artists[..|artists|] == artists;
    ranked := GenreRanking(genres);
  }

  lemma ByCountThenNameTotalPreorder()
    ensures TotalPreorder(ByCountThenName)
  {
    forall a: (string, nat), b: (string, nat)
      ensures ByCountThenName(a, b) || ByCountThenName(b, a)
    {
      StrLeTotal(a.0, b.0);
    }
    forall a: (string, nat), b: (string, nat), c: (string, nat) | ByCountThenName(a, b) && ByCountThenName(b, c)
      ensures ByCountThenName(a, c)
    {
      if a.1 == b.1 == c.1 {
        StrLeTransitive(a.0, b.0, c.0);
      }
    }
  }

  /** A genre is ranked exactly when it occurs in the list. */
  lemma GenreRankingMembers(genres: seq<string>)
    ensures forall g :: g in GenreRanking(genres) <==> g in genres
  {
    var all := SortBy(Items(genres), ByCountThenName);
    SortedItemsSpec(genres, ByCountThenName);
    SortedItemsComplete(genres, ByCountThenName);
    var r := GenreRanking(genres);
    forall g | g in genres
      ensures g in r
    {
      var i :| 0 <= i < |all| && all[i].0 == g;
      assert r[i] == g;
    }
  }

  /**
    Every genre of the list appears in the ranking exactly once, and nothing
    else does; a genre comes before another when it occurs more often, or as
    often and is smaller in string order.
  */
  lemma GenreRankingSpec(genres: seq<string>)
    ensures var r := GenreRanking(genres);
      (forall g :: g in r <==> g in genres)
      && NoDuplicates(r)
      && (forall i, j :: 0 <= i < j < |r| ==>
            Occurrences(genres, r[i]) > Occurrences(genres, r[j])
            || (Occurrences(genres, r[i]) == Occurrences(genres, r[j]) && StrLe(r[i], r[j])))
  {
    var all := SortBy(Items(genres), ByCountThenName);
    SortedItemsSpec(genres, ByCountThenName);
    ByCountThenNameTotalPreorder();
    SortBySorted(Items(genres), ByCountThenName);
    var r := GenreRanking(genres);
    GenreRankingMembers(genres);
    forall i, j | 0 <= i < j < |r|
      ensures Occurrences(genres, r[i]) > Occurrences(genres, r[j])
            || (Occurrences(genres, r[i]) == Occurrences(genres, r[j]) && StrLe(r[i], r[j]))
    {
      assert ByCountThenName(all[i], all[j]);
    }
  }

  /** An artist whose genres are missing, null or empty adds nothing to the flattened list. */
  lemma GenrelessAddsNothing(before: seq<Artist>, a: Artist, after: seq<Artist>)
    requires a.genres.None? || a.genres == Some([])
    ensures AllGenres(before + [a] + after) == AllGenres(before + after)
  {
    AllGenresAppend(before + [a], after);
    AllGenresAppend(before, [a]);
    AllGenresAppend(before, after);
    assert AllGenres([a]) == AllGenres([]) + GenresOf(a) by {
      assert [a][..0] == [];
    }
  }

  /** Such an artist changes nothing in the ranking either. */
  lemma RankingIgnoresGenreless(before: seq<Artist>, a: Artist, after: seq<Artist>)
    requires a.genres.None? || a.genres == Some([])
    ensures GenreRanking(AllGenres(before + [a] + after)) == GenreRanking(AllGenres(before + after))
  {
    GenrelessAddsNothing(before, a, after);
  }

  /**
    Genres are compared as given: two spellings that differ, even only in case
    ("Rock" and "rock"), are ranked as two genres.
  */
  lemma RankingKeepsCase(a: string, b: string)
    requires a != b
    ensures var r := GenreRanking([a, b]);
      a in r && b in r && |r| == 2
  {
    GenreRankingMembers([a, b]);
    var r := GenreRanking([a, b]);
    SortedItemsSpec([a, b], ByCountThenName);
    assert Distinct([a, b]) == [a, b] by {
      assert [a][..0] == [];
      assert Distinct([a]) == [a];
      assert [a, b][..1] == [a];
      assert b !in [a];
    }
  }

  /** `[a.get("name") for a in artists_items if a.get("name")]` */
  function ArtistsOrdered(artists: seq<Artist>): seq<string> {
    if artists == [] then []
    else
      var a := artists[|artists| - 1];
      ArtistsOrdered(artists[..|artists| - 1]) + (if Truthy(a.name) then [a.name.value] else [])
  }

  /** An artist contributes its name exactly when that name is present and non-empty. */
  lemma ArtistsOrderedSingle(a: Artist)
    ensures ArtistsOrdered([a]) == (if Truthy(a.name) then [a.name.value] else [])
  {
    assert [a][..0] == [];
  }

  /** The names keep the artists' order: the names of a concatenation are the concatenated names. */
  lemma {:induction false} ArtistsOrderedAppend(xs: seq<Artist>, ys: seq<Artist>)
    ensures ArtistsOrdered(xs + ys) == ArtistsOrdered(xs) + ArtistsOrdered(ys)
    decreases |ys|
  {
    if ys == [] {
      assert xs + ys == xs;
    } else {
      var u := ys[..|ys| - 1];
      assert (xs + ys)[..|xs + ys| - 1] == xs + u;
      assert (xs + ys)[|xs + ys| - 1] == ys[|ys| - 1];
      ArtistsOrderedAppend(xs, u);
    }
  }

  /** No kept name is empty. */
  lemma {:induction false} NamesNonEmpty(xs: seq<Artist>)
    ensures forall i :: 0 <= i < |ArtistsOrdered(xs)| ==> ArtistsOrdered(xs)[i] != ""
  {
    if xs != [] {
      NamesNonEmpty(xs[..|xs| - 1]);
    }
  }
}
