/**
  A Spotify artist object as the taste and export code reads it: the name, the
  follower total and the genre list, each of which may be missing or null.
*/
module Artists {
  import opened Wrappers

  datatype Artist = Artist(name: Option<string>, followers: Option<int>, genres: Option<seq<string>>)

  /** `a.get("genres") or []` */
  function GenresOf(a: Artist): seq<string> {
    if a.genres.Some? then a.genres.value else []
  }

  /** `(a.get("followers") or {}).get("total") or 0` */
  function FollowersOf(a: Artist): int {
    if a.followers.Some? then a.followers.value else 0
  }

  /** Every artist's genres, artist after artist: the list `genres.extend(...)` builds. */
  function AllGenres(artists: seq<Artist>): seq<string> {
    if artists == [] then [] else AllGenres(artists[..|artists| - 1]) + GenresOf(artists[|artists| - 1])
  }

  lemma {:induction false} AllGenresAppend(a: seq<Artist>, b: seq<Artist>)
    ensures AllGenres(a + b) == AllGenres(a) + AllGenres(b)
    decreases |b|
  {
    if b == [] {
      assert a + b == a;
    } else {
      var u := b[..|b| - 1];
      assert (a + b)[..|a + b| - 1] == a + u;
      assert (a + b)[|a + b| - 1] == b[|b| - 1];
      AllGenresAppend(a, u);
    }
  }

  /** A genre is in the list exactly when some artist lists it. */
  lemma {:induction false} AllGenresMember(artists: seq<Artist>, g: string)
    ensures g in AllGenres(artists) <==> exists k :: 0 <= k < |artists| && g in GenresOf(artists[k])
  {
    if artists != [] {
      var u := artists[..|artists| - 1];
      AllGenresMember(u, g);
      assert forall k :: 0 <= k < |u| ==> u[k] == artists[k];
    }
  }
}
