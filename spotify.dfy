/**
  The Spotify export: the argument check of the top-artists request, the ranked
  artist rows, the normalised genre histogram, the CSV file names and the name
  the export greets the user with.
*/
module SpotifyData {
  import opened Wrappers
  import opened Text
  import opened Events
  import opened Sorting
  import opened Counter
  import opened Artists

  // ---------- fetch_top_artists ----------

  const TimeRanges: set<string> := {"short_term", "medium_term", "long_term"}

  datatype ValueError = ValueError(message: string)

  /** The request `current_user_top_artists` is sent. */
  datatype TopArtistsQuery = TopArtistsQuery(timeRange: string, limit: int)

  /** `max(1, min(50, limit))` */
  function ClampLimit(limit: int): (r: int)
    ensures 1 <= r <= 50
    ensures 1 <= limit <= 50 ==> r == limit
    ensures limit < 1 ==> r == 1
    ensures limit > 50 ==> r == 50
  {
    var capped := if limit < 50 then limit else 50;
    if capped < 1 then 1 else capped
  }

  /**
    `fetch_top_artists(sp, time_range, limit)` up to the API call: an unknown
    time range raises ValueError before anything is requested, and the limit
    sent always lies in 1..50.
  */
  function FetchTopArtists(timeRange: string, limit: int): (r: Result<TopArtistsQuery, ValueError>)
    ensures r.Err? <==> timeRange !in TimeRanges
    ensures r.Ok? ==> r.value.timeRange == timeRange && 1 <= r.value.limit <= 50
    ensures r.Ok? ==> r.value.limit == ClampLimit(limit)
  {
    if timeRange !in TimeRanges then Err(ValueError("time_range must be one of: short_term, medium_term, long_term"))
    else Ok(TopArtistsQuery(timeRange, ClampLimit(limit)))
  }

  // ---------- summarize_artists ----------

  /** `(rank, artist_name, followers, genres)` */
  datatype RankedArtist = RankedArtist(rank: int, name: Option<string>, followers: int, genres: seq<string>)

  /** `summarize_artists(artists)` */
  method SummarizeArtists(artists: seq<Artist>) returns (ranked: seq<RankedArtist>)
    ensures |ranked| == |artists|
    ensures forall i :: 0 <= i < |ranked| ==>
      ranked[i] == RankedArtist(i + 1, artists[i].name, FollowersOf(artists[i]), GenresOf(artists[i]))
  {
    ranked := [];
    for idx := 0 to |artists|
      invariant |ranked| == idx
      invariant forall i :: 0 <= i < idx ==>
        ranked[i] == RankedArtist(i + 1, artists[i].name, FollowersOf(artists[i]), GenresOf(artists[i]))
    {
      var a := artists[idx];
      ranked := ranked + [RankedArtist(idx + 1, a.name, FollowersOf(a), GenresOf(a))];
    }
  }

  /** A missing follower count reads as 0 and missing genres as none. */
  lemma SummaryDefaults(a: Artist)
    ensures a.followers.None? ==> FollowersOf(a) == 0
    ensures a.followers.Some? ==> FollowersOf(a) == a.followers.value
    ensures a.genres.None? ==> GenresOf(a) == []
    ensures a.genres.Some? ==> GenresOf(a) == a.genres.value
  {
  }

  // ---------- aggregate_genres ----------

  /** `g.strip().lower()` */
  function Normalize(g: string): string {
    Lower(Strip(g))
  }

  /** The normalised genres of one artist, in order. */
  function NormalizeAll(gs: seq<string>): seq<string> {
    if gs == [] then [] else NormalizeAll(gs[..|gs| - 1]) + [Normalize(gs[|gs| - 1])]
  }

  lemma {:induction false} NormalizeAllAppend(a: seq<string>, b: seq<string>)
    ensures NormalizeAll(a + b) == NormalizeAll(a) + NormalizeAll(b)
    decreases |b|
  {
    if b == [] {
      assert a + b == a;
    } else {
      var u := b[..|b| - 1];
      assert (a + b)[..|a + b| - 1] == a + u;
      assert (a + b)[|a + b| - 1] == b[|b| - 1];
      NormalizeAllAppend(a, u);
    }
  }

  lemma NormalizeAllPrefix(gs: seq<string>, j: int)
    requires 0 <= j < |gs|
    ensures NormalizeAll(gs[..j + 1]) == NormalizeAll(gs[..j]) + [Normalize(gs[j])]
  {
    assert gs[..j + 1][..j] == gs[..j];
  }

  /** A counted key is the normalised form of some genre. */
  lemma {:induction false} NormalizeAllMember(gs: seq<string>, x: string)
    ensures x in NormalizeAll(gs) <==> exists g :: g in gs && x == Normalize(g)
  {
    if gs != [] {
      var u, g := gs[..|gs| - 1], gs[|gs| - 1];
      NormalizeAllMember(u, x);
      assert gs == u + [g];
    }
  }

  /** `keys` and `counts` are the Counter of s: its keys in first-seen order and each key's count. */
  ghost predicate Tracks(keys: seq<string>, counts: map<string, nat>, s: seq<string>) {
    keys == Distinct(s)
    && (forall k :: k in counts <==> k in s)
    && (forall k :: k in counts ==> counts[k] == Occurrences(s, k))
  }

  /** `counter[x] += 1` */
  lemma TracksStep(keys: seq<string>, counts: map<string, nat>, s: seq<string>, x: string)
    requires Tracks(keys, counts, s)
    ensures Tracks(if x in counts then keys else keys + [x],
                   counts[x := (if x in counts then counts[x] else 0) + 1], s + [x])
  {
    var s2 := s + [x];
    assert s2[..|s2| - 1] == s && s2[|s2| - 1] == x;
    DistinctSpec(s);
    OccurrencesMember(s, x);
    assert Distinct(s2) == if x in s then Distinct(s) else Distinct(s) + [x];
    forall k
      ensures Occurrences(s2, k) == Occurrences(s, k) + (if k == x then 1 else 0)
    {
    }
    forall k
      ensures k in s2 <==> k in s || k == x
    {
    }
  }

  /** `counter.items()`, in key order. */
  function ItemsOf(keys: seq<string>, counts: map<string, nat>): (r: seq<(string, nat)>)
    requires forall k :: k in keys ==> k in counts
  {
    if keys == [] then [] else ItemsOf(keys[..|keys| - 1], counts) + [(keys[|keys| - 1], counts[keys[|keys| - 1]])]
  }

  lemma {:induction false} ItemsOfCounts(keys: seq<string>, counts: map<string, nat>, s: seq<string>)
    requires forall k :: k in keys ==> k in counts && counts[k] == Occurrences(s, k)
    ensures ItemsOf(keys, counts) == CountsOf(keys, s)
  {
    if keys != [] {
      ItemsOfCounts(keys[..|keys| - 1], counts, s);
    }
  }

  /** One pass of the inner loop: the Counter of the genres so far, plus genre j. */
  lemma CountStep(keys: seq<string>, counts: map<string, nat>, s: seq<string>, gs: seq<string>, j: int)
    requires 0 <= j < |gs|
    requires Tracks(keys, counts, s + NormalizeAll(gs[..j]))
    ensures var g := Normalize(gs[j]);
      Tracks(if g in counts then keys else keys + [g],
             counts[g := (if g in counts then counts[g] else 0) + 1], s + NormalizeAll(gs[..j + 1]))
  {
    NormalizedPrefixStep(s, gs, j);
    TracksStep(keys, counts, s + NormalizeAll(gs[..j]), Normalize(gs[j]));
  }

  lemma NormalizedPrefixStep(s: seq<string>, gs: seq<string>, j: int)
    requires 0 <= j < |gs|
    ensures s + NormalizeAll(gs[..j + 1]) == (s + NormalizeAll(gs[..j])) + [Normalize(gs[j])]
  {
    NormalizeAllPrefix(gs, j);
  }

  /** The inner loop of `aggregate_genres`: counts one artist's genres into the Counter. */
  method CountGenres(keys: seq<string>, counts: map<string, nat>, gs: seq<string>, ghost s: seq<string>)
    returns (keys': seq<string>, counts': map<string, nat>)
    requires Tracks(keys, counts, s)
    ensures Tracks(keys', counts', s + NormalizeAll(gs))
  {
    keys', counts' := keys, counts;
    assert s + NormalizeAll(gs[..0]) == s;
    for j := 0 to |gs|
      invariant Tracks(keys', counts', s + NormalizeAll(gs[..j]))
    {
      var g := Normalize(gs[j]);
      CountStep(keys', counts', s, gs, j);
      var newKeys := if g in counts' then keys' else keys' + [g];
      var newCounts := counts'[g := (if g in counts' then counts'[g] else 0) + 1];
      keys', counts' := newKeys, newCounts;
    }
    assert gs[..|gs|] == gs;
  }

  /** `aggregate_genres(artists, top_n)` */
  method AggregateGenres(artists: seq<Artist>, topN: int) returns (r: seq<(string, nat)>)
    ensures r == MostCommon(NormalizeAll(AllGenres(artists)), topN)
  {
    var keys: seq<string> := [];
    var counts: map<string, nat> := map[];
    for i := 0 to |artists|
      invariant Tracks(keys, counts, NormalizeAll(AllGenres(artists[..i])))
    {
      keys, counts := CountGenres(keys, counts, GenresOf(artists[i]), NormalizeAll(AllGenres(artists[..i])));
      assert artists[..i + 1][..i] == artists[..i];
      NormalizeAllAppend(AllGenres(artists[..i]), GenresOf(artists[i]));
    }
    assert artists[..|artists|] == artists;
    ghost var s := NormalizeAll(AllGenres(artists));
    DistinctSpec(s);
    ItemsOfCounts(keys, counts, s);
    r := Take(SortBy(ItemsOf(keys, counts), CountGe), topN);
  }

  /**
    The histogram lists at most top_n genres, each with the number of times it
    occurs among the normalised genres, no genre twice, counts never increasing;
    when top_n covers every genre, the counts add up to the number of genre
    entries.
  */
  lemma AggregateGenresSpec(artists: seq<Artist>, topN: int)
    ensures var s := NormalizeAll(AllGenres(artists)); var r := MostCommon(s, topN);
      |r| <= (if topN <= 0 then 0 else topN)
      && (forall i :: 0 <= i < |r| ==> r[i].0 in s && r[i].1 == Occurrences(s, r[i].0))
      && (forall i, j :: 0 <= i < j < |r| ==> r[i].0 != r[j].0 && r[i].1 >= r[j].1)
      && (topN >= |Distinct(s)| ==> SumCounts(r) == |AllGenres(artists)|)
  {
    var s := NormalizeAll(AllGenres(artists));
    MostCommonSpec(s, topN);
    if topN >= |Distinct(s)| {
      MostCommonTotal(s, topN);
      NormalizeAllLength(AllGenres(artists));
    }
  }

  /** Normalising keeps one entry per genre. */
  lemma {:induction false} NormalizeAllLength(gs: seq<string>)
    ensures |NormalizeAll(gs)| == |gs|
  {
    if gs != [] {
      NormalizeAllLength(gs[..|gs| - 1]);
    }
  }

  /** Each listed genre is the stripped, lower-cased form of some artist's genre. */
  lemma AggregateGenresKeys(artists: seq<Artist>, topN: int, i: int)
    requires 0 <= i < |MostCommon(NormalizeAll(AllGenres(artists)), topN)|
    ensures exists k, g ::
      0 <= k < |artists| && g in GenresOf(artists[k])
      && MostCommon(NormalizeAll(AllGenres(artists)), topN)[i].0 == Normalize(g)
  {
    var x := MostCommon(NormalizeAll(AllGenres(artists)), topN)[i].0;
    MostCommonSpec(NormalizeAll(AllGenres(artists)), topN);
    NormalizeAllMember(AllGenres(artists), x);
    var g :| g in AllGenres(artists) && x == Normalize(g);
    AllGenresMember(artists, g);
  }

  /** " Rock" and "rock" are counted as one genre. */
  lemma NormalizeMerges()
    ensures Normalize(" Rock") == Normalize("rock") == "rock"
  {
    assert " Rock"[1..] == "Rock";
    assert LStrip(" Rock") == "Rock";
    assert Strip(" Rock") == "Rock";
    assert Strip("rock") == "rock";
    var r := Lower("Rock");
    assert r[0] == 'r' && r[1] == 'o' && r[2] == 'c' && r[3] == 'k';
    var t := Lower("rock");
    assert t[0] == 'r' && t[1] == 'o' && t[2] == 'c' && t[3] == 'k';
  }

  // ---------- maybe_write_csv ----------

  /** `p.rfind(c)` */
  function RFind(p: string, c: char): (r: int)
    ensures -1 <= r < |p|
    ensures r >= 0 ==> p[r] == c
    ensures forall k :: r < k < |p| ==> p[k] != c
  {
    if p == [] then -1 else if p[|p| - 1] == c then |p| - 1 else RFind(p[..|p| - 1], c)
  }

  predicate OnlyDots(s: string) {
    forall i :: 0 <= i < |s| ==> s[i] == '.'
  }

  /**
    `os.path.splitext(p)` on POSIX paths: the extension runs from the last dot
    of the last path component, unless everything before that dot in the
    component is dots.
  */
  function SplitExt(p: string): (r: (string, string)) {
    var sepIndex := RFind(p, '/');
    var dotIndex := RFind(p, '.');
    if dotIndex > sepIndex && !OnlyDots(p[sepIndex + 1..dotIndex]) then (p[..dotIndex], p[dotIndex..])
    else (p, "")
  }

  /** When splitext finds an extension, it is where the last dot of the path is, after the last slash. */
  lemma SplitExtCut(p: string)
    ensures var dotIndex := RFind(p, '.');
      SplitExt(p).1 != "" ==>
        RFind(p, '/') < dotIndex && !OnlyDots(p[RFind(p, '/') + 1..dotIndex])
        && SplitExt(p) == (p[..dotIndex], p[dotIndex..])
  {
  }

  /** A non-empty extension is one dot followed by neither dots nor slashes. */
  lemma SplitExtExtension(p: string)
    ensures var ext := SplitExt(p).1;
      ext != "" ==> ext[0] == '.' && forall i :: 1 <= i < |ext| ==> ext[i] != '.' && ext[i] != '/'
  {
    SplitExtCut(p);
    var ext := SplitExt(p).1;
    if ext != "" {
      var dotIndex := RFind(p, '.');
      forall i | 1 <= i < |ext|
        ensures ext[i] != '.' && ext[i] != '/'
      {
        assert ext[i] == p[dotIndex + i];
      }
    }
  }

  /** Before a non-empty extension, the last component holds something other than dots. */
  lemma SplitExtBase(p: string)
    ensures var base := SplitExt(p).0;
      SplitExt(p).1 != "" ==>
        exists k :: 0 <= k < |base| && base[k] != '.' && forall i :: k <= i < |base| ==> base[i] != '/'
  {
    SplitExtCut(p);
    if SplitExt(p).1 != "" {
      var sepIndex, dotIndex := RFind(p, '/'), RFind(p, '.');
      assert -1 <= sepIndex < dotIndex < |p|;
      var base := SplitExt(p).0;
      assert base == p[..dotIndex] && |base| == dotIndex;
      var seg := p[sepIndex + 1..dotIndex];
      assert !OnlyDots(seg);
      var i :| 0 <= i < |seg| && seg[i] != '.';
      var k := sepIndex + 1 + i;
      assert 0 <= k < |base|;
      assert base[k] == seg[i];
      forall m | k <= m < |base|
        ensures base[m] != '/'
      {
        assert sepIndex < m < |p|;
        assert base[m] == p[m];
      }
      assert 0 <= k < |base| && base[k] != '.' && forall m :: k <= m < |base| ==> base[m] != '/';
    }
  }

  /**
    The two halves make up the path; a non-empty extension is one dot
    followed by neither dots nor slashes, and it is preceded within the last
    component by something other than dots.
  */
  lemma SplitExtSpec(p: string)
    ensures var base, ext := SplitExt(p).0, SplitExt(p).1;
      base + ext == p
      && (ext != "" ==>
            ext[0] == '.' && (forall i :: 1 <= i < |ext| ==> ext[i] != '.' && ext[i] != '/')
            && exists k :: 0 <= k < |base| && base[k] != '.' && forall i :: k <= i < |base| ==> base[i] != '/')
  {
    SplitExtCut(p);
    SplitExtExtension(p);
    SplitExtBase(p);
    if SplitExt(p).1 == "" {
      assert SplitExt(p).0 + "" == SplitExt(p).0;
    } else {
      assert p[..RFind(p, '.')] + p[RFind(p, '.')..] == p;
    }
  }

  /** The artist and genre CSV paths `maybe_write_csv` writes. */
  function CsvNames(outPath: string): (names: (string, string)) {
    var (base, ext) := SplitExt(outPath);
    if ext == "" then (base + "_artists.csv", base + "_genres.csv")
    else (base + "_artists" + ext, base + "_genres" + ext)
  }

  /**
    Both files keep the path's base and extension, ".csv" when there is none,
    and never coincide.
  */
  lemma CsvNamesSpec(outPath: string)
    ensures var e := if SplitExt(outPath).1 == "" then ".csv" else SplitExt(outPath).1;
      CsvNames(outPath) == (SplitExt(outPath).0 + "_artists" + e, SplitExt(outPath).0 + "_genres" + e)
      && CsvNames(outPath).0 != CsvNames(outPath).1
  {
    var base := SplitExt(outPath).0;
    if SplitExt(outPath).1 == "" {
      assert base + "_artists" + ".csv" == base + "_artists.csv";
      assert base + "_genres" + ".csv" == base + "_genres.csv";
    }
    var a := CsvNames(outPath).0;
    var g := CsvNames(outPath).1;
    assert a[|base| + 1] == 'a';
    assert g[|base| + 1] == 'g';
  }

  /** A path without a dot is taken as a base without extension. */
  lemma CsvNamesWithoutDot(outPath: string)
    requires '.' !in outPath
    ensures CsvNames(outPath) == (outPath + "_artists.csv", outPath + "_genres.csv")
  {
  }

  // ---------- gather_spotify_data ----------

  /** `me.get("display_name") or me.get("id") or "Unknown User"` */
  function DisplayName(displayName: Option<string>, id: Option<string>): (r: string)
    ensures r != ""
    ensures Truthy(displayName) ==> r == displayName.value
    ensures !Truthy(displayName) && Truthy(id) ==> r == id.value
    ensures !Truthy(displayName) && !Truthy(id) ==> r == "Unknown User"
  {
    if Truthy(displayName) then displayName.value
    else if Truthy(id) then id.value
    else "Unknown User"
  }
}
