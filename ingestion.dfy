/**
  The listing scraper's record pipeline (`collect_events_from_soup`), its
  page loop (`scrape_more`) and the whitespace cleaner `clean_text`.

  A page is the list of raw cards `parse_cards` extracted from it; fetching,
  the DOM queries and `find_next_url` are not modelled, so the pages a run
  reaches are given as the list of card lists of the pages in link order.
*/
module Ingestion {
  import opened Wrappers
  import opened Calendar
  import opened Text
  import opened Events
  import opened TimeUtils
  import opened EventTime
  import opened Sorting
  import GreekDates

  // ---------- clean_text ----------

  /** `re.sub(r"\s+", " ", s)`: every maximal run of whitespace becomes one space. */
  function Collapse(s: string): (r: string)
    decreases |s|
  {
    if s == [] then []
    else if IsSpace(s[0]) then [' '] + Collapse(LStrip(s[1..]))
    else [s[0]] + Collapse(s[1..])
  }

  /** The only whitespace is the plain space, and no two spaces are adjacent. */
  predicate Normalized(s: string) {
    (forall i :: 0 <= i < |s| && IsSpace(s[i]) ==> s[i] == ' ')
    && (forall i :: 0 < i < |s| && s[i] == ' ' ==> s[i - 1] != ' ')
  }

  /** `clean_text(s)` */
  function CleanText(s: Option<string>): string {
    Strip(Collapse(OrEmpty(s)))
  }

  /** The non-whitespace characters of s, in order. */
  function Visible(s: string): string {
    if s == [] then [] else (if IsSpace(s[0]) then [] else [s[0]]) + Visible(s[1..])
  }

  lemma {:induction false} VisibleConcat(a: string, b: string)
    ensures Visible(a + b) == Visible(a) + Visible(b)
  {
    if a == [] {
      assert a + b == b;
    } else {
      assert (a + b)[0] == a[0] && (a + b)[1..] == a[1..] + b;
      VisibleConcat(a[1..], b);
      var h := if IsSpace(a[0]) then [] else [a[0]];
      calc {
        Visible(a + b);
        h + Visible(a[1..] + b);
        h + (Visible(a[1..]) + Visible(b));
        (h + Visible(a[1..])) + Visible(b);
        Visible(a) + Visible(b);
      }
    }
  }

  lemma {:induction false} VisibleLStrip(s: string)
    ensures Visible(LStrip(s)) == Visible(s)
  {
    if s != [] && IsSpace(s[0]) {
      VisibleLStrip(s[1..]);
    }
  }

  lemma {:induction false} VisibleRStrip(s: string)
    ensures Visible(RStrip(s)) == Visible(s)
  {
    if s != [] && IsSpace(s[|s| - 1]) {
      var init := s[..|s| - 1];
      VisibleRStrip(init);
      assert s == init + [s[|s| - 1]];
      VisibleConcat(init, [s[|s| - 1]]);
      assert Visible([s[|s| - 1]]) == [] + Visible([]);
    }
  }

  /** Collapsing keeps every visible character, in order, and starts with a space exactly when s does. */
  lemma {:induction false} CollapseShape(s: string)
    ensures Visible(Collapse(s)) == Visible(s)
    ensures Normalized(Collapse(s))
    ensures Collapse(s) == [] <==> s == []
    ensures Collapse(s) != [] ==> (IsSpace(Collapse(s)[0]) <==> IsSpace(s[0]))
    decreases |s|
  {
    if s != [] {
      var r := Collapse(s);
      if IsSpace(s[0]) {
        var l := LStrip(s[1..]);
        CollapseShape(l);
        LStripSpec(s[1..]);
        VisibleLStrip(s[1..]);
        var c := Collapse(l);
        assert r == [' '] + c;
        VisibleConcat([' '], c);
        assert Visible([' ']) == [] + Visible([]);
        assert c != [] ==> !IsSpace(c[0]);
        forall i | 0 < i < |r| && r[i] == ' '
          ensures r[i - 1] != ' '
        {
          assert r[i] == c[i - 1];
          if i > 1 {
            assert r[i - 1] == c[i - 2];
          }
        }
      } else {
        CollapseShape(s[1..]);
        var c := Collapse(s[1..]);
        assert r == [s[0]] + c;
        VisibleConcat([s[0]], c);
        assert Visible([s[0]]) == [s[0]] + Visible([]);
        forall i | 0 < i < |r| && r[i] == ' '
          ensures r[i - 1] != ' '
        {
          assert r[i] == c[i - 1];
          if i > 1 {
            assert r[i - 1] == c[i - 2];
          }
        }
      }
    }
  }

  /** A normalized string has nothing left to collapse. */
  lemma {:induction false} CollapseNormalized(s: string)
    requires Normalized(s)
    ensures Collapse(s) == s
    decreases |s|
  {
    if s != [] {
      assert Normalized(s[1..]) by {
        forall i | 0 < i < |s[1..]| && s[1..][i] == ' '
          ensures s[1..][i - 1] != ' '
        {
          assert s[i + 1] == ' ';
        }
      }
      if IsSpace(s[0]) {
        if |s| > 1 {
          assert s[0] == ' ';
          assert !IsSpace(s[1]);
        }
        assert LStrip(s[1..]) == s[1..];
      }
      CollapseNormalized(s[1..]);
      assert s == [s[0]] + s[1..];
    }
  }

  /** A slice of a normalized string is normalized. */
  lemma NormalizedSlice(s: string, lo: int, hi: int)
    requires Normalized(s) && 0 <= lo <= hi <= |s|
    ensures Normalized(s[lo..hi])
  {
    var t := s[lo..hi];
    forall i | 0 < i < |t| && t[i] == ' '
      ensures t[i - 1] != ' '
    {
      assert t[i] == s[lo + i] && t[i - 1] == s[lo + i - 1];
    }
  }

  /**
    `clean_text` collapses each whitespace run to one space and strips both
    ends: the result keeps the visible characters of the input in order, has
    no other whitespace than single spaces, and none at its ends.
  */
  lemma CleanTextSpec(s: Option<string>)
    ensures Visible(CleanText(s)) == Visible(OrEmpty(s))
    ensures Normalized(CleanText(s))
    ensures CleanText(s) == [] || (!IsSpace(CleanText(s)[0]) && !IsSpace(CleanText(s)[|CleanText(s)| - 1]))
  {
    var c := Collapse(OrEmpty(s));
    CollapseShape(OrEmpty(s));
    VisibleLStrip(c);
    VisibleRStrip(LStrip(c));
    StripSpec(c);
    StripSlice(c);
    NormalizedSlice(c, |c| - |LStrip(c)|, |c| - |LStrip(c)| + |Strip(c)|);
  }

  /** Cleaning a cleaned text changes nothing. */
  lemma CleanTextIdempotent(s: Option<string>)
    ensures CleanText(Some(CleanText(s))) == CleanText(s)
  {
    var t := CleanText(s);
    CleanTextSpec(s);
    CollapseNormalized(t);
    StripClean(t);
  }

  // ---------- one card ----------

  /**
    Reads a pill text with a fallback year into (start, end) dates; the
    scraper's reader is `GreekDates.ParseGreekDateOrRange`.
  */
  type PillReader = (string, int) -> (Option<ValidDate>, Option<ValidDate>)

  /** The window and the region filter a scrape runs with. */
  datatype Query = Query(rangeA: ValidDate, rangeB: CalDate, locationOnly: bool, locationTitle: string)

  /** The card's (start, end) dates: its ISO date when that parses, otherwise its pill text read with the fallback year. */
  function CardDates(it: RawCard, fallbackYear: int, pill: PillReader): (r: (Option<ValidDate>, Option<ValidDate>))
  {
    var iso := if Truthy(it.startIso) then ParseIsoDate(it.startIso.value) else None;
    if iso.Some? then (iso, iso) else pill(OrEmpty(it.pill), fallbackYear)
  }

  /** A card whose ISO date parses has that date as start and end, whatever its pill says. */
  lemma IsoPreferred(it: RawCard, fallbackYear: int, pill: PillReader, otherPill: Option<string>, otherYear: int, otherReader: PillReader)
    requires Truthy(it.startIso) && ParseIsoDate(it.startIso.value).Some?
    ensures CardDates(it, fallbackYear, pill) == (ParseIsoDate(it.startIso.value), ParseIsoDate(it.startIso.value))
    ensures CardDates(it, fallbackYear, pill) == CardDates(it.(pill := otherPill), otherYear, otherReader)
  {
  }

  /** A missing, empty or unparsable ISO date counts for nothing: the pill alone decides. */
  lemma PillFallback(it: RawCard, fallbackYear: int, pill: PillReader)
    requires !(Truthy(it.startIso) && ParseIsoDate(it.startIso.value).Some?)
    ensures CardDates(it, fallbackYear, pill) == CardDates(it.(startIso := None), fallbackYear, pill)
    ensures CardDates(it, fallbackYear, pill) == pill(OrEmpty(it.pill), fallbackYear)
  {
  }

  /**
    The representative date: `max(start or end, range_a)`, reset to `range_a`
    when it lies after `range_b`; None when both dates are missing.
  */
  function Representative(s: Option<ValidDate>, e: Option<ValidDate>, a: ValidDate, b: CalDate): (r: Option<ValidDate>)
    ensures r.Some? <==> s.Some? || e.Some?
  {
    if s.Some? || e.Some? then
      var x := if s.Some? then s.value else e.value;
      var chosen := if DateLt(x, a) then a else x;
      Some(if DateLt(b, chosen) then a else chosen)
    else None
  }

  /**
    After the overlap test, over a well-formed window, the representative date
    exists and is the later of the first known date and `range_a`: neither the
    reset to `range_a` nor the None branch is ever taken, and the date lies in
    the window.
  */
  lemma RepresentativeInWindow(s: Option<ValidDate>, e: Option<ValidDate>, a: ValidDate, b: CalDate)
    requires Before(a, b) && OverlapsRange(s, e, a, b)
    ensures var r, x := Representative(s, e, a, b), if s.Some? then s.value else e.value;
      r.Some?
      && Ordinal(r.value) == (if Ordinal(x) < Ordinal(a) then Ordinal(a) else Ordinal(x))
      && Within(Ordinal(r.value), a, b)
  {
    var x := if s.Some? then s.value else e.value;
    var chosen := if DateLt(x, a) then a else x;
    OverlapsRangeOrdinal(s, e, a, b);
    DateLeOrdinal(a, x);
    DateLeOrdinal(chosen, b);
    if e.Some? {
      DateLeOrdinal(x, e.value);
    }
  }

  /** `(region or "").strip() == location_title` when the region filter is on. */
  predicate RegionOk(it: RawCard, q: Query) {
    !q.locationOnly || Strip(OrEmpty(it.region)) == q.locationTitle
  }

  /** One turn of `collect_events_from_soup`'s loop: the event a card yields, if it survives the filters. */
  function IngestCard(it: RawCard, q: Query, pill: PillReader): (r: Option<Event>)
  {
    if it.hidden || !Truthy(it.url) then None
    else
      var dates := CardDates(it, q.rangeA.y, pill);
      if !RegionOk(it, q) then None
      else if !OverlapsRange(dates.0, dates.1, q.rangeA, q.rangeB) then None
      else
        var rep := Representative(dates.0, dates.1, q.rangeA, q.rangeB);
        Some(Event(
          if it.title == "" then "(untitled)" else it.title,
          it.url.value,
          if rep.Some? then Some(FormatIsoDate(rep.value)) else None,
          it.venue, it.city, it.region, it.image))
  }

  /** The stored start date is the `YYYY-MM-DD` text of a day inside the window. */
  predicate DatedInWindow(ev: Event, q: Query) {
    ev.startDate.Some?
    && var d := ParseIsoDate(ev.startDate.value);
    d.Some? && ev.startDate.value == FormatIsoDate(d.value) && Within(Ordinal(d.value), q.rangeA, q.rangeB)
  }

  /**
    A card survives exactly when it is visible, has a url, passes the region
    filter and its dates overlap the window. A survivor keeps the card's url,
    venue, city, region and image, has a non-empty title ("(untitled)" for an
    empty one) and a start date inside the window.
  */
  lemma IngestCardSpec(it: RawCard, q: Query, pill: PillReader)
    requires Before(q.rangeA, q.rangeB)
    ensures var dates := CardDates(it, q.rangeA.y, pill);
      IngestCard(it, q, pill).Some? <==>
        !it.hidden && Truthy(it.url) && RegionOk(it, q) && OverlapsRange(dates.0, dates.1, q.rangeA, q.rangeB)
    ensures IngestCard(it, q, pill).Some? ==>
      var ev := IngestCard(it, q, pill).value;
      ev.url == it.url.value && ev.url != ""
      && ev.venue == it.venue && ev.city == it.city && ev.region == it.region && ev.image == it.image
      && ev.title == (if it.title == "" then "(untitled)" else it.title) && ev.title != ""
      && DatedInWindow(ev, q)
  {
    var dates := CardDates(it, q.rangeA.y, pill);
    if IngestCard(it, q, pill).Some? {
      RepresentativeInWindow(dates.0, dates.1, q.rangeA, q.rangeB);
      var d := Representative(dates.0, dates.1, q.rangeA, q.rangeB).value;
      IsoRoundTrip(d);
    }
  }

  /** A visible card whose ISO date falls in the window is stored under that very date. */
  lemma IsoDateKept(it: RawCard, q: Query, pill: PillReader, d: ValidDate)
    requires !it.hidden && Truthy(it.url) && RegionOk(it, q)
    requires Truthy(it.startIso) && ParseIsoDate(it.startIso.value) == Some(d) && Within(Ordinal(d), q.rangeA, q.rangeB)
    ensures IngestCard(it, q, pill).Some? && IngestCard(it, q, pill).value.startDate == Some(FormatIsoDate(d))
  {
    OverlapsRangeOrdinal(Some(d), Some(d), q.rangeA, q.rangeB);
  }

  /** The bucketer reads a stored start date back as local midnight of the same day. */
  lemma StoredDateReadsBack(it: RawCard, q: Query, pill: PillReader, parse: DateTimeParser)
    requires Before(q.rangeA, q.rangeB) && IngestCard(it, q, pill).Some?
    ensures var ev := IngestCard(it, q, pill).value;
      ParseEventDt(ev, parse).Some? && ParseEventDt(ev, parse).value.time == 0
      && Within(Ordinal(ParseEventDt(ev, parse).value.date), q.rangeA, q.rangeB)
  {
    IngestCardSpec(it, q, pill);
    var ev := IngestCard(it, q, pill).value;
    var d := ParseIsoDate(ev.startDate.value).value;
    ParseEventDtOfIsoDate(ev, parse, d);
  }

  /**
    With the scraper's own reader and `range_a`'s year as the fallback: a visible
    card with a url and no ISO date whose pill reads `DD Οκτ - EE Οκτ` (such as
    `16 Οκτ - 18 Οκτ`) is stored under day DD of October of that year, when
    that day lies in the window and EE is a later day of October.
  */
  lemma GreekPillCard(it: RawCard, q: Query, a: string, b: string)
    requires |a| == 2 && AllDigits(a) && |b| == 2 && AllDigits(b)
    requires 1 <= DigitsValue(a) <= DigitsValue(b) <= 31
    requires !it.hidden && Truthy(it.url) && RegionOk(it, q) && it.startIso.None?
    requires it.pill == Some(a + " Οκτ - " + b + " Οκτ")
    requires Within(Ordinal(Date(q.rangeA.y, 10, DigitsValue(a))), q.rangeA, q.rangeB)
    ensures IngestCard(it, q, GreekDates.ParseGreekDateOrRange).Some?
    ensures IngestCard(it, q, GreekDates.ParseGreekDateOrRange).value.startDate
      == Some(FormatIsoDate(Date(q.rangeA.y, 10, DigitsValue(a))))
  {
    var y := q.rangeA.y;
    GreekDates.OctoberRange(a, b, y);
    var s: ValidDate, e: ValidDate := Date(y, 10, DigitsValue(a)), Date(y, 10, DigitsValue(b));
    assert CardDates(it, y, GreekDates.ParseGreekDateOrRange) == (Some(s), Some(e));
    OverlapsRangeOrdinal(Some(s), Some(e), q.rangeA, q.rangeB);
    DateLeOrdinal(s, q.rangeA);
    DateLeOrdinal(q.rangeA, s);
    DateLeOrdinal(q.rangeB, s);
    assert Representative(Some(s), Some(e), q.rangeA, q.rangeB) == Some(s);
  }

  // ---------- one page ----------

  /** An optional event as a list of zero or one events. */
  function AsList(r: Option<Event>): seq<Event> {
    if r.Some? then [r.value] else []
  }

  /** The events `collect_events_from_soup` returns for a page's cards. */
  function Collected(cards: seq<RawCard>, q: Query, pill: PillReader): (r: seq<Event>)
    ensures |r| <= |cards|
  {
    if cards == [] then [] else Collected(cards[..|cards| - 1], q, pill) + AsList(IngestCard(cards[|cards| - 1], q, pill))
  }

  /** The survivors of two runs of cards are those of the first run followed by those of the second: input order is kept. */
  lemma {:induction false} CollectedConcat(c1: seq<RawCard>, c2: seq<RawCard>, q: Query, pill: PillReader)
    ensures Collected(c1 + c2, q, pill) == Collected(c1, q, pill) + Collected(c2, q, pill)
  {
    if c2 == [] {
      assert c1 + c2 == c1;
    } else {
      var init, last := c2[..|c2| - 1], c2[|c2| - 1];
      assert (c1 + c2)[..|c1 + c2| - 1] == c1 + init;
      assert (c1 + c2)[|c1 + c2| - 1] == last;
      CollectedConcat(c1, init, q, pill);
      var t := AsList(IngestCard(last, q, pill));
      calc {
        Collected(c1 + c2, q, pill);
        Collected(c1 + init, q, pill) + t;
        (Collected(c1, q, pill) + Collected(init, q, pill)) + t;
        Collected(c1, q, pill) + (Collected(init, q, pill) + t);
        Collected(c1, q, pill) + Collected(c2, q, pill);
      }
    }
  }

  /** Every event a page yields has a url, a title, the required region and a start date inside the window. */
  lemma {:induction false} CollectedWellFormed(cards: seq<RawCard>, q: Query, pill: PillReader)
    requires Before(q.rangeA, q.rangeB)
    ensures forall k :: 0 <= k < |Collected(cards, q, pill)| ==>
      var ev := Collected(cards, q, pill)[k];
      ev.url != "" && ev.title != "" && DatedInWindow(ev, q)
      && (q.locationOnly ==> Strip(OrEmpty(ev.region)) == q.locationTitle)
  {
    if cards != [] {
      var init, last := cards[..|cards| - 1], cards[|cards| - 1];
      CollectedWellFormed(init, q, pill);
      IngestCardSpec(last, q, pill);
      var c, t := Collected(init, q, pill), AsList(IngestCard(last, q, pill));
      assert Collected(cards, q, pill) == c + t;
      forall k | |c| <= k < |c + t|
        ensures (c + t)[k] == IngestCard(last, q, pill).value
      {
      }
    }
  }

  /**
    The body of `collect_events_from_soup`'s loop for one card; each `continue`
    of the loop is a return of None.
  */
  method IngestOne(it: RawCard, q: Query, pill: PillReader) returns (r: Option<Event>)
    ensures r == IngestCard(it, q, pill)
  {
    if it.hidden {
      return None;
    }
    if !Truthy(it.url) {
      return None;
    }
    var title := if it.title == "" then "(untitled)" else it.title;
    var startDt := if Truthy(it.startIso) then ParseIsoDate(it.startIso.value) else None;
    var endDt := startDt;
    if startDt.None? {
      var se := pill(OrEmpty(it.pill), q.rangeA.y);
      startDt, endDt := se.0, se.1;
    }
    assert (startDt, endDt) == CardDates(it, q.rangeA.y, pill);
    if q.locationOnly && Strip(OrEmpty(it.region)) != q.locationTitle {
      return None;
    }
    if !OverlapsRange(startDt, endDt, q.rangeA, q.rangeB) {
      return None;
    }
    var startIsoOut: Option<string>;
    if startDt.Some? || endDt.Some? {
      var x := if startDt.Some? then startDt.value else endDt.value;
      var chosen := if DateLt(x, q.rangeA) then q.rangeA else x;
      if DateLt(q.rangeB, chosen) {
        chosen := q.rangeA;
      }
      assert Some(chosen) == Representative(startDt, endDt, q.rangeA, q.rangeB);
      startIsoOut := Some(FormatIsoDate(chosen));
    } else {
      startIsoOut := None;
    }
    return Some(Event(title, it.url.value, startIsoOut, it.venue, it.city, it.region, it.image));
  }

  /** `collect_events_from_soup(soup, range_a, range_b, ...)` over the page's cards. */
  method CollectEventsFromSoup(items: seq<RawCard>, q: Query, pill: PillReader) returns (out: seq<Event>)
    ensures out == Collected(items, q, pill)
  {
    out := [];
    var i := 0;
    while i < |items|
      invariant 0 <= i <= |items|
      invariant out == Collected(items[..i], q, pill)
    {
      var ev := IngestOne(items[i], q, pill);
      assert items[..i + 1][..i] == items[..i];
      if ev.Some? {
        out := out + [ev.value];
      }
      i := i + 1;
    }
    assert items[..|items|] == items;
  }

  // ---------- the page loop ----------

  const MaxPages: nat := 30

  /** The urls of a list of events. */
  function UrlSet(s: seq<Event>): set<string> {
    set e | e in s :: e.url
  }

  lemma UrlSetConcat(a: seq<Event>, b: seq<Event>)
    ensures UrlSet(a + b) == UrlSet(a) + UrlSet(b)
  {
    forall u | u in UrlSet(a + b)
      ensures u in UrlSet(a) + UrlSet(b)
    {
      var e :| e in a + b && e.url == u;
    }
    forall u | u in UrlSet(a) + UrlSet(b)
      ensures u in UrlSet(a + b)
    {
      if u in UrlSet(a) {
        var e :| e in a && e.url == u;
        assert e in a + b;
      } else {
        var e :| e in b && e.url == u;
        assert e in a + b;
      }
    }
  }

  /** `[e for e in items if e.url not in seen_urls]` */
  function Fresh(items: seq<Event>, seen: set<string>): (r: seq<Event>)
    ensures |r| <= |items|
  {
    if items == [] then []
    else (if items[0].url in seen then [] else [items[0]]) + Fresh(items[1..], seen)
  }

  /** The events each page yields, page by page. */
  function PageEvents(pages: seq<seq<RawCard>>, q: Query, pill: PillReader): (r: seq<seq<Event>>)
    ensures |r| == |pages|
    ensures forall j :: 0 <= j < |pages| ==> r[j] == Collected(pages[j], q, pill)
  {
    seq(|pages|, j requires 0 <= j < |pages| => Collected(pages[j], q, pill))
  }

  /** Page lists merged in order, each adding its events whose urls were not met before. */
  function GatherAll(lists: seq<seq<Event>>): seq<Event> {
    if lists == [] then []
    else
      var g := GatherAll(lists[..|lists| - 1]);
      g + Fresh(lists[|lists| - 1], UrlSet(g))
  }

  /** The events gathered over the given pages, before the final sort. */
  function Gathered(pages: seq<seq<RawCard>>, q: Query, pill: PillReader): seq<Event> {
    GatherAll(PageEvents(pages, q, pill))
  }

  /** Reading one more page appends its events whose urls were not gathered before. */
  lemma GatheredStep(pages: seq<seq<RawCard>>, k: nat, q: Query, pill: PillReader)
    requires k < |pages|
    ensures var g := Gathered(pages[..k], q, pill);
      Gathered(pages[..k + 1], q, pill) == g + Fresh(Collected(pages[k], q, pill), UrlSet(g))
  {
    var lists := PageEvents(pages[..k + 1], q, pill);
    assert lists[..k] == PageEvents(pages[..k], q, pill);
    assert lists[k] == Collected(pages[k], q, pill);
  }

  /** The events of s with url u, in order. */
  function WithUrl(s: seq<Event>, u: string): seq<Event> {
    if s == [] then [] else (if s[0].url == u then [s[0]] else []) + WithUrl(s[1..], u)
  }

  lemma {:induction false} WithUrlConcat(a: seq<Event>, b: seq<Event>, u: string)
    ensures WithUrl(a + b, u) == WithUrl(a, u) + WithUrl(b, u)
  {
    if a == [] {
      assert a + b == b;
    } else {
      assert (a + b)[0] == a[0] && (a + b)[1..] == a[1..] + b;
      WithUrlConcat(a[1..], b, u);
      var h := if a[0].url == u then [a[0]] else [];
      calc {
        WithUrl(a + b, u);
        h + WithUrl(a[1..] + b, u);
        h + (WithUrl(a[1..], u) + WithUrl(b, u));
        (h + WithUrl(a[1..], u)) + WithUrl(b, u);
        WithUrl(a, u) + WithUrl(b, u);
      }
    }
  }

  lemma {:induction false} WithUrlEmpty(s: seq<Event>, u: string)
    ensures WithUrl(s, u) == [] <==> u !in UrlSet(s)
  {
    if s != [] {
      WithUrlEmpty(s[1..], u);
      assert s == [s[0]] + s[1..];
      assert UrlSet(s) == {s[0].url} + UrlSet(s[1..]) by {
        UrlSetConcat([s[0]], s[1..]);
        assert UrlSet([s[0]]) == {s[0].url};
      }
    }
  }

  /** The unseen events with url u: none when u was seen, all of them (duplicates included) otherwise. */
  lemma {:induction false} WithUrlFresh(items: seq<Event>, seen: set<string>, u: string)
    ensures WithUrl(Fresh(items, seen), u) == if u in seen then [] else WithUrl(items, u)
  {
    if items != [] {
      WithUrlFresh(items[1..], seen, u);
      var head := if items[0].url in seen then [] else [items[0]];
      WithUrlConcat(head, Fresh(items[1..], seen), u);
      if head != [] {
        assert head[1..] == [];
      }
    }
  }

  /** Appending the unseen part of a page: the events with url u gain that page's ones only when u is new. */
  lemma WithUrlAppendFresh(g: seq<Event>, items: seq<Event>, u: string)
    ensures WithUrl(g + Fresh(items, UrlSet(g)), u)
      == if u in UrlSet(g) then WithUrl(g, u) else WithUrl(g, u) + WithUrl(items, u)
  {
    WithUrlConcat(g, Fresh(items, UrlSet(g)), u);
    WithUrlFresh(items, UrlSet(g), u);
  }

  /** Lists that never hold url u contribute no event with url u. */
  lemma {:induction false} GatherAllAbsent(lists: seq<seq<Event>>, u: string)
    requires forall j :: 0 <= j < |lists| ==> u !in UrlSet(lists[j])
    ensures WithUrl(GatherAll(lists), u) == []
  {
    if lists != [] {
      var init, last := lists[..|lists| - 1], lists[|lists| - 1];
      forall j | 0 <= j < |init|
        ensures u !in UrlSet(init[j])
      {
        assert init[j] == lists[j];
      }
      GatherAllAbsent(init, u);
      var g := GatherAll(init);
      WithUrlAppendFresh(g, last, u);
      WithUrlEmpty(last, u);
    }
  }

  /** When the last list is the first to hold u, the events with url u are that list's. */
  lemma GatherAllByUrlLast(lists: seq<seq<Event>>, u: string)
    requires lists != [] && u in UrlSet(lists[|lists| - 1])
    requires forall j :: 0 <= j < |lists| - 1 ==> u !in UrlSet(lists[j])
    ensures WithUrl(GatherAll(lists), u) == WithUrl(lists[|lists| - 1], u)
  {
    var init, last := lists[..|lists| - 1], lists[|lists| - 1];
    var g := GatherAll(init);
    forall j | 0 <= j < |init|
      ensures u !in UrlSet(init[j])
    {
      assert init[j] == lists[j];
    }
    GatherAllAbsent(init, u);
    WithUrlEmpty(g, u);
    WithUrlAppendFresh(g, last, u);
  }

  /** The events with url u in the merge are those of the first list that holds u. */
  lemma {:induction false} GatherAllByUrl(lists: seq<seq<Event>>, u: string, i: int)
    requires 0 <= i < |lists| && u in UrlSet(lists[i])
    requires forall j :: 0 <= j < i ==> u !in UrlSet(lists[j])
    ensures WithUrl(GatherAll(lists), u) == WithUrl(lists[i], u)
  {
    if i == |lists| - 1 {
      GatherAllByUrlLast(lists, u);
    } else {
      var init, last := lists[..|lists| - 1], lists[|lists| - 1];
      var g := GatherAll(init);
      forall j | 0 <= j < i
        ensures u !in UrlSet(init[j])
      {
        assert init[j] == lists[j];
      }
      assert init[i] == lists[i];
      GatherAllByUrl(init, u, i);
      WithUrlEmpty(lists[i], u);
      WithUrlEmpty(g, u);
      WithUrlAppendFresh(g, last, u);
    }
  }

  /** Pages that never show url u contribute no event with url u. */
  lemma GatheredAbsent(pages: seq<seq<RawCard>>, q: Query, pill: PillReader, u: string)
    requires forall j :: 0 <= j < |pages| ==> u !in UrlSet(Collected(pages[j], q, pill))
    ensures WithUrl(Gathered(pages, q, pill), u) == []
  {
    GatherAllAbsent(PageEvents(pages, q, pill), u);
  }

  /**
    Cross-page de-duplication by url: the events with url u in the gathered
    list are exactly those of the first page that shows u, in page order. A url
    met on a later page is not added again, while repeats within that first
    page are all kept.
  */
  lemma GatheredByUrl(pages: seq<seq<RawCard>>, q: Query, pill: PillReader, u: string, i: int)
    requires 0 <= i < |pages| && u in UrlSet(Collected(pages[i], q, pill))
    requires forall j :: 0 <= j < i ==> u !in UrlSet(Collected(pages[j], q, pill))
    ensures WithUrl(Gathered(pages, q, pill), u) == WithUrl(Collected(pages[i], q, pill), u)
  {
    GatherAllByUrl(PageEvents(pages, q, pill), u, i);
  }

  /** The final order: by `(start_date or "9999-99-99", title or "")`. */
  function SortKey(ev: Event): string {
    if Truthy(ev.startDate) then ev.startDate.value else "9999-99-99"
  }

  /** Tuple order on the sort key: by date text, then by title, both by code point. */
  predicate KeyLe(x: Event, y: Event) {
    StrLe(SortKey(x), SortKey(y)) && (SortKey(x) == SortKey(y) ==> StrLe(x.title, y.title))
  }

  lemma KeyLeTotal()
    ensures TotalPreorder(KeyLe)
  {
    forall x: Event, y: Event
      ensures KeyLe(x, y) || KeyLe(y, x)
    {
      StrLeTotal(SortKey(x), SortKey(y));
      StrLeTotal(x.title, y.title);
    }
    forall x: Event, y: Event, z: Event | KeyLe(x, y) && KeyLe(y, z)
      ensures KeyLe(x, z)
    {
      StrLeTransitive(SortKey(x), SortKey(y), SortKey(z));
      if SortKey(x) == SortKey(z) {
        StrLeAntisymmetric(SortKey(x), SortKey(y));
        StrLeTransitive(x.title, y.title, z.title);
      }
    }
  }

  /** The number of pages the loop visits: the whole chain, but at most 30. */
  function Visited(n: nat): (k: nat)
    ensures k <= n && k <= MaxPages && (k < MaxPages ==> k == n)
  {
    if n < MaxPages then n else MaxPages
  }

  /** `for e in fresh: seen_urls.add(e.url)` */
  method AddUrls(seen: set<string>, unseen: seq<Event>) returns (r: set<string>)
    ensures r == seen + UrlSet(unseen)
  {
    r := seen;
    for j := 0 to |unseen|
      invariant r == seen + UrlSet(unseen[..j])
    {
      assert unseen[..j + 1] == unseen[..j] + [unseen[j]];
      UrlSetConcat(unseen[..j], [unseen[j]]);
      assert UrlSet([unseen[j]]) == {unseen[j].url};
      r := r + {unseen[j].url};
    }
    assert unseen[..|unseen|] == unseen;
  }

  /**
    `scrape_more(...)` over the chain of pages reached from the first listing
    page: the window is `range_bounds(start_d, days)`, at most 30 pages are
    read, unseen urls are kept, and the result is sorted by date text and title.
  */
  method ScrapeMore(pages: seq<seq<RawCard>>, startD: ValidDate, days: int, locationOnly: bool, locationTitle: string, pill: PillReader)
    returns (allEvents: seq<Event>)
    ensures allEvents == SortBy(Gathered(pages[..Visited(|pages|)], Query(startD, RangeBounds(startD, days).1, locationOnly, locationTitle), pill), KeyLe)
  {
    var bounds := RangeBounds(startD, days);
    var q := Query(startD, bounds.1, locationOnly, locationTitle);
    var pageCount := 0;
    allEvents := [];
    var seenUrls: set<string> := {};
    while pageCount < |pages| && pageCount < MaxPages
      invariant 0 <= pageCount <= |pages| && pageCount <= MaxPages
      invariant allEvents == Gathered(pages[..pageCount], q, pill)
      invariant seenUrls == UrlSet(allEvents)
    {
      var items := CollectEventsFromSoup(pages[pageCount], q, pill);
      var unseen := Fresh(items, seenUrls);
      seenUrls := AddUrls(seenUrls, unseen);
      UrlSetConcat(allEvents, unseen);
      GatheredStep(pages, pageCount, q, pill);
      allEvents := allEvents + unseen;
      pageCount := pageCount + 1;
    }
    assert pageCount == Visited(|pages|);
    allEvents := SortBy(allEvents, KeyLe);
  }

  /** The scrape result is a sorted, stable rearrangement of the gathered events. */
  lemma ScrapeSorted(gathered: seq<Event>, e: Event)
    ensures Sorted(SortBy(gathered, KeyLe), KeyLe)
    ensures multiset(SortBy(gathered, KeyLe)) == multiset(gathered)
    ensures Ties(SortBy(gathered, KeyLe), e, KeyLe) == Ties(gathered, e, KeyLe)
  {
    KeyLeTotal();
    SortBySorted(gathered, KeyLe);
    SortByStable(gathered, e, KeyLe);
  }
}
