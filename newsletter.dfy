/**
  The content of the HTML newsletter: the date and location lines of an event
  card, a section of cards (or its empty-section notice), and the choice of
  sections, which leaves out "This week" on a Friday. The page's markup and
  style sheet are not modelled: a card and a section are records of what they show.
*/
module Newsletter {
  import opened Wrappers
  import opened Calendar
  import opened Text
  import opened Events
  import opened EventTime
  import opened Sorting
  import opened Bucketer

  const WeekdayAbbr: seq<string> := ["Mon", "Tue", "Wed", "Thu", "Fri", "Sat", "Sun"]
  const MonthAbbr: seq<string> := ["Jan", "Feb", "Mar", "Apr", "May", "Jun", "Jul", "Aug", "Sep", "Oct", "Nov", "Dec"]

  /**
    `dt.strftime("%a, %d %b %Y • %H:%M")` in the C locale. The year is written
    without padding, as the C library's `%Y` does.
  */
  function FormatDateTime(t: LocalDateTime): string {
    WeekdayAbbr[Weekday(Ordinal(t.date))] + ", " + ZeroPad(t.date.d, 2) + " " + MonthAbbr[t.date.m - 1]
      + " " + NatToString(t.date.y) + " \U{2022} "
      + ZeroPad(t.time / 3600000000, 2) + ":" + ZeroPad(t.time / 60000000 % 60, 2)
  }

  /** The formatted text is laid out as `w, dd mon yy • hh:mm` with its pieces of fixed width. */
  lemma FormatDateTimeLayout(t: LocalDateTime)
    ensures var s := FormatDateTime(t);
      |s| >= 21 && s[..3] == WeekdayAbbr[Weekday(Ordinal(t.date))] && s[3..5] == ", "
      && s[5..7] == ZeroPad(t.date.d, 2) && s[7] == ' ' && s[8..11] == MonthAbbr[t.date.m - 1] && s[11] == ' '
      && s[12..|s| - 8] == NatToString(t.date.y) && s[|s| - 8..|s| - 5] == " \U{2022} "
      && s[|s| - 5..|s| - 3] == ZeroPad(t.time / 3600000000, 2) && s[|s| - 3] == ':'
      && s[|s| - 2..] == ZeroPad(t.time / 60000000 % 60, 2)
  {
    var d, h, m := t.date.d, t.time / 3600000000, t.time / 60000000 % 60;
    assert h < 24;
    ZeroPadWidthTwo(d);
    ZeroPadWidthTwo(h);
    ZeroPadWidthTwo(m);
    AbbrWidths(Weekday(Ordinal(t.date)), t.date.m - 1);
    DateTimeLayout(WeekdayAbbr[Weekday(Ordinal(t.date))], ZeroPad(d, 2), MonthAbbr[t.date.m - 1],
      NatToString(t.date.y), ZeroPad(h, 2), ZeroPad(m, 2));
  }

  /**
    Every field of the formatted text sits at its fixed place and reads back as
    the date or time it came from: the weekday, the two-digit day, the month,
    the year, and the two-digit hour and minute.
  */
  lemma FormatDateTimeFields(t: LocalDateTime)
    ensures var s := FormatDateTime(t);
      |s| >= 21 && s[..3] == WeekdayAbbr[Weekday(Ordinal(t.date))] && s[3..5] == ", "
      && AllDigits(s[5..7]) && DigitsValue(s[5..7]) == t.date.d
      && s[7] == ' ' && s[8..11] == MonthAbbr[t.date.m - 1] && s[11] == ' '
      && AllDigits(s[12..|s| - 8]) && DigitsValue(s[12..|s| - 8]) == t.date.y
      && s[|s| - 8..|s| - 5] == " \U{2022} "
      && AllDigits(s[|s| - 5..|s| - 3]) && DigitsValue(s[|s| - 5..|s| - 3]) == t.time / 3600000000
      && s[|s| - 3] == ':'
      && AllDigits(s[|s| - 2..]) && DigitsValue(s[|s| - 2..]) == t.time / 60000000 % 60
  {
    FormatDateTimeLayout(t);
    ZeroPadRoundTrip(t.date.d, 2);
    ZeroPadRoundTrip(t.date.y, 1);
    ZeroPadRoundTrip(t.time / 3600000000, 2);
    ZeroPadRoundTrip(t.time / 60000000 % 60, 2);
  }

  lemma AbbrWidths(i: int, j: int)
    requires 0 <= i < 7 && 0 <= j < 12
    ensures |WeekdayAbbr[i]| == 3 && |MonthAbbr[j]| == 3
  {
  }

  /** Where each field sits in the text `w, dd mon yy • hh:mm` when w and mon have three characters and dd, hh and mm two. */
  lemma DateTimeLayout(w: string, dd: string, mon: string, yy: string, hh: string, mm: string)
    requires |w| == 3 && |dd| == 2 && |mon| == 3 && |hh| == 2 && |mm| == 2
    ensures var s := w + ", " + dd + " " + mon + " " + yy + " \U{2022} " + hh + ":" + mm;
      |s| == 20 + |yy| && s[..3] == w && s[3..5] == ", " && s[5..7] == dd && s[7] == ' '
      && s[8..11] == mon && s[11] == ' ' && s[12..|s| - 8] == yy && s[|s| - 8..|s| - 5] == " \U{2022} "
      && s[|s| - 5..|s| - 3] == hh && s[|s| - 3] == ':' && s[|s| - 2..] == mm
  {
  }

  /** `fmt_event_date(ev)` */
  function FmtEventDate(ev: Event, start: StartReader): string {
    match start(ev)
    case None => "Date TBA"
    case Some(t) => FormatDateTime(t)
  }

  /** The card shows "Date TBA" exactly when the start does not parse. */
  lemma FmtEventDateTba(ev: Event, start: StartReader)
    ensures FmtEventDate(ev, start) == "Date TBA" <==> start(ev).None?
  {
    if start(ev).Some? {
      var t := start(ev).value;
      FormatDateTimeLayout(t);
      var w := WeekdayAbbr[Weekday(Ordinal(t.date))];
      assert w[0] != 'D';
      assert FmtEventDate(ev, start)[0] == w[0];
    }
  }

  /** A missing, empty or blank start date is shown as "Date TBA". */
  lemma BlankStartTba(ev: Event, parse: DateTimeParser)
    requires !Truthy(ev.startDate) || Strip(ev.startDate.value) == ""
    ensures FmtEventDate(ev, StartOf(parse)) == "Date TBA"
  {
    FmtEventDateTba(ev, StartOf(parse));
  }

  /** The present part of an optional field, as a list of zero or one strings. */
  function Kept(s: Option<string>): seq<string> {
    if Truthy(s) then [s.value] else []
  }

  /** `[x for x in [ev.venue, ev.city, ev.region] if x]` */
  function LocationBits(ev: Event): seq<string> {
    Kept(ev.venue) + Kept(ev.city) + Kept(ev.region)
  }

  const LocationSep: string := " \U{B7} "

  /** The location line of a card. */
  function LocationText(ev: Event): string {
    var bits := LocationBits(ev);
    if bits == [] then "Location TBA" else Join(bits, LocationSep)
  }

  /**
    The location joins the non-empty venue, city and region with " · ", in that
    order, for each of the eight combinations; with none of them it is
    "Location TBA", and a single one stands alone.
  */
  lemma LocationTextSpec(ev: Event)
    ensures !Truthy(ev.venue) && !Truthy(ev.city) && !Truthy(ev.region) ==> LocationText(ev) == "Location TBA"
    ensures Truthy(ev.venue) && !Truthy(ev.city) && !Truthy(ev.region) ==> LocationText(ev) == ev.venue.value
    ensures !Truthy(ev.venue) && Truthy(ev.city) && !Truthy(ev.region) ==> LocationText(ev) == ev.city.value
    ensures !Truthy(ev.venue) && !Truthy(ev.city) && Truthy(ev.region) ==> LocationText(ev) == ev.region.value
    ensures Truthy(ev.venue) && Truthy(ev.city) && !Truthy(ev.region) ==> LocationText(ev) == ev.venue.value + LocationSep + ev.city.value
    ensures Truthy(ev.venue) && !Truthy(ev.city) && Truthy(ev.region) ==> LocationText(ev) == ev.venue.value + LocationSep + ev.region.value
    ensures !Truthy(ev.venue) && Truthy(ev.city) && Truthy(ev.region) ==> LocationText(ev) == ev.city.value + LocationSep + ev.region.value
    ensures Truthy(ev.venue) && Truthy(ev.city) && Truthy(ev.region) ==>
      LocationText(ev) == ev.venue.value + LocationSep + ev.city.value + LocationSep + ev.region.value
    ensures LocationText(ev) != ""
  {
    var bits := LocationBits(ev);
    if |bits| == 3 {
      assert bits[1..][1..] == [bits[2]];
      assert Join(bits[1..], LocationSep) == bits[1] + LocationSep + bits[2];
      assert bits == [ev.venue.value, ev.city.value, ev.region.value];
    } else if |bits| == 2 {
      assert bits[1..] == [bits[1]];
      assert Join(bits, LocationSep) == bits[0] + LocationSep + bits[1];
    }
  }

  /** What a card shows: its link, its banner image if any, and the date, title and location lines. */
  datatype Card = Card(href: string, image: Option<string>, date: string, title: string, location: string)

  /** `event_card(ev)`: a card with a banner when the image is non-empty, and the placeholder banner otherwise. */
  function EventCard(ev: Event, start: StartReader): (c: Card)
    ensures c.image.Some? <==> Truthy(ev.image)
    ensures c.date == "Date TBA" <==> start(ev).None?
  {
    FmtEventDateTba(ev, start);
    Card(ev.url, if Truthy(ev.image) then ev.image else None, FmtEventDate(ev, start), ev.title, LocationText(ev))
  }

  datatype SectionBody = EmptyNotice | Grid(cards: seq<Card>)

  /** A section: its heading and either the notice "No events in this section." or the grid of cards. */
  datatype Section = Section(title: string, body: SectionBody)

  /** `section_block(title, events)` */
  function SectionBlock(title: string, events: seq<Event>, start: StartReader): (r: Section)
    ensures r.title == title
    ensures r.body.EmptyNotice? <==> events == []
    ensures r.body.Grid? ==> |r.body.cards| == |events|
    ensures r.body.Grid? ==> forall i :: 0 <= i < |events| ==> r.body.cards[i] == EventCard(events[i], start)
  {
    if events == [] then Section(title, EmptyNotice)
    else Section(title, Grid(seq(|events|, i requires 0 <= i < |events| => EventCard(events[i], start))))
  }

  function Titles(sections: seq<Section>): (r: seq<string>)
    ensures |r| == |sections|
  {
    if sections == [] then [] else [sections[0].title] + Titles(sections[1..])
  }

  /**
    The sections of `render_html(buckets, today)`: "This week" first unless
    today is a Friday, then "This weekend", "Next week" and "Coming soon".
  */
  method RenderSections(b: Buckets, today: ValidDate, start: StartReader) returns (sections: seq<Section>)
    ensures Weekday(Ordinal(today)) == 4 ==>
      sections == [SectionBlock("This weekend", b.thisWeekend, start), SectionBlock("Next week", b.nextWeek, start),
                   SectionBlock("Coming soon", b.comingSoon, start)]
    ensures Weekday(Ordinal(today)) != 4 ==>
      sections == [SectionBlock("This week", b.thisWeek, start), SectionBlock("This weekend", b.thisWeekend, start),
                   SectionBlock("Next week", b.nextWeek, start), SectionBlock("Coming soon", b.comingSoon, start)]
  {
    var weekday := Weekday(Ordinal(today));
    sections := [];
    if weekday != 4 {
      sections := sections + [SectionBlock("This week", b.thisWeek, start)];
    }
    sections := sections + [SectionBlock("This weekend", b.thisWeekend, start)];
    sections := sections + [SectionBlock("Next week", b.nextWeek, start)];
    sections := sections + [SectionBlock("Coming soon", b.comingSoon, start)];
  }

  /** The headings of the rendered sections: three on a Friday, four otherwise. */
  lemma SectionTitles(b: Buckets, today: ValidDate, start: StartReader, sections: seq<Section>)
    requires Weekday(Ordinal(today)) == 4 ==>
      sections == [SectionBlock("This weekend", b.thisWeekend, start), SectionBlock("Next week", b.nextWeek, start),
                   SectionBlock("Coming soon", b.comingSoon, start)]
    requires Weekday(Ordinal(today)) != 4 ==>
      sections == [SectionBlock("This week", b.thisWeek, start), SectionBlock("This weekend", b.thisWeekend, start),
                   SectionBlock("Next week", b.nextWeek, start), SectionBlock("Coming soon", b.comingSoon, start)]
    ensures Titles(sections) == if Weekday(Ordinal(today)) == 4 then ["This weekend", "Next week", "Coming soon"]
                                else ["This week", "This weekend", "Next week", "Coming soon"]
  {
    var s := sections;
    assert Titles(s) == [s[0].title] + Titles(s[1..]);
    assert Titles(s[1..]) == [s[1].title] + Titles(s[2..]);
    assert Titles(s[2..]) == [s[2].title] + Titles(s[3..]);
    if |s| == 4 {
      assert Titles(s[3..]) == [s[3].title] + Titles(s[4..]);
    }
  }

  /** On a Friday the "this week" bucket is present and empty, so dropping its section loses no event. */
  lemma FridayThisWeekEmpty(events: seq<Event>, today: int, start: StartReader)
    requires Weekday(today) == 4
    ensures Bucketed(events, today, start).thisWeek == []
  {
    var sel := Select(events, today, start, Some(ThisWeek));
    forall e
      ensures multiset(sel)[e] == 0
    {
      SelectCount(events, today, start, Some(ThisWeek), e);
      match EventDay(e, start)
      case None =>
      case Some(d) => ThisWeekFromFriday(d, today);
    }
    assert multiset(sel) == multiset{};
  }
}
