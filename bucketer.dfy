/**
  Sorting events into the newsletter's four calendar sections: this week
  (the rest of Monday..Thursday, never on a Friday), this weekend (Friday..Sunday),
  next week (Monday..Sunday) and coming soon (from the Monday two weeks out up to
  thirty days from today). The suggestion job's `_bucket_events` and the
  newsletter's `bucket_events` are the same code and share this model.

  Days are day numbers (`date.toordinal()`); `Weekday` is `date.weekday()`.
*/
module Bucketer {
  import opened Wrappers
  import opened Calendar
  import opened Text
  import opened Events
  import opened TimeUtils
  import opened EventTime
  import opened Sorting

  datatype Bucket = ThisWeek | ThisWeekend | NextWeek | ComingSoon

  /** The four lists keyed "this_week", "this_weekend", "next_week" and "coming_soon". */
  datatype Buckets = Buckets(thisWeek: seq<Event>, thisWeekend: seq<Event>, nextWeek: seq<Event>, comingSoon: seq<Event>)

  /** The bucket of a day d on a run on day `today`: the windows are tried in order and the first that holds d wins. */
  function Classify(d: int, today: int): Option<Bucket> {
    var mon := StartOfWeek(today);
    var weekend := UpcomingWeekendBounds(today);
    var startBound := if today >= mon then today else mon;
    if Weekday(today) != 4 && startBound <= d <= mon + 3 then Some(ThisWeek)
    else if weekend.0 <= d <= weekend.1 then Some(ThisWeekend)
    else if NextMonday(today) <= d <= NextSunday(today) then Some(NextWeek)
    else if NextMonday(today) + 7 <= d <= today + 30 then Some(ComingSoon)
    else None
  }

  /**
    The windows are disjoint, so each can be stated on its own: this week is
    [today, Thursday] except on Fridays, this weekend is Friday..Sunday of today's
    week, next week is the following Monday..Sunday, coming soon runs from the
    Monday after that to today + 30.
  */
  lemma ClassifyWindows(d: int, today: int)
    ensures var mon := StartOfWeek(today);
      (Classify(d, today) == Some(ThisWeek) <==> Weekday(today) != 4 && today <= d <= mon + 3)
      && (Classify(d, today) == Some(ThisWeekend) <==> mon + 4 <= d <= mon + 6)
      && (Classify(d, today) == Some(NextWeek) <==> mon + 7 <= d <= mon + 13)
      && (Classify(d, today) == Some(ComingSoon) <==> mon + 14 <= d <= today + 30)
  {
    var mon := StartOfWeek(today);
    assert NextMonday(today) == mon + 7 && NextSunday(today) == mon + 13;
  }

  /** Every day from today to today + 30 falls in some window: the windows tile with no gap. */
  lemma ClassifyTiles(d: int, today: int)
    requires today <= d <= today + 30
    ensures Classify(d, today).Some?
  {
    ClassifyWindows(d, today);
    WeekdayFacts(today, 0);
  }

  /** Days after today + 30 are dropped. */
  lemma ClassifyBeyond(d: int, today: int)
    requires d > today + 30
    ensures Classify(d, today) == None
  {
    ClassifyWindows(d, today);
  }

  /** A past day is kept only when it falls in this week's Friday..Sunday, and then it is "this weekend". */
  lemma ClassifyPast(d: int, today: int)
    requires d < today
    ensures Classify(d, today).Some? <==> StartOfWeek(today) + 4 <= d
    ensures Classify(d, today).Some? ==> Classify(d, today) == Some(ThisWeekend)
  {
    ClassifyWindows(d, today);
  }

  /**
    "This week" is never used from Friday on: on a Friday it is skipped, and on a
    Saturday or Sunday its window [today, Thursday] is empty. On a Friday an
    event of that very day is "this weekend".
  */
  lemma ThisWeekFromFriday(d: int, today: int)
    requires Weekday(today) >= 4
    ensures Classify(d, today) != Some(ThisWeek)
    ensures Weekday(today) == 4 ==> Classify(today, today) == Some(ThisWeekend)
  {
    ClassifyWindows(d, today);
    ClassifyWindows(today, today);
  }

  /** The local day of an event's start, when it has one (`parse_event_dt(ev).date()`). */
  function EventDay(ev: Event, start: StartReader): Option<int> {
    match start(ev)
    case None => None
    case Some(t) => Some(Ordinal(t.date))
  }

  /** The bucket an event goes to; None for undated events and days outside every window. */
  function BucketOf(ev: Event, today: int, start: StartReader): Option<Bucket> {
    match EventDay(ev, start)
    case None => None
    case Some(d) => Classify(d, today)
  }

  /** The events of s whose bucket under f is k, in input order. */
  function Select(s: seq<Event>, today: int, start: StartReader, k: Option<Bucket>): (r: seq<Event>)
    ensures |r| <= |s|
  {
    if s == [] then []
    else
      var last := s[|s| - 1];
      var r := Select(s[..|s| - 1], today, start, k);
      if BucketOf(last, today, start) == k then r + [last] else r
  }

  /** An event in s is selected into its own bucket. */
  lemma {:induction false} SelectComplete(s: seq<Event>, today: int, start: StartReader, ev: Event)
    requires ev in s
    ensures ev in Select(s, today, start, BucketOf(ev, today, start))
  {
    if s[|s| - 1] != ev {
      assert ev in s[..|s| - 1] by {
        var j :| 0 <= j < |s| && s[j] == ev;
        assert s[..|s| - 1][j] == ev;
      }
      SelectComplete(s[..|s| - 1], today, start, ev);
    }
  }

  /** Selecting from a list with one more event at its end. */
  lemma SelectSnoc(s: seq<Event>, x: Event, today: int, start: StartReader, k: Option<Bucket>)
    ensures Select(s + [x], today, start, k) == Select(s, today, start, k) + (if BucketOf(x, today, start) == k then [x] else [])
  {
    assert (s + [x])[..|s|] == s;
  }

  /** The selection for k holds each event of bucket k as often as s does, and no other event. */
  lemma {:induction false} SelectCount(s: seq<Event>, today: int, start: StartReader, k: Option<Bucket>, e: Event)
    ensures multiset(Select(s, today, start, k))[e] == if BucketOf(e, today, start) == k then multiset(s)[e] else 0
  {
    if s != [] {
      var init, x := s[..|s| - 1], s[|s| - 1];
      SelectCount(init, today, start, k, e);
      assert s == init + [x];
    }
  }

  /**
    Every event goes to exactly one of the four buckets or is dropped: the five
    selections together are the input, counted with multiplicity.
  */
  lemma SelectPartition(s: seq<Event>, today: int, start: StartReader)
    ensures multiset(Select(s, today, start, Some(ThisWeek))) + multiset(Select(s, today, start, Some(ThisWeekend)))
          + multiset(Select(s, today, start, Some(NextWeek))) + multiset(Select(s, today, start, Some(ComingSoon)))
          + multiset(Select(s, today, start, None)) == multiset(s)
  {
    var m := multiset(Select(s, today, start, Some(ThisWeek))) + multiset(Select(s, today, start, Some(ThisWeekend)))
          + multiset(Select(s, today, start, Some(NextWeek))) + multiset(Select(s, today, start, Some(ComingSoon)))
          + multiset(Select(s, today, start, None));
    forall e
      ensures m[e] == multiset(s)[e]
    {
      SelectCount(s, today, start, Some(ThisWeek), e);
      SelectCount(s, today, start, Some(ThisWeekend), e);
      SelectCount(s, today, start, Some(NextWeek), e);
      SelectCount(s, today, start, Some(ComingSoon), e);
      SelectCount(s, today, start, None, e);
      var t, w, n, c, z := multiset(Select(s, today, start, Some(ThisWeek))), multiset(Select(s, today, start, Some(ThisWeekend))),
        multiset(Select(s, today, start, Some(NextWeek))), multiset(Select(s, today, start, Some(ComingSoon))), multiset(Select(s, today, start, None));
      assert m[e] == t[e] + w[e] + n[e] + c[e] + z[e];
      match BucketOf(e, today, start)
      case None =>
      case Some(ThisWeek) =>
      case Some(ThisWeekend) =>
      case Some(NextWeek) =>
      case Some(ComingSoon) =>
    }
  }

  /** The sort key: the start instant, `datetime.max` for an event without one. */
  function StartKey(ev: Event, start: StartReader): int {
    match start(ev)
    case None => Instant(MaxDateTime)
    case Some(t) => Instant(t)
  }

  /** `key=key_dt` as an order on events. */
  function ByStart(start: StartReader): (Event, Event) -> bool {
    (a: Event, b: Event) => StartKey(a, start) <= StartKey(b, start)
  }

  /** Ordering by a numeric key is total and transitive. */
  lemma ByStartTotal(start: StartReader)
    ensures TotalPreorder(ByStart(start))
  {
  }

  /** An undated event would sort after every dated one. */
  lemma UndatedSortsLast(ev: Event, other: Event, start: StartReader)
    requires start(ev).None?
    ensures ByStart(start)(other, ev)
  {
    if start(other).Some? {
      MaxDateTimeIsLatest(start(other).value);
    }
  }

  /**
    `_bucket_events(events, today)` / `bucket_events(events, today)`: classify
    each event by the first window that holds its local start day, then sort each
    bucket by start.
  */
  method BucketEvents(events: seq<Event>, today: ValidDate, start: StartReader) returns (b: Buckets)
    ensures b.thisWeek == SortBy(Select(events, Ordinal(today), start, Some(ThisWeek)), ByStart(start))
    ensures b.thisWeekend == SortBy(Select(events, Ordinal(today), start, Some(ThisWeekend)), ByStart(start))
    ensures b.nextWeek == SortBy(Select(events, Ordinal(today), start, Some(NextWeek)), ByStart(start))
    ensures b.comingSoon == SortBy(Select(events, Ordinal(today), start, Some(ComingSoon)), ByStart(start))
  {
    var t := Ordinal(today);
    var monThis := StartOfWeek(t);
    var thuThis := monThis + 3;
    var weekend := UpcomingWeekendBounds(t);
    var monNext := NextMonday(t);
    var sunNext := NextSunday(t);
    var monTwoWeeks := monNext + 7;
    var thirtyDaysOut := t + 30;
    var weekday := Weekday(t);
    var thisWeek, thisWeekend, nextWeek, comingSoon := [], [], [], [];
    var i := 0;
    while i < |events|
      invariant 0 <= i <= |events|
      invariant thisWeek == Select(events[..i], t, start, Some(ThisWeek))
      invariant thisWeekend == Select(events[..i], t, start, Some(ThisWeekend))
      invariant nextWeek == Select(events[..i], t, start, Some(NextWeek))
      invariant comingSoon == Select(events[..i], t, start, Some(ComingSoon))
    {
      var ev := events[i];
      assert events[..i + 1] == events[..i] + [ev];
      SelectSnoc(events[..i], ev, t, start, Some(ThisWeek));
      SelectSnoc(events[..i], ev, t, start, Some(ThisWeekend));
      SelectSnoc(events[..i], ev, t, start, Some(NextWeek));
      SelectSnoc(events[..i], ev, t, start, Some(ComingSoon));
      var dt := start(ev);
      if dt.None? {
        i := i + 1;
        continue;
      }
      var d := Ordinal(dt.value.date);
      ClassifyWindows(d, t);
      if weekday != 4 {
        var startBound := if t >= monThis then t else monThis;
        if startBound <= d <= thuThis {
          thisWeek := thisWeek + [ev];
          i := i + 1;
          continue;
        }
      }
      if weekend.0 <= d <= weekend.1 {
        thisWeekend := thisWeekend + [ev];
        i := i + 1;
        continue;
      }
      if monNext <= d <= sunNext {
        nextWeek := nextWeek + [ev];
        i := i + 1;
        continue;
      }
      if monTwoWeeks <= d <= thirtyDaysOut {
        comingSoon := comingSoon + [ev];
        i := i + 1;
        continue;
      }
      i := i + 1;
    }
    assert events[..|events|] == events;
    var le := ByStart(start);
    b := Buckets(SortBy(thisWeek, le), SortBy(thisWeekend, le), SortBy(nextWeek, le), SortBy(comingSoon, le));
  }

  /** The buckets as `BucketEvents` returns them. */
  function Bucketed(events: seq<Event>, today: int, start: StartReader): Buckets {
    var le := ByStart(start);
    Buckets(SortBy(Select(events, today, start, Some(ThisWeek)), le),
            SortBy(Select(events, today, start, Some(ThisWeekend)), le),
            SortBy(Select(events, today, start, Some(NextWeek)), le),
            SortBy(Select(events, today, start, Some(ComingSoon)), le))
  }

  /** Each bucket is sorted by start, and stable: events with equal starts keep their input order. */
  lemma BucketSortedStable(events: seq<Event>, today: int, start: StartReader, k: Bucket, e: Event)
    ensures var sel := Select(events, today, start, Some(k));
      Sorted(SortBy(sel, ByStart(start)), ByStart(start))
      && multiset(SortBy(sel, ByStart(start))) == multiset(sel)
      && Ties(SortBy(sel, ByStart(start)), e, ByStart(start)) == Ties(sel, e, ByStart(start))
  {
    var sel := Select(events, today, start, Some(k));
    ByStartTotal(start);
    SortBySorted(sel, ByStart(start));
    SortByStable(sel, e, ByStart(start));
  }

  /** The list of bucket k. */
  function Get(b: Buckets, k: Bucket): seq<Event> {
    match k
    case ThisWeek => b.thisWeek
    case ThisWeekend => b.thisWeekend
    case NextWeek => b.nextWeek
    case ComingSoon => b.comingSoon
  }

  /**
    Bucket k holds an event as often as the input does when the event's
    start day falls in window k, and not at all otherwise (in particular, undated
    events are in no bucket).
  */
  lemma BucketMembers(events: seq<Event>, today: int, start: StartReader, k: Bucket, ev: Event)
    ensures multiset(Get(Bucketed(events, today, start), k))[ev]
         == if BucketOf(ev, today, start) == Some(k) then multiset(events)[ev] else 0
    ensures EventDay(ev, start).None? ==> ev !in Get(Bucketed(events, today, start), k)
  {
    SelectCount(events, today, start, Some(k), ev);
  }

  /** Every input event dated from today to today + 30 is in the bucket of its day. */
  lemma DatedInWindowKept(events: seq<Event>, today: int, start: StartReader, ev: Event)
    requires ev in events
    requires EventDay(ev, start).Some? && today <= EventDay(ev, start).value <= today + 30
    ensures BucketOf(ev, today, start).Some?
    ensures ev in Get(Bucketed(events, today, start), BucketOf(ev, today, start).value)
  {
    ClassifyTiles(EventDay(ev, start).value, today);
    BucketMembers(events, today, start, BucketOf(ev, today, start).value, ev);
  }

  /** An event with a missing, empty or blank start date is in no bucket. */
  lemma EmptyStartInNoBucket(events: seq<Event>, today: int, parse: DateTimeParser, k: Bucket, ev: Event)
    requires !Truthy(ev.startDate) || Strip(ev.startDate.value) == ""
    ensures ev !in Get(Bucketed(events, today, StartOf(parse)), k)
  {
    BucketMembers(events, today, StartOf(parse), k, ev);
  }

  /** Between them the four buckets hold no more events than the input. */
  lemma BucketsTotal(events: seq<Event>, today: int, start: StartReader)
    ensures var b := Bucketed(events, today, start);
      |b.thisWeek| + |b.thisWeekend| + |b.nextWeek| + |b.comingSoon| <= |events|
  {
    SelectPartition(events, today, start);
    var tw, we := Select(events, today, start, Some(ThisWeek)), Select(events, today, start, Some(ThisWeekend));
    var nw, cs := Select(events, today, start, Some(NextWeek)), Select(events, today, start, Some(ComingSoon));
    var dr := Select(events, today, start, None);
    assert |multiset(tw) + multiset(we) + multiset(nw) + multiset(cs) + multiset(dr)| == |multiset(events)|;
  }
}
