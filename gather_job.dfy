/**
  The daily city-events job: the once-per-UTC-day test on snapshot times and
  the shape of the stored snapshot. Timestamps are whole seconds since
  1970-01-01 UTC.
*/
module GatherJob {
  import opened Wrappers
  import opened Calendar
  import opened Events

  const SecondsPerDay: int := 86400

  /** The UTC year, month and day of a timestamp: `time.gmtime(ts)[:3]`. */
  function GmDate(ts: int): CalDate {
    EpochDay(ts / SecondsPerDay)
  }

  /** `_already_snapshotted_today(last_ts, now_ts)`: a missing or zero last time never counts. */
  predicate AlreadySnapshottedToday(last: Option<int>, now: int) {
    if last.None? || last.value == 0 then false
    else GmDate(last.value) == GmDate(now)
  }

  /** Two timestamps have the same UTC date exactly when they fall in the same 86400-second day. */
  lemma GmDateSame(a: int, b: int)
    ensures GmDate(a) == GmDate(b) <==> a / SecondsPerDay == b / SecondsPerDay
  {
    if GmDate(a) == GmDate(b) {
      assert Ordinal(GmDate(a)) == Ordinal(GmDate(b));
    }
  }

  /**
    A missing or zero last time gives false; otherwise the job has already run
    today exactly when both timestamps lie in the same UTC day.
  */
  lemma AlreadySnapshottedSpec(last: Option<int>, now: int)
    ensures (last.None? || last.value == 0) ==> !AlreadySnapshottedToday(last, now)
    ensures last.Some? && last.value != 0 ==>
      (AlreadySnapshottedToday(last, now) <==> last.value / SecondsPerDay == now / SecondsPerDay)
  {
    if last.Some? {
      GmDateSame(last.value, now);
    }
  }

  /** The test is reflexive and symmetric on non-zero timestamps. */
  lemma AlreadySnapshottedReflexiveSymmetric(a: int, b: int)
    requires a != 0 && b != 0
    ensures AlreadySnapshottedToday(Some(a), a)
    ensures AlreadySnapshottedToday(Some(a), b) <==> AlreadySnapshottedToday(Some(b), a)
  {
    GmDateSame(a, b);
  }

  /** A day later is never the same day. */
  lemma NextDayIsNew(a: int)
    ensures !AlreadySnapshottedToday(Some(a), a + SecondsPerDay)
  {
    GmDateSame(a, a + SecondsPerDay);
  }

  /** The JSON document that `save_city_events_snapshot` stores. */
  datatype SnapshotPayload = SnapshotPayload(
    generatedAt: int, locationValue: string, locationLabel: Option<string>, events: seq<Event>)

  /** The arguments of `insert_city_events_snapshot`: the location, the label column, and the payload. */
  datatype SnapshotRow = SnapshotRow(locationValue: string, locationLabel: string, payload: SnapshotPayload)

  /**
    `save_city_events_snapshot(events, location_value, location_label, generated_at)`,
    up to JSON rendering: the payload keeps the label as given, the label column
    stores a missing label as the empty string.
  */
  function SaveCityEventsSnapshot(events: seq<Event>, locationValue: string, locationLabel: Option<string>, generatedAt: int): (r: SnapshotRow)
    ensures r.locationValue == r.payload.locationValue == locationValue
    ensures r.payload.generatedAt == generatedAt
    ensures r.payload.events == events
    ensures r.payload.locationLabel == locationLabel
    ensures r.locationLabel == "" <==> !Truthy(locationLabel)
    ensures Truthy(locationLabel) ==> r.locationLabel == locationLabel.value
  {
    SnapshotRow(locationValue, OrEmpty(locationLabel), SnapshotPayload(generatedAt, locationValue, locationLabel, events))
  }

  /**
    Two snapshots of the same events and location taken at different times differ in
    the payload's `generated_at` alone, and the stored record determines every argument.
  */
  lemma SnapshotOnlyTimeDiffers(events: seq<Event>, locationValue: string, locationLabel: Option<string>, t1: int, t2: int)
    ensures SaveCityEventsSnapshot(events, locationValue, locationLabel, t1).(payload := SaveCityEventsSnapshot(events, locationValue, locationLabel, t1).payload.(generatedAt := t2))
      == SaveCityEventsSnapshot(events, locationValue, locationLabel, t2)
    ensures SaveCityEventsSnapshot(events, locationValue, locationLabel, t1) == SaveCityEventsSnapshot(events, locationValue, locationLabel, t2) <==> t1 == t2
  {
  }

  /** Different arguments never store the same record: the payload keeps each of them. */
  lemma SnapshotInjective(e1: seq<Event>, v1: string, l1: Option<string>, t1: int, e2: seq<Event>, v2: string, l2: Option<string>, t2: int)
    ensures SaveCityEventsSnapshot(e1, v1, l1, t1) == SaveCityEventsSnapshot(e2, v2, l2, t2)
      <==> e1 == e2 && v1 == v2 && l1 == l2 && t1 == t2
  {
  }
}
