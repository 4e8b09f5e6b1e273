/**
  The suggestions job: the period key a suggestion is filed under, the cadence
  test, the retry bound around failing calls, and the per-user decisions and
  counters of `_run_for_users`. Times are UTC instants in microseconds since
  1970-01-01; the database, the event selection and the recommender are the
  per-user answers a row carries.
*/
module SuggestionsJob {
  import opened Wrappers
  import opened Calendar
  import opened Text
  import opened Events

  // ---------- compute_period_key ----------

  /** `f"{iso_year}-W{iso_week:02d}"` */
  function WeeklyKey(isoYear: int, week: nat): string {
    IntToString(isoYear) + "-W" + ZeroPad(week, 2)
  }

  /** The biweekly bucket `(iso_week + 1) // 2`. */
  function Fortnight(week: nat): nat {
    (week + 1) / 2
  }

  /** `f"{iso_year}-B{bucket:02d}"` */
  function BiweeklyKey(isoYear: int, week: nat): string {
    IntToString(isoYear) + "-B" + ZeroPad(Fortnight(week), 2)
  }

  /** `f"{now.year}-{now.month:02d}"` */
  function MonthlyKey(y: int, m: nat): string {
    IntToString(y) + "-" + ZeroPad(m, 2)
  }

  /** `compute_period_key(now, freq)` for the UTC date of now. */
  function ComputePeriodKey(d: CalDate, freq: string): string {
    if freq == "weekly" || freq == "biweekly" then
      var iso := IsoCalendar(d);
      IsoCalendarSpec(d);
      if freq == "weekly" then WeeklyKey(iso.year, iso.week) else BiweeklyKey(iso.year, iso.week)
    else MonthlyKey(d.y, d.m)
  }

  /** A two-digit field of a key. */
  predicate TwoDigits(s: string, n: int) {
    |s| == 2 && AllDigits(s) && DigitsValue(s) == n
  }

  lemma ZeroPadTwo(n: nat)
    requires n < 100
    ensures TwoDigits(ZeroPad(n, 2), n)
  {
    ZeroPadWidthTwo(n);
  }

  /** Weeks 2k-1 and 2k, and no others, share bucket k; the buckets run from 1 to 27. */
  lemma FortnightSpec(week: nat, k: int)
    requires 1 <= week <= 53
    ensures 1 <= Fortnight(week) <= 27
    ensures Fortnight(week) == k <==> week == 2 * k - 1 || week == 2 * k
  {
  }

  /**
    The weekly key is the ISO year, "-W" and the two-digit ISO week; the
    biweekly key is the ISO year, "-B" and the two-digit bucket; any other
    frequency files under the calendar year and the two-digit month.
  */
  lemma PeriodKeyShape(d: CalDate, freq: string)
    ensures var iso := IsoCalendar(d);
      IsoDescribes(iso, Ordinal(d))
      && (freq == "weekly" ==>
            exists s :: ComputePeriodKey(d, freq) == IntToString(iso.year) + "-W" + s && TwoDigits(s, iso.week))
      && (freq == "biweekly" ==>
            exists s :: ComputePeriodKey(d, freq) == IntToString(iso.year) + "-B" + s
              && TwoDigits(s, (iso.week + 1) / 2) && 1 <= (iso.week + 1) / 2 <= 27)
      && (freq != "weekly" && freq != "biweekly" ==>
            exists s :: ComputePeriodKey(d, freq) == IntToString(d.y) + "-" + s && TwoDigits(s, d.m))
  {
    var iso := IsoCalendar(d);
    IsoCalendarSpec(d);
    if freq == "weekly" {
      ZeroPadTwo(iso.week);
      assert ComputePeriodKey(d, freq) == IntToString(iso.year) + "-W" + ZeroPad(iso.week, 2);
    } else if freq == "biweekly" {
      FortnightSpec(iso.week, 0);
      ZeroPadTwo(Fortnight(iso.week));
      assert ComputePeriodKey(d, freq) == IntToString(iso.year) + "-B" + ZeroPad(Fortnight(iso.week), 2);
    } else {
      ZeroPadTwo(d.m);
    }
  }

  /** A weekly key names exactly one ISO week: two weeks share a key only when they have the same year and number. */
  lemma WeeklyKeyInjective(y1: int, w1: nat, y2: int, w2: nat)
    requires w1 < 100 && w2 < 100
    requires WeeklyKey(y1, w1) == WeeklyKey(y2, w2)
    ensures y1 == y2 && w1 == w2
  {
    ZeroPadTwo(w1);
    ZeroPadTwo(w2);
    var k1, k2 := WeeklyKey(y1, w1), WeeklyKey(y2, w2);
    assert k1[|k1| - 2..] == ZeroPad(w1, 2);
    assert k2[|k2| - 2..] == ZeroPad(w2, 2);
    assert k1[..|k1| - 4] == IntToString(y1);
    assert k2[..|k2| - 4] == IntToString(y2);
    IntToStringInjective(y1, y2);
  }

  // ---------- cadence_reached ----------

  const MicrosPerDay: int := 86400000000

  /** The cadence in days: 7 for weekly, 14 for biweekly, 28 for anything else. */
  function CadenceDays(freq: string): int {
    if freq == "weekly" then 7 else if freq == "biweekly" then 14 else 28
  }

  /** `cadence_reached(last, now, freq)` */
  function CadenceReached(last: Option<int>, now: int, freq: string): bool {
    if last.None? then true
    else
      var delta := now - last.value;
      if freq == "weekly" then delta >= 7 * MicrosPerDay
      else if freq == "biweekly" then delta >= 14 * MicrosPerDay
      else delta >= 28 * MicrosPerDay
  }

  /**
    With no previous suggestion the cadence is reached; otherwise it is reached
    from exactly one cadence after the last one on, and stays reached.
  */
  lemma CadenceSpec(last: Option<int>, now: int, later: int, freq: string)
    requires now <= later
    ensures last.None? ==> CadenceReached(last, now, freq)
    ensures last.Some? ==> (CadenceReached(last, now, freq) <==> now >= last.value + CadenceDays(freq) * MicrosPerDay)
    ensures CadenceReached(last, now, freq) ==> CadenceReached(last, later, freq)
  {
  }

  /** A longer cadence reached means every shorter one is reached too. */
  lemma CadenceNested(last: Option<int>, now: int)
    ensures CadenceReached(last, now, "monthly") ==> CadenceReached(last, now, "biweekly")
    ensures CadenceReached(last, now, "biweekly") ==> CadenceReached(last, now, "weekly")
  {
  }

  // ---------- frequency ----------

  const Frequencies: seq<string> := ["weekly", "biweekly", "monthly"]

  /** `(u.get("frequency") or "weekly").lower()`, with any value other than the three cadences read as "weekly". */
  function NormalizeFrequency(f: Option<string>): string {
    var freq := Lower(if Truthy(f) then f.value else "weekly");
    if freq in Frequencies then freq else "weekly"
  }

  /** lower() leaves lower-case ASCII words alone. */
  lemma LowerOfLowercase(s: string)
    requires forall i :: 0 <= i < |s| ==> 'a' <= s[i] <= 'z'
    ensures Lower(s) == s
  {
  }

  /**
    The frequency is always one of the three cadences: the lower-cased value
    when that is one, "weekly" otherwise; normalising twice changes nothing.
  */
  lemma NormalizeFrequencySpec(f: Option<string>)
    ensures NormalizeFrequency(f) in Frequencies
    ensures Truthy(f) && Lower(f.value) in Frequencies ==> NormalizeFrequency(f) == Lower(f.value)
    ensures !(Truthy(f) && Lower(f.value) in Frequencies) ==> NormalizeFrequency(f) == "weekly"
    ensures NormalizeFrequency(Some(NormalizeFrequency(f))) == NormalizeFrequency(f)
  {
    LowerOfLowercase("weekly");
    LowerOfLowercase("biweekly");
    LowerOfLowercase("monthly");
  }

  // ---------- _with_retries ----------

  /** The retry loop from attempt `attempt` on, where the j-th call of fn answers outcomes(offset + j). */
  function RetryFrom<T, E>(outcomes: nat -> Result<T, E>, offset: nat, maxAttempts: int, attempt: nat): (Result<T, E>, nat)
    decreases maxAttempts - attempt
  {
    var out := outcomes(offset + attempt);
    if out.Ok? || attempt + 1 >= maxAttempts then (out, attempt + 1)
    else RetryFrom(outcomes, offset, maxAttempts, attempt + 1)
  }

  /** `_with_retries(fn, max_attempts=m)`: the value or last exception, and how many times fn was called. */
  function Retry<T, E>(outcomes: nat -> Result<T, E>, offset: nat, maxAttempts: int): (Result<T, E>, nat) {
    RetryFrom(outcomes, offset, maxAttempts, 0)
  }

  function Max(a: int, b: int): int {
    if a < b then b else a
  }

  lemma {:induction false} RetryFromSpec<T, E>(outcomes: nat -> Result<T, E>, offset: nat, maxAttempts: int, attempt: nat)
    ensures var r := RetryFrom(outcomes, offset, maxAttempts, attempt);
      attempt + 1 <= r.1 <= Max(attempt + 1, maxAttempts)
      && r.0 == outcomes(offset + r.1 - 1)
      && (forall j :: offset + attempt <= j < offset + r.1 - 1 ==> outcomes(j).Err?)
      && (r.0.Err? ==> r.1 == Max(attempt + 1, maxAttempts))
    decreases maxAttempts - attempt
  {
    if !(outcomes(offset + attempt).Ok? || attempt + 1 >= maxAttempts) {
      RetryFromSpec(outcomes, offset, maxAttempts, attempt + 1);
    }
  }

  /**
    fn is called at least once and at most max(1, max_attempts) times; the
    result is the first success, and an exception is re-raised only after the
    last allowed call has failed as well.
  */
  lemma RetrySpec<T, E>(outcomes: nat -> Result<T, E>, offset: nat, maxAttempts: int)
    ensures var r := Retry(outcomes, offset, maxAttempts);
      1 <= r.1 <= Max(1, maxAttempts)
      && r.0 == outcomes(offset + r.1 - 1)
      && (forall j :: offset <= j < offset + r.1 - 1 ==> outcomes(j).Err?)
      && (r.0.Err? ==> r.1 == Max(1, maxAttempts))
  {
    RetryFromSpec(outcomes, offset, maxAttempts, 0);
  }

  /** `_with_retries(fn, max_attempts=...)`, returning also the number of calls made; the sleeps are not modelled. */
  method WithRetries<T, E>(outcomes: nat -> Result<T, E>, offset: nat, maxAttempts: int) returns (r: Result<T, E>, calls: nat)
    ensures (r, calls) == Retry(outcomes, offset, maxAttempts)
  {
    var attempt: nat := 0;
    while true
      invariant RetryFrom(outcomes, offset, maxAttempts, attempt) == Retry(outcomes, offset, maxAttempts)
      decreases maxAttempts - attempt
    {
      var out := outcomes(offset + attempt);
      if out.Ok? {
        return out, attempt + 1;
      }
      attempt := attempt + 1;
      if attempt >= maxAttempts {
        return out, attempt;
      }
    }
  }

  // ---------- _run_for_users ----------

  datatype Failure = Failure(message: string)

  /**
    A user row of the job with what the outside world answers for it: the time
    of the latest stored suggestion, the successive outcomes of building the
    recommended events, and of inserting the suggestion row (True when a new
    row was written).
  */
  datatype UserRow = UserRow(
    uuid: string,
    frequency: Option<string>,
    locationValue: Option<string>,
    locationLabel: Option<string>,
    last: Option<int>,
    build: nat -> Result<seq<Event>, Failure>,
    insert: nat -> Result<bool, Failure>)

  /** The suggestion row handed to `insert_user_suggestions`. */
  datatype Payload = Payload(
    userUuid: string, generatedAt: int, location: Option<string>, frequency: string, periodKey: string, events: seq<Event>)

  datatype Kind = Due | NoLocation | BuildFailed | InsertFailed | Inserted(isNew: bool)

  /**
    What the loop did for one user: how it ended, how often it called the build
    and the insert, and the events it built (none when it built nothing).
  */
  datatype Outcome = Outcome(kind: Kind, buildCalls: nat, insertCalls: nat, events: seq<Event>)

  const MaxAttempts: int := 3

  /** The UTC date of an instant. */
  function UtcDate(now: int): CalDate {
    EpochDay(now / MicrosPerDay)
  }

  /** One turn of `_run_for_users`' loop, up to the payload it sends. */
  function UserOutcome(u: UserRow, now: int): Outcome {
    if u.last.Some? && !CadenceReached(u.last, now, NormalizeFrequency(u.frequency)) then Outcome(Due, 0, 0, [])
    else if Strip(OrEmpty(u.locationValue)) == "" then Outcome(NoLocation, 0, 0, [])
    else
      var built := Retry(u.build, 0, MaxAttempts);
      if built.0.Err? then Outcome(BuildFailed, built.1, 0, [])
      else
        var ins := if u.insert(0).Ok? then (u.insert(0), 1)
                   else var retried := Retry(u.insert, 1, MaxAttempts); (retried.0, retried.1 + 1);
        if ins.0.Err? then Outcome(InsertFailed, built.1, ins.1, built.0.value)
        else Outcome(Inserted(ins.0.value), built.1, ins.1, built.0.value)
  }

  /** The suggestion row built for a user once the events are in hand. */
  function SuggestionPayload(u: UserRow, now: int, events: seq<Event>): Payload {
    var freq := NormalizeFrequency(u.frequency);
    Payload(u.uuid, now, u.locationLabel, freq, ComputePeriodKey(UtcDate(now), freq), events)
  }

  /** Whether the loop got as far as handing a payload to the insert. */
  predicate SentPayload(o: Outcome) {
    o.kind.InsertFailed? || o.kind.Inserted?
  }

  /**
    A user not yet due is counted and nothing is built; a blank location skips
    the user before any call; the build is tried at most three times and the
    insert at most four (once, then three retries); a payload is sent only
    after a successful build, with the events that build returned.
  */
  lemma UserOutcomeSpec(u: UserRow, now: int)
    ensures var o := UserOutcome(u, now);
      (o.kind.Due? <==> u.last.Some? && !CadenceReached(u.last, now, NormalizeFrequency(u.frequency)))
      && (o.kind.Due? || o.kind.NoLocation? ==> o.buildCalls == 0 && o.insertCalls == 0)
      && (o.kind.NoLocation? ==> Strip(OrEmpty(u.locationValue)) == "")
      && (SentPayload(o) ==>
            Strip(OrEmpty(u.locationValue)) != ""
            && 1 <= o.buildCalls && u.build(o.buildCalls - 1) == Ok(o.events)
            && 1 <= o.insertCalls)
      && (o.kind.InsertFailed? ==> o.insertCalls == 4)
      && o.buildCalls <= 3 && o.insertCalls <= 4
  {
    RetrySpec(u.build, 0, MaxAttempts);
    RetrySpec(u.insert, 1, MaxAttempts);
  }

  /**
    The payload names the user, now and the raw location label; its frequency
    is one of the three cadences, and its period key is the ISO week, the
    fortnight bucket or the month of now's UTC date, by that frequency.
  */
  lemma SuggestionPayloadSpec(u: UserRow, now: int, events: seq<Event>)
    ensures var p := SuggestionPayload(u, now, events);
      var d := UtcDate(now);
      var iso := IsoCalendar(d);
      p.userUuid == u.uuid && p.generatedAt == now && p.location == u.locationLabel && p.events == events
      && p.frequency in Frequencies
      && Ordinal(d) == EpochOrdinal + now / MicrosPerDay
      && IsoDescribes(iso, Ordinal(d))
      && (p.frequency == "weekly" ==>
            exists s :: p.periodKey == IntToString(iso.year) + "-W" + s && TwoDigits(s, iso.week))
      && (p.frequency == "biweekly" ==>
            exists s :: p.periodKey == IntToString(iso.year) + "-B" + s && TwoDigits(s, (iso.week + 1) / 2))
      && (p.frequency == "monthly" ==>
            exists s :: p.periodKey == IntToString(d.y) + "-" + s && TwoDigits(s, d.m))
  {
    NormalizeFrequencySpec(u.frequency);
    PeriodKeyShape(UtcDate(now), NormalizeFrequency(u.frequency));
  }

  /** The counters `_run_for_users` returns. */
  datatype Counts = Counts(made: nat, skippedDue: nat, skippedDupe: nat)

  function Count(c: Counts, o: Outcome): Counts {
    match o.kind
    case Due => c.(skippedDue := c.skippedDue + 1)
    case Inserted(isNew) => if isNew then c.(made := c.made + 1) else c.(skippedDupe := c.skippedDupe + 1)
    case _ => c
  }

  /** The counters after the loop has run over users. */
  function Tally(users: seq<UserRow>, now: int): Counts {
    if users == [] then Counts(0, 0, 0)
    else Count(Tally(users[..|users| - 1], now), UserOutcome(users[|users| - 1], now))
  }

  /** Each user adds to at most one counter. */
  lemma {:induction false} TallyBound(users: seq<UserRow>, now: int)
    ensures var t := Tally(users, now); t.made + t.skippedDue + t.skippedDupe <= |users|
  {
    if users != [] {
      TallyBound(users[..|users| - 1], now);
    }
  }

  /** Users with no stored suggestion are never skipped as not due. */
  lemma {:induction false} TallyNewUsers(users: seq<UserRow>, now: int)
    requires forall k :: 0 <= k < |users| ==> users[k].last.None?
    ensures Tally(users, now).skippedDue == 0
  {
    if users != [] {
      var init := users[..|users| - 1];
      assert forall k :: 0 <= k < |init| ==> init[k] == users[k];
      TallyNewUsers(init, now);
    }
  }

  /** When every insert that returns reports a new row, as `insert_user_suggestions` does, no duplicate is counted. */
  lemma {:induction false} TallyNoDupes(users: seq<UserRow>, now: int)
    requires forall k, j :: 0 <= k < |users| && users[k].insert(j).Ok? ==> users[k].insert(j).value
    ensures Tally(users, now).skippedDupe == 0
  {
    if users != [] {
      var init, u := users[..|users| - 1], users[|users| - 1];
      assert forall k :: 0 <= k < |init| ==> init[k] == users[k];
      TallyNoDupes(init, now);
      RetrySpec(u.insert, 1, MaxAttempts);
    }
  }

  /** The loop body for one user; `payload` is what it handed to the insert, if anything. */
  method RunForUser(u: UserRow, now: int) returns (o: Outcome, payload: Option<Payload>)
    ensures o == UserOutcome(u, now)
    ensures payload == if SentPayload(o) then Some(SuggestionPayload(u, now, o.events)) else None
  {
    var freq := NormalizeFrequency(u.frequency);
    if u.last.Some? && !CadenceReached(u.last, now, freq) {
      return Outcome(Due, 0, 0, []), None;
    }
    var periodKey := ComputePeriodKey(UtcDate(now), freq);
    var locationValue := Strip(OrEmpty(u.locationValue));
    if locationValue == "" {
      return Outcome(NoLocation, 0, 0, []), None;
    }
    var built, buildCalls := WithRetries(u.build, 0, MaxAttempts);
    if built.Err? {
      return Outcome(BuildFailed, buildCalls, 0, []), None;
    }
    var row := Payload(u.uuid, now, u.locationLabel, freq, periodKey, built.value);
    payload := Some(row);
    var inserted := u.insert(0);
    var insertCalls := 1;
    if inserted.Err? {
      var retried, calls := WithRetries(u.insert, 1, MaxAttempts);
      inserted, insertCalls := retried, calls + 1;
      if inserted.Err? {
        return Outcome(InsertFailed, buildCalls, insertCalls, built.value), payload;
      }
    }
    o := Outcome(Inserted(inserted.value), buildCalls, insertCalls, built.value);
  }

  /** `_run_for_users(app, users, now=now)`: the three counters over the users in order. */
  method RunForUsers(users: seq<UserRow>, now: int) returns (made: nat, skippedDue: nat, skippedDupe: nat)
    ensures Counts(made, skippedDue, skippedDupe) == Tally(users, now)
  {
    made, skippedDue, skippedDupe := 0, 0, 0;
    for i := 0 to |users|
      invariant Counts(made, skippedDue, skippedDupe) == Tally(users[..i], now)
    {
      var o, _ := RunForUser(users[i], now);
      assert users[..i + 1][..i] == users[..i];
      assert Tally(users[..i + 1], now) == Count(Tally(users[..i], now), o);
      match o.kind
      case Due =>
        skippedDue := skippedDue + 1;
      case Inserted(isNew) =>
        if isNew {
          made := made + 1;
        } else {
          skippedDupe := skippedDupe + 1;
        }
      case _ =>
    }
    assert users[..|users|] == users;
  }
}
