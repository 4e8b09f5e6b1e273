/**
  The proleptic Gregorian calendar as Python's `datetime` module computes it:
  dates, day ordinals (`date.toordinal()`, 0001-01-01 is day 1), their inverse
  (`date.fromordinal()`), weekdays (Monday = 0) and day arithmetic
  (`date + timedelta(days=k)`).
*/
module Calendar {
  import opened Wrappers

  datatype Date = Date(y: int, m: int, d: int)

  predicate IsLeap(y: int) {
    y % 4 == 0 && (y % 100 != 0 || y % 400 == 0)
  }

  function DaysInYear(y: int): int {
    if IsLeap(y) then 366 else 365
  }

  function DaysInMonth(y: int, m: int): int
    requires 1 <= m <= 12
  {
    if m == 2 then (if IsLeap(y) then 29 else 28)
    else if m == 4 || m == 6 || m == 9 || m == 11 then 30
    else 31
  }

  /** (y, m, d) names a day of the calendar; the year may lie outside Python's range. */
  predicate IsCalendarDate(dt: Date) {
    1 <= dt.m <= 12 && 1 <= dt.d <= DaysInMonth(dt.y, dt.m)
  }

  type CalDate = dt: Date | IsCalendarDate(dt) witness Date(1, 1, 1)

  const MinYear: int := 1
  const MaxYear: int := 9999

  /** The dates `datetime(y, m, d)` accepts without raising ValueError. */
  predicate Valid(dt: Date) {
    IsCalendarDate(dt) && MinYear <= dt.y <= MaxYear
  }

  /** A `date` / `datetime` value: Python cannot construct any other. */
  type ValidDate = dt: Date | Valid(dt) witness Date(1, 1, 1)

  /** `datetime(y, m, d)`, with None standing for the ValueError it raises. */
  function MakeDate(y: int, m: int, d: int): (r: Option<ValidDate>)
    ensures r.Some? <==> Valid(Date(y, m, d))
    ensures r.Some? ==> r.value == Date(y, m, d)
  {
    if Valid(Date(y, m, d)) then Some(Date(y, m, d)) else None
  }

  /** Days in the years before year y (Python's `_days_before_year`). */
  function DaysBeforeYear(y: int): int {
    var p := y - 1;
    365 * p + p / 4 - p / 100 + p / 400
  }

  /** Days in the months of year y before month m; month 13 gives the whole year. */
  function DaysBeforeMonth(y: int, m: int): nat
    requires 1 <= m <= 13
  {
    if m == 1 then 0 else DaysBeforeMonth(y, m - 1) + DaysInMonth(y, m - 1)
  }

  /** `date.toordinal()` */
  function Ordinal(dt: CalDate): int {
    DaysBeforeYear(dt.y) + DaysBeforeMonth(dt.y, dt.m) + dt.d
  }

  /** `date.weekday()`: Monday is 0, Sunday is 6. */
  function Weekday(n: int): int {
    (n + 6) % 7
  }

  /** Weekdays repeat every seven days, and n - Weekday(n) is the Monday of n's week. */
  lemma WeekdayFacts(n: int, k: int)
    ensures 0 <= Weekday(n) <= 6
    ensures Weekday(n - Weekday(n) + k) == k % 7
    ensures Weekday(n + 7 * k) == Weekday(n)
  {
    var q := (n + 6) / 7;
    assert n + 6 == 7 * q + Weekday(n);
    ModSevenShift(q, k);
    assert n - Weekday(n) + k + 6 == 7 * q + k;
    ModSevenShift(k, n + 6);
    assert n + 7 * k + 6 == 7 * k + (n + 6);
  }

  /** Adding a multiple of seven leaves the remainder modulo seven unchanged. */
  lemma ModSevenShift(q: int, r: int)
    ensures (7 * q + r) % 7 == r % 7
  {
    var a := r / 7;
    assert r == 7 * a + r % 7;
    assert 7 * q + r == 7 * (q + a) + r % 7;
  }

  /** Two Mondays less than a week apart are the same day. */
  lemma MondayUnique(a: int, b: int)
    requires Weekday(a) == 0 && Weekday(b) == 0 && a - 6 <= b <= a + 6
    ensures a == b
  {
    var p, q := (a + 6) / 7, (b + 6) / 7;
    assert a + 6 == 7 * p && b + 6 == 7 * q;
  }

  lemma MonthStep(y: int, m: int)
    requires 1 <= m <= 12
    ensures DaysBeforeMonth(y, m + 1) == DaysBeforeMonth(y, m) + DaysInMonth(y, m)
    ensures DaysBeforeMonth(y, 13) == DaysInYear(y)
  {
    assert DaysBeforeMonth(y, 2) == 31;
    assert DaysBeforeMonth(y, 3) == 31 + DaysInMonth(y, 2);
    assert DaysBeforeMonth(y, 4) == DaysBeforeMonth(y, 3) + 31;
    assert DaysBeforeMonth(y, 5) == DaysBeforeMonth(y, 3) + 61;
    assert DaysBeforeMonth(y, 6) == DaysBeforeMonth(y, 3) + 92;
    assert DaysBeforeMonth(y, 7) == DaysBeforeMonth(y, 3) + 122;
    assert DaysBeforeMonth(y, 8) == DaysBeforeMonth(y, 3) + 153;
    assert DaysBeforeMonth(y, 9) == DaysBeforeMonth(y, 3) + 184;
    assert DaysBeforeMonth(y, 10) == DaysBeforeMonth(y, 3) + 214;
    assert DaysBeforeMonth(y, 11) == DaysBeforeMonth(y, 3) + 245;
    assert DaysBeforeMonth(y, 12) == DaysBeforeMonth(y, 3) + 275;
    assert DaysBeforeMonth(y, 13) == DaysBeforeMonth(y, 3) + 306;
  }

  lemma {:induction false} MonthMonotone(y: int, m: int, k: int)
    requires 1 <= m <= k <= 13
    ensures DaysBeforeMonth(y, m) <= DaysBeforeMonth(y, k)
    ensures m < k ==> DaysBeforeMonth(y, m) < DaysBeforeMonth(y, k)
    decreases k - m
  {
    if m < k {
      MonthMonotone(y, m, k - 1);
    }
  }

  lemma DivSteps(p: int)
    ensures (p + 1) / 4 == p / 4 + (if (p + 1) % 4 == 0 then 1 else 0)
    ensures (p + 1) / 100 == p / 100 + (if (p + 1) % 100 == 0 then 1 else 0)
    ensures (p + 1) / 400 == p / 400 + (if (p + 1) % 400 == 0 then 1 else 0)
  {
  }

  /** Each year adds its own length to the day count. */
  lemma YearStep(y: int)
    ensures DaysBeforeYear(y + 1) == DaysBeforeYear(y) + DaysInYear(y)
  {
    var p := y - 1;
    DivSteps(p);
    if y % 400 == 0 {
      assert y == 400 * (y / 400);
      assert y % 100 == 0 && y % 4 == 0;
    } else if y % 100 == 0 {
      assert y == 100 * (y / 100);
      assert y % 4 == 0;
    }
  }

  lemma {:induction false} YearMonotone(a: int, b: int)
    requires a <= b
    ensures DaysBeforeYear(a) <= DaysBeforeYear(b)
    ensures a < b ==> DaysBeforeYear(a + 1) <= DaysBeforeYear(b)
    decreases b - a
  {
    if a < b {
      YearStep(a);
      YearMonotone(a + 1, b);
    }
  }

  function YearUp(n: int, y: int): (r: int)
    requires DaysBeforeYear(y) < n
    ensures DaysBeforeYear(r) < n <= DaysBeforeYear(r + 1)
    decreases n - DaysBeforeYear(y)
  {
    YearStep(y);
    if n <= DaysBeforeYear(y + 1) then y else YearUp(n, y + 1)
  }

  function YearDown(n: int, y: int): (r: int)
    requires n <= DaysBeforeYear(y + 1)
    ensures DaysBeforeYear(r) < n <= DaysBeforeYear(r + 1)
    decreases DaysBeforeYear(y + 1) - n
  {
    YearStep(y);
    if DaysBeforeYear(y) < n then y else YearDown(n, y - 1)
  }

  /** The year that holds day n: searched upward from an estimate that never overshoots. */
  function YearOf(n: int): (r: int)
    ensures DaysBeforeYear(r) < n <= DaysBeforeYear(r + 1)
  {
    if n > 0 then
      var p := (n - 1) / 366;
      assert DaysBeforeYear(p + 1) <= 366 * p;
      YearUp(n, p + 1)
    else
      YearDown(n, 0)
  }

  function MonthFrom(y: int, r: int, m: int): (k: int)
    requires 1 <= m <= 12 && DaysBeforeMonth(y, m) < r <= DaysInYear(y)
    ensures m <= k <= 12 && DaysBeforeMonth(y, k) < r <= DaysBeforeMonth(y, k + 1)
    decreases 12 - m
  {
    MonthStep(y, m);
    if r <= DaysBeforeMonth(y, m + 1) || m == 12 then m else MonthFrom(y, r, m + 1)
  }

  /** `date.fromordinal(n)`, extended to every integer. */
  function FromOrdinal(n: int): (dt: CalDate)
    ensures Ordinal(dt) == n
  {
    var y := YearOf(n);
    YearStep(y);
    var r := n - DaysBeforeYear(y);
    var m := MonthFrom(y, r, 1);
    MonthStep(y, m);
    Date(y, m, r - DaysBeforeMonth(y, m))
  }

  /** The days before a date's month plus its day fit within its year. */
  lemma DayOfYearBounds(dt: CalDate)
    ensures DaysBeforeMonth(dt.y, dt.m) < DaysBeforeMonth(dt.y, dt.m) + dt.d <= DaysBeforeMonth(dt.y, dt.m + 1)
    ensures DaysBeforeMonth(dt.y, dt.m + 1) <= DaysInYear(dt.y)
  {
    MonthStep(dt.y, dt.m);
    MonthMonotone(dt.y, dt.m + 1, 13);
  }

  /** A date's ordinal lies inside its own year, and inside its own month. */
  lemma OrdinalBounds(dt: CalDate)
    ensures DaysBeforeYear(dt.y) < Ordinal(dt) <= DaysBeforeYear(dt.y + 1)
    ensures DaysBeforeMonth(dt.y, dt.m) < Ordinal(dt) - DaysBeforeYear(dt.y) <= DaysBeforeMonth(dt.y, dt.m + 1)
  {
    YearStep(dt.y);
    DayOfYearBounds(dt);
  }

  lemma YearUnique(n: int, a: int, b: int)
    requires DaysBeforeYear(a) < n <= DaysBeforeYear(a + 1)
    requires DaysBeforeYear(b) < n <= DaysBeforeYear(b + 1)
    ensures a == b
  {
    if a < b {
      YearMonotone(a, b);
    } else if b < a {
      YearMonotone(b, a);
    }
  }

  lemma MonthUnique(y: int, r: int, a: int, b: int)
    requires 1 <= a <= 12 && 1 <= b <= 12
    requires DaysBeforeMonth(y, a) < r <= DaysBeforeMonth(y, a + 1)
    requires DaysBeforeMonth(y, b) < r <= DaysBeforeMonth(y, b + 1)
    ensures a == b
  {
    if a < b {
      MonthMonotone(y, a + 1, b);
    } else if b < a {
      MonthMonotone(y, b + 1, a);
    }
  }

  /** `date.fromordinal(d.toordinal()) == d`: the ordinal is a bijection. */
  lemma FromOrdinalOrdinal(dt: CalDate)
    ensures FromOrdinal(Ordinal(dt)) == dt
  {
    var n := Ordinal(dt);
    OrdinalBounds(dt);
    var e := FromOrdinal(n);
    OrdinalBounds(e);
    YearUnique(n, e.y, dt.y);
    MonthUnique(dt.y, n - DaysBeforeYear(dt.y), e.m, dt.m);
  }

  /** Python's order on dates: by year, then month, then day. */
  predicate DateLe(a: Date, b: Date) {
    a.y < b.y || (a.y == b.y && (a.m < b.m || (a.m == b.m && a.d <= b.d)))
  }

  predicate DateLt(a: Date, b: Date) {
    !DateLe(b, a)
  }

  /** Comparing dates field by field is comparing their ordinals. */
  lemma DateLeOrdinal(a: CalDate, b: CalDate)
    ensures DateLe(a, b) <==> Ordinal(a) <= Ordinal(b)
  {
    OrdinalBounds(a);
    OrdinalBounds(b);
    if a.y < b.y {
      YearMonotone(a.y, b.y);
    } else if b.y < a.y {
      YearMonotone(b.y, a.y);
    } else if a.m < b.m {
      MonthMonotone(a.y, a.m + 1, b.m);
    } else if b.m < a.m {
      MonthMonotone(a.y, b.m + 1, a.m);
    }
  }

  /** Two dates are equal exactly when their ordinals are. */
  lemma OrdinalInjective(a: CalDate, b: CalDate)
    ensures Ordinal(a) == Ordinal(b) <==> a == b
  {
    if Ordinal(a) == Ordinal(b) {
      FromOrdinalOrdinal(a);
      FromOrdinalOrdinal(b);
    }
  }

  /** The date k days after dt is the one whose ordinal is k more. */
  lemma AddDaysIs(dt: CalDate, k: int, e: CalDate)
    requires Ordinal(e) == Ordinal(dt) + k
    ensures AddDays(dt, k) == e
  {
    FromOrdinalOrdinal(e);
  }

  /** `dt + timedelta(days=k)`; Python raises OverflowError outside years 1..9999. */
  function AddDays(dt: CalDate, k: int): (r: CalDate)
    ensures Ordinal(r) == Ordinal(dt) + k
  {
    FromOrdinal(Ordinal(dt) + k)
  }

  // ---------- ISO 8601 week dates ----------

  /** `_isoweek1monday(year)`: the ordinal of the Monday of the week holding January 4. */
  function IsoWeek1Monday(y: int): int {
    var firstday := DaysBeforeYear(y) + 1;
    var firstweekday := (firstday + 6) % 7;
    if firstweekday > 3 then firstday - firstweekday + 7 else firstday - firstweekday
  }

  /** Week 1 starts on a Monday at most three days from January 1. */
  lemma IsoWeek1MondayFacts(y: int)
    ensures Weekday(IsoWeek1Monday(y)) == 0
    ensures DaysBeforeYear(y) - 2 <= IsoWeek1Monday(y) <= DaysBeforeYear(y) + 4
  {
    var firstday := DaysBeforeYear(y) + 1;
    WeekdayFacts(firstday, 0);
    WeekdayFacts(firstday, 7);
  }

  /** Two Mondays a and b near day counts d and e that lie a year apart are 52 or 53 weeks apart. */
  lemma MondayGap(a: int, b: int, d: int, e: int)
    requires Weekday(a) == 0 && Weekday(b) == 0
    requires d - 2 <= a <= d + 4 && e - 2 <= b <= e + 4
    requires e - d == 365 || e - d == 366
    ensures b - a == 364 || b - a == 371
  {
    var p, q := (a + 6) / 7, (b + 6) / 7;
    assert a + 6 == 7 * p && b + 6 == 7 * q;
    assert b - a == 7 * (q - p);
  }

  /** An ISO year has 52 or 53 weeks. */
  lemma IsoYearLength(y: int)
    ensures IsoWeek1Monday(y + 1) - IsoWeek1Monday(y) == 364 || IsoWeek1Monday(y + 1) - IsoWeek1Monday(y) == 371
  {
    IsoWeek1MondayFacts(y);
    IsoWeek1MondayFacts(y + 1);
    YearStep(y);
    MondayGap(IsoWeek1Monday(y), IsoWeek1Monday(y + 1), DaysBeforeYear(y), DaysBeforeYear(y + 1));
  }

  datatype IsoDate = IsoDate(year: int, week: int, weekday: int)

  /**
    The steps of `date.isocalendar()` for ordinal n in year y, given the week-1
    Mondays w0, w1 and w2 of years y - 1, y and y + 1.
  */
  function IsoSteps(n: int, y: int, w0: int, w1: int, w2: int): IsoDate {
    var week, day := (n - w1) / 7, (n - w1) % 7;
    if week < 0 then IsoDate(y - 1, (n - w0) / 7 + 1, (n - w0) % 7 + 1)
    else if week >= 52 && n >= w2 then IsoDate(y + 1, 1, day + 1)
    else IsoDate(y, week + 1, day + 1)
  }

  /** `isocalendar` for the day with ordinal n in year y. */
  function IsoOfYear(n: int, y: int): IsoDate {
    IsoSteps(n, y, IsoWeek1Monday(y - 1), IsoWeek1Monday(y), IsoWeek1Monday(y + 1))
  }

  /** `date.isocalendar()`, as CPython's `datetime` module computes it. */
  function IsoCalendar(dt: CalDate): IsoDate {
    IsoOfYear(Ordinal(dt), dt.y)
  }

  /** n lies r days after Monday w: its weekday is r. */
  lemma WeekdayAfterMonday(w: int, k: int, r: int)
    requires Weekday(w) == 0 && 0 <= r < 7
    ensures Weekday(w + 7 * k + r) == r
  {
    WeekdayFacts(w, 7 * k + r);
  }

  /** The arithmetic of `isocalendar`: which of the three years' weeks holds n. */
  lemma IsoStepsSpec(n: int, y: int, w0: int, w1: int, w2: int)
    requires Weekday(w0) == 0 && Weekday(w1) == 0 && Weekday(w2) == 0
    requires w1 - w0 == 364 || w1 - w0 == 371
    requires w2 - w1 == 364 || w2 - w1 == 371
    requires w1 - 3 <= n <= w2 + 2
    ensures var iso := IsoSteps(n, y, w0, w1, w2);
      var base := if iso.year == y - 1 then w0 else if iso.year == y then w1 else w2;
      (iso.year == y - 1 || iso.year == y || iso.year == y + 1)
      && base <= n
      && (iso.year == y - 1 ==> n < w1)
      && (iso.year == y ==> n < w2)
      && (iso.year == y + 1 ==> n < w2 + 7)
      && n == base + 7 * (iso.week - 1) + (iso.weekday - 1)
      && 1 <= iso.week <= 53 && 1 <= iso.weekday <= 7
      && iso.weekday == Weekday(n) + 1
  {
    var q, r := (n - w1) / 7, (n - w1) % 7;
    assert n - w1 == 7 * q + r;
    if q < 0 {
      var q0, r0 := (n - w0) / 7, (n - w0) % 7;
      assert n - w0 == 7 * q0 + r0;
      WeekdayAfterMonday(w0, q0, r0);
    } else if q >= 52 && n >= w2 {
      var k := (w2 - w1) / 7;
      assert w2 - w1 == 7 * k;
      assert n - w2 == 7 * (q - k) + r;
      assert q == k;
      WeekdayAfterMonday(w2, 0, r);
    } else {
      WeekdayAfterMonday(w1, q, r);
    }
  }

  /** A date lies between three days before its year's week 1 and two days into the next year's. */
  lemma NearWeek1(dt: CalDate)
    ensures IsoWeek1Monday(dt.y) - 3 <= Ordinal(dt) <= IsoWeek1Monday(dt.y + 1) + 2
  {
    OrdinalBounds(dt);
    IsoWeek1MondayFacts(dt.y);
    IsoWeek1MondayFacts(dt.y + 1);
  }

  /** The consecutive week-1 Mondays around year y. */
  lemma MondaysAround(y: int)
    ensures Weekday(IsoWeek1Monday(y - 1)) == 0 && Weekday(IsoWeek1Monday(y)) == 0
    ensures Weekday(IsoWeek1Monday(y + 1)) == 0
    ensures var d := IsoWeek1Monday(y) - IsoWeek1Monday(y - 1); d == 364 || d == 371
    ensures var d := IsoWeek1Monday(y + 1) - IsoWeek1Monday(y); d == 364 || d == 371
    ensures var d := IsoWeek1Monday(y + 2) - IsoWeek1Monday(y + 1); d == 364 || d == 371
  {
    IsoWeek1MondayFacts(y - 1);
    IsoWeek1MondayFacts(y);
    IsoWeek1MondayFacts(y + 1);
    IsoYearLength(y - 1);
    IsoYearLength(y);
    IsoYearLength(y + 1);
  }

  /**
    The ISO 8601 reading of ordinal n: iso.year is the year whose week 1 starts
    on or before n and whose successor's week 1 starts after it; iso.week counts
    weeks from that Monday, and iso.weekday is 1 for Monday through 7 for Sunday.
  */
  predicate IsoDescribes(iso: IsoDate, n: int) {
    IsoWeek1Monday(iso.year) <= n < IsoWeek1Monday(iso.year + 1)
    && n == IsoWeek1Monday(iso.year) + 7 * (iso.week - 1) + (iso.weekday - 1)
    && iso.weekday == Weekday(n) + 1
    && 1 <= iso.week <= 53
  }

  /** `isocalendar` on an ordinal n near year y's week 1. */
  lemma IsoStepsOfYear(n: int, y: int)
    requires IsoWeek1Monday(y) - 3 <= n <= IsoWeek1Monday(y + 1) + 2
    ensures IsoDescribes(IsoOfYear(n, y), n) && y - 1 <= IsoOfYear(n, y).year <= y + 1
  {
    var w0, w1, w2, w3 := IsoWeek1Monday(y - 1), IsoWeek1Monday(y), IsoWeek1Monday(y + 1), IsoWeek1Monday(y + 2);
    MondaysAround(y);
    IsoStepsSpec(n, y, w0, w1, w2);
    var iso := IsoOfYear(n, y);
    assert iso == IsoSteps(n, y, w0, w1, w2);
    if iso.year == y - 1 {
      DescribesBetween(iso, n, w0, w1);
    } else if iso.year == y {
      DescribesBetween(iso, n, w1, w2);
    } else {
      DescribesBetween(iso, n, w2, w3);
    }
  }

  /** The ISO reading of n, given the week-1 Mondays of its ISO year and the next. */
  lemma DescribesBetween(iso: IsoDate, n: int, w: int, wNext: int)
    requires IsoWeek1Monday(iso.year) == w && IsoWeek1Monday(iso.year + 1) == wNext
    requires w <= n < wNext && n == w + 7 * (iso.week - 1) + (iso.weekday - 1)
    requires iso.weekday == Weekday(n) + 1 && 1 <= iso.week <= 53
    ensures IsoDescribes(iso, n)
  {
  }

  /** `date.isocalendar()` gives the ISO 8601 week date of the date, in a year next to its own. */
  lemma IsoCalendarSpec(dt: CalDate)
    ensures IsoDescribes(IsoCalendar(dt), Ordinal(dt))
    ensures dt.y - 1 <= IsoCalendar(dt).year <= dt.y + 1
  {
    NearWeek1(dt);
    IsoStepsOfYear(Ordinal(dt), dt.y);
  }

  // ---------- Unix time ----------

  /** The ordinal of 1970-01-01. */
  const EpochOrdinal: int := 719163

  lemma EpochOrdinalIs()
    ensures Ordinal(Date(1970, 1, 1)) == EpochOrdinal
  {
  }

  /** The UTC date that lies `days` days after 1970-01-01. */
  function EpochDay(days: int): (r: CalDate)
    ensures Ordinal(r) == EpochOrdinal + days
  {
    FromOrdinal(EpochOrdinal + days)
  }
}
