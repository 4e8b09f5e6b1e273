/**
  The date normaliser shared by the scraper, the bucketer and the newsletter:
  week anchors and windows, inclusive interval overlap, ISO and Greek pill-text
  date parsing, and reading an event's start date.

  A `datetime` at midnight is represented by its `date`; every value these
  helpers build is midnight, so comparing them is comparing day ordinals.
*/
module TimeUtils {
  import opened Wrappers
  import opened Calendar
  import opened Text
  import opened Events

  predicate Before(a: CalDate, b: CalDate) {
    Ordinal(a) <= Ordinal(b)
  }

  /** Day number k lies in the inclusive window [lo, hi]. */
  predicate Within(k: int, lo: CalDate, hi: CalDate) {
    Ordinal(lo) <= k <= Ordinal(hi)
  }

  // ---------- day ranges and week anchors, on day numbers ----------

  /** `daterange(start, end)`: every day from start to end inclusive, in order; empty when end < start. */
  function DateRange(start: int, end: int): (r: seq<int>)
    ensures |r| == if end < start then 0 else end - start + 1
    ensures forall k :: k in r <==> start <= k <= end
    ensures forall i, j :: 0 <= i < j < |r| ==> r[i] < r[j]
    ensures r != [] ==> r[0] == start && r[|r| - 1] == end
  {
    var r := seq(if end < start then 0 else end - start + 1, i => start + i);
    forall k | start <= k <= end
      ensures k in r
    {
      assert r[k - start] == k;
    }
    r
  }

  /** `start_of_week(d)`: the Monday of d's week. */
  function StartOfWeek(d: int): (r: int)
    ensures Weekday(r) == 0
    ensures d - 6 <= r <= d
  {
    WeekdayFacts(d, 0);
    d - Weekday(d)
  }

  /** `end_of_week(d)`: the Sunday of d's week. */
  function EndOfWeek(d: int): (r: int)
    ensures Weekday(r) == 6
    ensures r == StartOfWeek(d) + 6
    ensures d <= r <= d + 6
  {
    WeekdayFacts(d, 6);
    StartOfWeek(d) + 6
  }

  /** `next_monday(d)`: the first Monday after d. */
  function NextMonday(d: int): (r: int)
    ensures Weekday(r) == 0
    ensures r == StartOfWeek(d) + 7
    ensures d < r <= d + 7
  {
    WeekdayFacts(d, 7);
    StartOfWeek(d) + 7
  }

  /** `next_sunday(d)`: the Sunday of the week after d's. */
  function NextSunday(d: int): (r: int)
    ensures Weekday(r) == 6
    ensures r == EndOfWeek(d) + 7
    ensures d + 7 <= r <= d + 13
  {
    WeekdayFacts(d, 13);
    NextMonday(d) + 6
  }

  /** `upcoming_weekend_bounds(today)`: Friday and Sunday of today's week. */
  function UpcomingWeekendBounds(today: int): (r: (int, int))
    ensures Weekday(r.0) == 4 && Weekday(r.1) == 6
    ensures r.0 == StartOfWeek(today) + 4 && r.1 == EndOfWeek(today)
  {
    WeekdayFacts(today, 4);
    WeekdayFacts(today, 6);
    var mon := StartOfWeek(today);
    (mon + 4, mon + 6)
  }

  /** The Monday of d's week is the only Monday at most six days before d. */
  lemma StartOfWeekUnique(d: int, m: int)
    requires Weekday(m) == 0 && d - 6 <= m <= d
    ensures m == StartOfWeek(d)
  {
    MondayUnique(m, StartOfWeek(d));
  }

  /** d lies within its own week, and every day of that week has the same Monday. */
  lemma WeekContains(d: int, e: int)
    ensures StartOfWeek(d) <= d <= EndOfWeek(d)
    ensures StartOfWeek(d) <= e <= EndOfWeek(d) <==> StartOfWeek(e) == StartOfWeek(d)
  {
    if StartOfWeek(d) <= e <= EndOfWeek(d) {
      StartOfWeekUnique(e, StartOfWeek(d));
    }
  }

  /** The first of the month after m, as `month_bounds` builds it. */
  function NextMonthStart(y: int, m: int): CalDate
    requires 1 <= m <= 12
  {
    Date(y + (if m == 12 then 1 else 0), m % 12 + 1, 1)
  }

  /** The day before the first of the next month is the last day of month m. */
  lemma MonthEnd(y: int, m: int)
    requires 1 <= m <= 12
    ensures Ordinal(NextMonthStart(y, m)) - 1 == Ordinal(Date(y, m, DaysInMonth(y, m)))
  {
    MonthStep(y, m);
    if m == 12 {
      YearStep(y);
      assert NextMonthStart(y, m) == Date(y + 1, 1, 1);
    } else {
      assert NextMonthStart(y, m) == Date(y, m + 1, 1);
    }
  }

  /** `month_bounds(y, m)`: None where `datetime` raises ValueError (bad month, year out of range, or December 9999). */
  function MonthBounds(y: int, m: int): (r: Option<(ValidDate, CalDate)>)
    ensures r.Some? <==> 1 <= m <= 12 && MinYear <= y <= MaxYear && !(y == MaxYear && m == 12)
    ensures r.Some? ==> r.value.0 == Date(y, m, 1) && r.value.1 == Date(y, m, DaysInMonth(y, m))
  {
    if !Valid(Date(y, m, 1)) then None
    else
      var next := NextMonthStart(y, m);
      if !Valid(next) then None
      else
        MonthEnd(y, m);
        AddDaysIs(next, -1, Date(y, m, DaysInMonth(y, m)));
        Some((Date(y, m, 1), AddDays(next, -1)))
  }

  /** `range_bounds(start_d, days)`: the inclusive window of max(1, days) days from start_d. */
  function RangeBounds(startD: CalDate, days: int): (r: (CalDate, CalDate))
    ensures r.0 == startD
    ensures Ordinal(r.1) == Ordinal(startD) + (if days < 1 then 1 else days) - 1
    ensures Before(r.0, r.1)
  {
    (startD, AddDays(startD, (if days < 1 then 1 else days) - 1))
  }

  /** The window holds exactly max(1, days) days; zero or negative days give the single day start_d. */
  lemma RangeBoundsLength(startD: CalDate, days: int)
    ensures |DateRange(Ordinal(RangeBounds(startD, days).0), Ordinal(RangeBounds(startD, days).1))| == (if days < 1 then 1 else days)
    ensures days <= 1 ==> RangeBounds(startD, days).1 == startD
  {
    if days <= 1 {
      OrdinalInjective(RangeBounds(startD, days).1, startD);
    }
  }

  // ---------- interval overlap ----------

  /** `overlaps_range(start, end, a, b)`; a missing end stands in for the other. */
  function OverlapsRange(start: Option<ValidDate>, end: Option<ValidDate>, a: CalDate, b: CalDate): bool {
    if start.None? && end.None? then false
    else
      var s := if start.Some? then start.value else end.value;
      var e := if end.Some? then end.value else start.value;
      !(DateLt(e, a) || DateLt(b, s))
  }

  /**
    No date never overlaps; a single known date overlaps when it lies in the
    window, and a range when it ends no earlier than a and starts no later than b.
  */
  lemma OverlapsRangeOrdinal(start: Option<ValidDate>, end: Option<ValidDate>, a: CalDate, b: CalDate)
    ensures start.None? && end.None? ==> !OverlapsRange(start, end, a, b)
    ensures start.Some? && end.None? ==> (OverlapsRange(start, end, a, b) <==> Within(Ordinal(start.value), a, b))
    ensures start.None? && end.Some? ==> (OverlapsRange(start, end, a, b) <==> Within(Ordinal(end.value), a, b))
    ensures start.Some? && end.Some? ==>
      (OverlapsRange(start, end, a, b) <==> Ordinal(a) <= Ordinal(end.value) && Ordinal(start.value) <= Ordinal(b))
  {
    if start.Some? || end.Some? {
      var s := if start.Some? then start.value else end.value;
      var e := if end.Some? then end.value else start.value;
      DateLeOrdinal(a, e);
      DateLeOrdinal(s, b);
    }
  }

  /** For a well-formed range, overlapping means sharing at least one day with [a, b]. */
  lemma OverlapsMeansSharedDay(s: ValidDate, e: ValidDate, a: CalDate, b: CalDate)
    requires Before(s, e) && Before(a, b)
    ensures OverlapsRange(Some(s), Some(e), a, b) <==> exists k :: Within(k, s, e) && Within(k, a, b)
  {
    OverlapsRangeOrdinal(Some(s), Some(e), a, b);
    if OverlapsRange(Some(s), Some(e), a, b) {
      var k := if Ordinal(s) < Ordinal(a) then Ordinal(a) else Ordinal(s);
      assert Within(k, s, e) && Within(k, a, b);
    }
  }

  // ---------- ISO dates ----------

  predicate IsoSep(c: char) {
    c == '-' || c == '/'
  }

  /** The pattern `(\d{4})[-/](\d{2})[-/](\d{2})` matches at position i. */
  predicate IsoMatchAt(s: string, i: int) {
    0 <= i && i + 10 <= |s|
    && AllDigits(s[i..i + 4]) && IsoSep(s[i + 4])
    && AllDigits(s[i + 5..i + 7]) && IsoSep(s[i + 7])
    && AllDigits(s[i + 8..i + 10])
  }

  /** The three groups of the match at i, as `(year, month, day)`. */
  function IsoFieldsAt(s: string, i: int): Date
    requires IsoMatchAt(s, i)
  {
    Date(DigitsValue(s[i..i + 4]), DigitsValue(s[i + 5..i + 7]), DigitsValue(s[i + 8..i + 10]))
  }

  /** `re.search`: the leftmost match at or after from. */
  function FindIso(s: string, from: nat): (r: Option<nat>)
    ensures r.Some? ==> from <= r.value && IsoMatchAt(s, r.value)
    ensures r.Some? ==> forall j :: from <= j < r.value ==> !IsoMatchAt(s, j)
    ensures r.None? ==> forall j :: from <= j ==> !IsoMatchAt(s, j)
    decreases |s| - from
  {
    if from + 10 > |s| then None
    else if IsoMatchAt(s, from) then Some(from)
    else FindIso(s, from + 1)
  }

  /** `parse_iso_date(s)`: the date of the first match anywhere in s, None when there is none or it is not a date. */
  function ParseIsoDate(s: string): (r: Option<ValidDate>)
    ensures (forall j :: 0 <= j ==> !IsoMatchAt(s, j)) ==> r.None?
    ensures forall i :: IsoMatchAt(s, i) && (forall j :: 0 <= j < i ==> !IsoMatchAt(s, j)) ==>
      (r.Some? <==> Valid(IsoFieldsAt(s, i))) && (r.Some? ==> r.value == IsoFieldsAt(s, i))
  {
    match FindIso(s, 0)
    case None => None
    case Some(i) =>
      assert forall k :: IsoMatchAt(s, k) && (forall j :: 0 <= j < k ==> !IsoMatchAt(s, j)) ==> k == i;
      var f := IsoFieldsAt(s, i);
      MakeDate(f.y, f.m, f.d)
  }

  /** `f"{y:04d}-{m:02d}-{d:02d}"` */
  function FormatIsoDate(dt: ValidDate): (r: string)
    ensures |r| == 10 && r[4] == '-' && r[7] == '-'
  {
    ZeroPadRoundTrip(dt.y, 4);
    ZeroPadRoundTrip(dt.m, 2);
    ZeroPadRoundTrip(dt.d, 2);
    ZeroPad(dt.y, 4) + "-" + ZeroPad(dt.m, 2) + "-" + ZeroPad(dt.d, 2)
  }

  lemma FormatIsoDateFields(dt: ValidDate)
    ensures IsoMatchAt(FormatIsoDate(dt), 0)
    ensures IsoFieldsAt(FormatIsoDate(dt), 0) == dt
    ensures FormatIsoDate(dt)[..4] == ZeroPad(dt.y, 4)
    ensures FormatIsoDate(dt)[5..7] == ZeroPad(dt.m, 2)
    ensures FormatIsoDate(dt)[8..] == ZeroPad(dt.d, 2)
  {
    ZeroPadRoundTrip(dt.y, 4);
    ZeroPadRoundTrip(dt.m, 2);
    ZeroPadRoundTrip(dt.d, 2);
    var s := FormatIsoDate(dt);
    assert s[..4] == ZeroPad(dt.y, 4);
    assert s[5..7] == ZeroPad(dt.m, 2);
    assert s[8..10] == ZeroPad(dt.d, 2);
  }

  /** Formatting a date as `YYYY-MM-DD` and parsing it back gives the same date. */
  lemma IsoRoundTrip(dt: ValidDate)
    ensures ParseIsoDate(FormatIsoDate(dt)) == Some(dt)
  {
    FormatIsoDateFields(dt);
  }
}

/**
  Reading the date pills of listing cards: `dd/mm/yy` style numbers or
  `<day> <Greek month word>`, and `start - end` ranges of such pieces.
*/
module GreekDates {
  import opened Wrappers
  import opened Calendar
  import opened Text

  /** The number of ASCII digits starting at i, at most max. */
  function DigitRun(s: string, i: nat, max: nat): (n: nat)
    requires i <= |s|
    ensures n <= max && i + n <= |s|
    ensures forall k :: i <= k < i + n ==> IsDigit(s[k])
    ensures n < max && i + n < |s| ==> !IsDigit(s[i + n])
    decreases max
  {
    if max == 0 || i == |s| || !IsDigit(s[i]) then 0 else 1 + DigitRun(s, i + 1, max - 1)
  }

  predicate NumSep(c: char) {
    c == '/' || c == '.' || c == '-'
  }

  /** `DATE_NUM = (\d{1,2})[/.-](\d{1,2})[/.-](\d{2,4})` matched at i, as its three numbers. */
  function NumMatchAt(s: string, i: nat): Option<(nat, nat, nat)>
    requires i <= |s|
  {
    var n1 := DigitRun(s, i, 2);
    if n1 == 0 || i + n1 == |s| || !NumSep(s[i + n1]) then None
    else
      var p2 := i + n1 + 1;
      var n2 := DigitRun(s, p2, 2);
      if n2 == 0 || p2 + n2 == |s| || !NumSep(s[p2 + n2]) then None
      else
        var p3 := p2 + n2 + 1;
        var n3 := DigitRun(s, p3, 4);
        if n3 < 2 then None
        else Some((DigitsValue(s[i..i + n1]), DigitsValue(s[p2..p2 + n2]), DigitsValue(s[p3..p3 + n3])))
  }

  predicate NumMatches(s: string, i: int) {
    0 <= i <= |s| && NumMatchAt(s, i).Some?
  }

  function FindNum(s: string, from: nat): (r: Option<nat>)
    ensures r.Some? ==> from <= r.value && NumMatches(s, r.value)
    ensures r.Some? ==> forall j :: from <= j < r.value ==> !NumMatches(s, j)
    ensures r.None? ==> forall j :: from <= j ==> !NumMatches(s, j)
    decreases |s| - from
  {
    if from > |s| then None
    else if NumMatchAt(s, from).Some? then Some(from)
    else FindNum(s, from + 1)
  }

  /** The characters of `[A-Za-zΆ-ώΰϊΐϋΫόάέήύώΊΎ\.]`: ASCII letters, U+0386..U+03CE and the dot. */
  predicate WordChar(c: char) {
    ('A' <= c <= 'Z') || ('a' <= c <= 'z') || ('\U{386}' <= c <= '\U{3CE}') || c == '.'
  }

  /** Length of the longest run from i of characters satisfying the class. */
  function SpaceRun(s: string, i: nat): (n: nat)
    requires i <= |s|
    ensures i + n <= |s|
    ensures forall k :: i <= k < i + n ==> IsSpace(s[k])
    ensures i + n < |s| ==> !IsSpace(s[i + n])
    decreases |s| - i
  {
    if i == |s| || !IsSpace(s[i]) then 0 else 1 + SpaceRun(s, i + 1)
  }

  function WordRun(s: string, i: nat): (n: nat)
    requires i <= |s|
    ensures i + n <= |s|
    ensures forall k :: i <= k < i + n ==> WordChar(s[k])
    ensures i + n < |s| ==> !WordChar(s[i + n])
    decreases |s| - i
  {
    if i == |s| || !WordChar(s[i]) then 0 else 1 + WordRun(s, i + 1)
  }

  /** `DATE_G_WORD = (\d{1,2})\s+([word chars]+)` matched at i, as the day and the month word. */
  function WordMatchAt(s: string, i: nat): Option<(nat, string)>
    requires i <= |s|
  {
    var n1 := DigitRun(s, i, 2);
    var p := i + n1;
    var w := SpaceRun(s, p);
    var q := p + w;
    var n2 := WordRun(s, q);
    if n1 == 0 || w == 0 || n2 == 0 then None
    else Some((DigitsValue(s[i..p]), s[q..q + n2]))
  }

  predicate WordMatches(s: string, i: int) {
    0 <= i <= |s| && WordMatchAt(s, i).Some?
  }

  function FindWord(s: string, from: nat): (r: Option<nat>)
    ensures r.Some? ==> from <= r.value && WordMatches(s, r.value)
    ensures r.Some? ==> forall j :: from <= j < r.value ==> !WordMatches(s, j)
    ensures r.None? ==> forall j :: from <= j ==> !WordMatches(s, j)
    decreases |s| - from
  {
    if from > |s| then None
    else if WordMatchAt(s, from).Some? then Some(from)
    else FindWord(s, from + 1)
  }

  /**
    The letter a character decomposes to under NFD once its combining marks
    (category Mn) are dropped; exact on the word-class characters.
  */
  function NfdBase(c: char): char {
    match c
    case '\U{386}' => '\U{391}'
    case '\U{387}' => '\U{B7}'
    case '\U{388}' => '\U{395}'
    case '\U{389}' => '\U{397}'
    case '\U{38A}' => '\U{399}'
    case '\U{38C}' => '\U{39F}'
    case '\U{38E}' => '\U{3A5}'
    case '\U{38F}' => '\U{3A9}'
    case '\U{390}' => '\U{3B9}'
    case '\U{3AA}' => '\U{399}'
    case '\U{3AB}' => '\U{3A5}'
    case '\U{3AC}' => '\U{3B1}'
    case '\U{3AD}' => '\U{3B5}'
    case '\U{3AE}' => '\U{3B7}'
    case '\U{3AF}' => '\U{3B9}'
    case '\U{3B0}' => '\U{3C5}'
    case '\U{3CA}' => '\U{3B9}'
    case '\U{3CB}' => '\U{3C5}'
    case '\U{3CC}' => '\U{3BF}'
    case '\U{3CD}' => '\U{3C5}'
    case '\U{3CE}' => '\U{3C9}'
    case _ => c
  }

  /** `_strip_accents(s)`: NFD, drop the combining marks, then `lower()`. */
  function StripAccents(s: string): (r: string)
    ensures |r| == |s|
    ensures forall i :: 0 <= i < |s| && NfdBase(s[i]) != '\U{3A3}' ==> r[i] == LowerChar(NfdBase(s[i]))
  {
    Lower(seq(|s|, i requires 0 <= i < |s| => NfdBase(s[i])))
  }

  function RemoveDots(s: string): (r: string)
    ensures '.' !in r
    ensures |r| <= |s|
  {
    if s == [] then [] else (if s[0] == '.' then [] else [s[0]]) + RemoveDots(s[1..])
  }

  /** `_strip_accents(word).replace(".", "")` */
  function MonthKey(word: string): string {
    RemoveDots(StripAccents(word))
  }

  /** After stripping accents no letter with dialytika remains. */
  lemma StripAccentsNoDialytika(s: string)
    ensures '\U{3CA}' !in StripAccents(s) && '\U{3CB}' !in StripAccents(s)
  {
    var t := seq(|s|, i requires 0 <= i < |s| => NfdBase(s[i]));
    var r := StripAccents(s);
    forall i | 0 <= i < |r|
      ensures r[i] != '\U{3CA}' && r[i] != '\U{3CB}'
    {
      assert t[i] == NfdBase(s[i]);
    }
  }

  /** A literal dict as its list of (key, value) entries; its keys are distinct. */
  type Table = seq<(string, int)>

  /** `table.get(key)` */
  function Lookup(t: Table, key: string): (r: Option<int>)
    ensures r.Some? <==> exists i :: 0 <= i < |t| && t[i].0 == key
    ensures r.Some? ==> exists i :: 0 <= i < |t| && t[i] == (key, r.value)
  {
    if t == [] then None
    else if t[0].0 == key then Some(t[0].1)
    else
      var r := Lookup(t[1..], key);
      assert forall i :: 1 <= i < |t| ==> t[i] == t[1..][i - 1];
      r
  }

  /** The first entry with the key decides the lookup. */
  lemma {:induction false} LookupAt(t: Table, key: string, i: int)
    requires 0 <= i < |t| && t[i].0 == key
    requires forall j :: 0 <= j < i ==> t[j].0 != key
    ensures Lookup(t, key) == Some(t[i].1)
  {
    if i > 0 {
      assert t[0].0 != key;
      LookupAt(t[1..], key, i - 1);
    }
  }

  predicate MonthValues(t: Table) {
    forall i :: 0 <= i < |t| ==> 1 <= t[i].1 <= 12
  }

  /** `G_MONTHS_FULL`: genitive and nominative month names, without accents. */
  const MonthsFull: Table := [
    ("ιανουαριου", 1), ("ιανουαριος", 1), ("φεβρουαριου", 2), ("φεβρουαριος", 2),
    ("μαρτιου", 3), ("μαρτιος", 3), ("απριλιου", 4), ("απριλιος", 4),
    ("μαιου", 5), ("μαϊου", 5), ("μαιος", 5), ("μαϊος", 5),
    ("ιουνιου", 6), ("ιουνιος", 6), ("ιουλιου", 7), ("ιουλιος", 7),
    ("αυγουστου", 8), ("αυγουστος", 8), ("σεπτεμβριου", 9), ("σεπτεμβριος", 9),
    ("οκτωβριου", 10), ("οκτωβριος", 10), ("νοεμβριου", 11), ("νοεμβριος", 11),
    ("δεκεμβριου", 12), ("δεκεμβριος", 12)]

  /** `G_MONTHS_ABBR`: the abbreviations the listing pages print. */
  const MonthsAbbr: Table := [
    ("ιαν", 1), ("φεβ", 2), ("μαρ", 3), ("απρ", 4), ("μαϊ", 5), ("μαι", 5), ("ιουν", 6),
    ("ιουλ", 7), ("αυγ", 8), ("σεπ", 9), ("οκτ", 10), ("νοε", 11), ("δεκ", 12)]

  /** `G_MONTHS_LABEL`: month number to its display name. */
  const MonthsLabel: map<int, string> := map[
    1 := "Ιανουαριος", 2 := "Φεβρουαριος", 3 := "Μαρτιος", 4 := "Απριλιος", 5 := "Μαιος",
    6 := "Ιουνιος", 7 := "Ιουλιος", 8 := "Αυγουστος", 9 := "Σεπτεμβριος", 10 := "Οκτωβριος",
    11 := "Νοεμβριος", 12 := "Δεκεμβριος"]

  /** Every entry of the two tables names a month 1..12, and every month has a label. */
  lemma MonthTablesInRange()
    ensures MonthValues(MonthsFull) && MonthValues(MonthsAbbr)
    ensures forall m :: 1 <= m <= 12 <==> m in MonthsLabel
  {
  }

  /** `G_MONTHS_ABBR.get(key) or G_MONTHS_FULL.get(key)`: always a month number. */
  function MonthOf(key: string): (r: Option<int>)
    ensures r.Some? ==> 1 <= r.value <= 12
    ensures Lookup(MonthsAbbr, key).Some? ==> r == Lookup(MonthsAbbr, key)
    ensures Lookup(MonthsAbbr, key).None? ==> r == Lookup(MonthsFull, key)
  {
    MonthTablesInRange();
    match Lookup(MonthsAbbr, key)
    case Some(mm) => Some(mm)
    case None => Lookup(MonthsFull, key)
  }

  lemma MonthKeyOfAbbreviation()
    ensures MonthKey("Οκτ.") == "οκτ"
  {
    var a := seq(4, i requires 0 <= i < 4 => NfdBase("Οκτ."[i]));
    assert a == "Οκτ.";
    assert StripAccents("Οκτ.") == "οκτ.";
    assert RemoveDots("οκτ.") == "οκτ" by {
      assert RemoveDots(".") == "";
    }
  }

  /**
    An accented, capitalised and dotted month word as the listing pages print
    it reads as its table key: "Οκτ." is October.
  */
  lemma AccentedMonthWord()
    ensures MonthKey("Οκτ.") == "οκτ" && MonthOf(MonthKey("Οκτ.")) == Some(10)
  {
    MonthKeyOfAbbreviation();
    LookupAt(MonthsAbbr, "οκτ", 10);
  }

  /** `parse_greek_date_piece(txt, fallback_year)` */
  function ParseGreekDatePiece(txt: string, fallbackYear: int): (r: Option<ValidDate>)
  {
    if txt == [] then None
    else match FindNum(txt, 0)
      case Some(i) => NumPiece(txt, i)
      case None => WordPiece(txt, fallbackYear)
  }

  /** The date of the numeric match at i, a two-digit year read as 20yy. */
  function NumPiece(txt: string, i: nat): Option<ValidDate>
    requires NumMatches(txt, i)
  {
    var g := NumMatchAt(txt, i).value;
    MakeDate(if g.2 < 100 then g.2 + 2000 else g.2, g.1, g.0)
  }

  /** The date of the first `<day> <word>` match, in fallback_year. */
  function WordPiece(txt: string, fallbackYear: int): Option<ValidDate> {
    match FindWord(txt, 0)
    case None => None
    case Some(i) =>
      var g := WordMatchAt(txt, i).value;
      match MonthOf(MonthKey(g.1))
      case None => None
      case Some(mm) => MakeDate(fallbackYear, mm, g.0)
  }

  /**
    The numeric pattern is tried first and decides alone when it matches:
    a two-digit year means 20yy, and an impossible date is None with no
    fallback to the month-word form.
  */
  lemma NumericPieceFirst(txt: string, fallbackYear: int, i: nat)
    requires NumMatches(txt, i) && forall j :: 0 <= j < i ==> !NumMatches(txt, j)
    ensures var g := NumMatchAt(txt, i).value;
      var year := if g.2 < 100 then g.2 + 2000 else g.2;
      (ParseGreekDatePiece(txt, fallbackYear).Some? <==> Valid(Date(year, g.1, g.0)))
      && (ParseGreekDatePiece(txt, fallbackYear).Some? ==> ParseGreekDatePiece(txt, fallbackYear).value == Date(year, g.1, g.0))
  {
    assert DigitRun(txt, i, 2) > 0;
    FindNumFirst(txt, i);
    PieceOfNumMatch(txt, fallbackYear, i);
  }

  lemma PieceOfNumMatch(txt: string, fallbackYear: int, i: nat)
    requires txt != [] && FindNum(txt, 0) == Some(i)
    ensures var g := NumMatchAt(txt, i).value;
      ParseGreekDatePiece(txt, fallbackYear) == MakeDate(if g.2 < 100 then g.2 + 2000 else g.2, g.1, g.0)
  {
  }

  /** The search returns the leftmost match. */
  lemma FindNumFirst(txt: string, i: nat)
    requires NumMatches(txt, i) && forall j :: 0 <= j < i ==> !NumMatches(txt, j)
    ensures FindNum(txt, 0) == Some(i)
  {
    var k := FindNum(txt, 0);
    if k.Some? {
      assert !(k.value < i) && !(i < k.value);
    }
  }

  lemma FindWordFirst(txt: string, i: nat)
    requires WordMatches(txt, i) && forall j :: 0 <= j < i ==> !WordMatches(txt, j)
    ensures FindWord(txt, 0) == Some(i)
  {
    var k := FindWord(txt, 0);
    if k.Some? {
      assert !(k.value < i) && !(i < k.value);
    }
  }

  /**
    Without a numeric match, the first `<day> <word>` match decides: its word's
    month key is looked up and the year is fallback_year; an unknown word is None.
  */
  lemma WordPieceSecond(txt: string, fallbackYear: int, i: nat)
    requires forall j :: 0 <= j ==> !NumMatches(txt, j)
    requires WordMatches(txt, i) && forall j :: 0 <= j < i ==> !WordMatches(txt, j)
    ensures var g := WordMatchAt(txt, i).value;
      var mm := MonthOf(MonthKey(g.1));
      (mm.None? ==> ParseGreekDatePiece(txt, fallbackYear).None?)
      && (mm.Some? ==> ParseGreekDatePiece(txt, fallbackYear) == MakeDate(fallbackYear, mm.value, g.0))
  {
    assert DigitRun(txt, i, 2) > 0;
    assert FindNum(txt, 0).None?;
    FindWordFirst(txt, i);
  }

  /** `[p.strip() for p in txt.split("-")]` */
  function DashPieces(txt: string): (parts: seq<string>)
    ensures |parts| == |Split(txt, '-')| && |parts| >= 1
  {
    var raw := Split(txt, '-');
    seq(|raw|, k requires 0 <= k < |raw| => Strip(raw[k]))
  }

  /** `parse_greek_date_or_range(txt, fallback_year)` */
  function ParseGreekDateOrRange(txt: string, fallbackYear: int): (r: (Option<ValidDate>, Option<ValidDate>))
    ensures txt == [] ==> r == (None, None)
    ensures r.0.Some? ==> r.1.Some?
  {
    if txt == [] then (None, None)
    else
      var parts := DashPieces(txt);
      if |parts| == 1 then
        var d := ParseGreekDatePiece(parts[0], fallbackYear);
        (d, d)
      else
        var start := ParseGreekDatePiece(parts[0], fallbackYear);
        var end := ParseGreekDatePiece(parts[|parts| - 1], fallbackYear);
        (start, if end.Some? then end else start)
  }

  /**
    A text without a dash is one piece: start and end are the same date.
    With dashes only the first and last pieces count: the end falls back to the
    start, and a failed first piece with a good last one gives (None, end).
  */
  lemma RangePieces(txt: string, fallbackYear: int)
    requires txt != []
    ensures var parts := DashPieces(txt); var r := ParseGreekDateOrRange(txt, fallbackYear);
      ('-' !in txt ==> r.0 == r.1 == ParseGreekDatePiece(Strip(txt), fallbackYear))
      && ('-' in txt ==>
            (r.0 == ParseGreekDatePiece(parts[0], fallbackYear)
             && r.1 == (if ParseGreekDatePiece(parts[|parts| - 1], fallbackYear).Some?
                        then ParseGreekDatePiece(parts[|parts| - 1], fallbackYear)
                        else ParseGreekDatePiece(parts[0], fallbackYear))))
  {
    if '-' !in txt {
      assert Split(txt, '-') == [txt];
    }
  }

  lemma NoDashInDigits(a: string)
    requires AllDigits(a)
    ensures '-' !in a
  {
    assert forall i :: 0 <= i < |a| ==> a[i] != '-';
  }

  lemma SplitDigitTriple(a: string, b: string, c: string)
    requires AllDigits(a) && AllDigits(b) && AllDigits(c)
    ensures Split(a + "-" + b + "-" + c, '-') == [a, b, c]
  {
    NoDashInDigits(a);
    NoDashInDigits(b);
    NoDashInDigits(c);
    assert a + "-" + b + "-" + c == a + ['-'] + (b + ['-'] + c);
    SplitConcat(a, '-', b + ['-'] + c);
    SplitConcat(b, '-', c);
  }

  /**
    A dash-separated numeric pill such as `16-10-2025` is split at its dashes
    before any pattern is tried, and no piece of digits matches either pattern:
    such a pill yields no dates although the numeric pattern accepts `-`.
  */
  lemma DashedNumericPill(a: string, b: string, c: string, fallbackYear: int)
    requires AllDigits(a) && AllDigits(b) && AllDigits(c)
    ensures ParseGreekDateOrRange(a + "-" + b + "-" + c, fallbackYear) == (None, None)
  {
    DashPiecesOfDigits(a, b, c);
    NoMatchInDigits(a, fallbackYear);
    NoMatchInDigits(c, fallbackYear);
    var txt := a + "-" + b + "-" + c;
    assert txt[|a|] == '-';
    RangePieces(txt, fallbackYear);
  }

  lemma DashPiecesOfDigits(a: string, b: string, c: string)
    requires AllDigits(a) && AllDigits(b) && AllDigits(c)
    ensures DashPieces(a + "-" + b + "-" + c) == [a, b, c]
  {
    var raw := Split(a + "-" + b + "-" + c, '-');
    SplitDigitTriple(a, b, c);
    forall k | 0 <= k < |raw|
      ensures Strip(raw[k]) == raw[k]
    {
      DigitsStrip(raw[k]);
    }
    DashPiecesUnstripped(a + "-" + b + "-" + c);
  }

  /** Pieces that carry no surrounding white space are the split itself. */
  lemma DashPiecesUnstripped(txt: string)
    requires forall k :: 0 <= k < |Split(txt, '-')| ==> Strip(Split(txt, '-')[k]) == Split(txt, '-')[k]
    ensures DashPieces(txt) == Split(txt, '-')
  {
  }

  /** A piece of digits only matches neither pattern. */
  lemma NoMatchInDigits(txt: string, fallbackYear: int)
    requires AllDigits(txt)
    ensures ParseGreekDatePiece(txt, fallbackYear).None?
  {
    forall j | 0 <= j <= |txt|
      ensures !NumMatches(txt, j) && !WordMatches(txt, j)
    {
      var n1 := DigitRun(txt, j, 2);
      if n1 > 0 && j + n1 < |txt| {
        assert IsDigit(txt[j + n1]);
      }
    }
    assert FindNum(txt, 0).None?;
    assert FindWord(txt, 0).None?;
  }

  /** The undotted abbreviation "Οκτ" is October too. */
  lemma OctoberWord()
    ensures MonthOf(MonthKey("Οκτ")) == Some(10)
  {
    var a := seq(3, i requires 0 <= i < 3 => NfdBase("Οκτ"[i]));
    assert a == "Οκτ";
    assert StripAccents("Οκτ") == "οκτ";
    assert RemoveDots("οκτ") == "οκτ";
    LookupAt(MonthsAbbr, "οκτ", 10);
  }

  /** A month word as the word pattern reads it: one or more word characters. */
  predicate MonthWordText(w: string) {
    w != [] && forall i :: 0 <= i < |w| ==> WordChar(w[i])
  }

  /** A run of word characters from i to the end is read whole. */
  lemma {:induction false} WordRunToEnd(s: string, i: nat)
    requires i <= |s| && forall k :: i <= k < |s| ==> WordChar(s[k])
    ensures WordRun(s, i) == |s| - i
    decreases |s| - i
  {
    if i < |s| {
      WordRunToEnd(s, i + 1);
    }
  }

  /** A `DD word` piece holds no match of the numeric pattern. */
  lemma DayWordNoNum(a: string, w: string)
    requires |a| == 2 && AllDigits(a) && MonthWordText(w)
    ensures forall j :: 0 <= j ==> !NumMatches(a + " " + w, j)
  {
    var txt := a + " " + w;
    forall j | 0 <= j
      ensures !NumMatches(txt, j)
    {
      if j <= |txt| {
        var n1 := DigitRun(txt, j, 2);
        if n1 > 0 && j + n1 < |txt| {
          assert j + n1 == 2;
        }
      }
    }
  }

  /** A `DD word` piece matches the word pattern at its start, as the day DD and the whole word. */
  lemma DayWordMatch(a: string, w: string)
    requires |a| == 2 && AllDigits(a) && MonthWordText(w)
    ensures WordMatchAt(a + " " + w, 0) == Some((DigitsValue(a), w))
  {
    var txt := a + " " + w;
    assert DigitRun(txt, 0, 2) == 2;
    assert SpaceRun(txt, 2) == 1;
    WordRunToEnd(txt, 3);
    assert txt[..2] == a && txt[3..3 + |w|] == w;
  }

  /** A `DD word` piece is the day DD of the word's month in the fallback year; an unknown word is None. */
  lemma DayWordPiece(a: string, w: string, fallbackYear: int)
    requires |a| == 2 && AllDigits(a) && MonthWordText(w)
    ensures var mm := MonthOf(MonthKey(w));
      ParseGreekDatePiece(a + " " + w, fallbackYear) == (if mm.Some? then MakeDate(fallbackYear, mm.value, DigitsValue(a)) else None)
  {
    DayWordNoNum(a, w);
    DayWordMatch(a, w);
    WordPieceSecond(a + " " + w, fallbackYear, 0);
  }

  /** A `DD word` piece has no dash and no blank at either end. */
  lemma DayWordClean(a: string, w: string)
    requires |a| == 2 && AllDigits(a) && MonthWordText(w)
    ensures var x := a + " " + w; !IsSpace(x[0]) && !IsSpace(x[|x| - 1]) && '-' !in x
  {
    var x := a + " " + w;
    forall k | 0 <= k < |x|
      ensures x[k] != '-'
    {
      if k >= 3 {
        assert x[k] == w[k - 3];
      }
    }
  }

  /** `x - y` with clean, dash-free x and y splits at its one dash into x and y. */
  lemma DashPair(x: string, y: string)
    requires x != [] && !IsSpace(x[0]) && !IsSpace(x[|x| - 1]) && '-' !in x
    requires y != [] && !IsSpace(y[0]) && !IsSpace(y[|y| - 1]) && '-' !in y
    ensures '-' in x + " - " + y && DashPieces(x + " - " + y) == [x, y]
  {
    RangeTextShape(x, y);
    DashPiecesTwo(x + " ", " " + y);
    StripPadded(x);
    StripPadded(y);
  }

  /** `x - y` is x and a blank, the dash, and a blank and y. */
  lemma RangeTextShape(x: string, y: string)
    ensures x + " - " + y == (x + " ") + ['-'] + (" " + y) && (x + " - " + y)[|x| + 1] == '-'
  {
  }

  /** A text with one dash has two pieces, each stripped. */
  lemma DashPiecesTwo(p: string, q: string)
    requires '-' !in p && '-' !in q
    ensures DashPieces(p + ['-'] + q) == [Strip(p), Strip(q)]
  {
    SplitConcat(p, '-', q);
  }

  /** `DD word - EE word` reads as (DD word, EE word), the end falling back to the start. */
  lemma DayWordRange(a: string, b: string, w: string, fallbackYear: int)
    requires |a| == 2 && AllDigits(a) && |b| == 2 && AllDigits(b) && MonthWordText(w)
    ensures var s, e := ParseGreekDatePiece(a + " " + w, fallbackYear), ParseGreekDatePiece(b + " " + w, fallbackYear);
      ParseGreekDateOrRange((a + " " + w) + " - " + (b + " " + w), fallbackYear) == (s, if e.Some? then e else s)
  {
    DayWordClean(a, w);
    DayWordClean(b, w);
    DashPair(a + " " + w, b + " " + w);
    RangePieces((a + " " + w) + " - " + (b + " " + w), fallbackYear);
  }

  /**
    A pill `DD Οκτ - EE Οκτ` as the listing pages print a range is read as
    (DD October, EE October) of the fallback year, the end falling back to the
    start when EE is no day of October.
  */
  lemma OctoberRange(a: string, b: string, fallbackYear: int)
    requires |a| == 2 && AllDigits(a) && |b| == 2 && AllDigits(b)
    ensures var s, e := MakeDate(fallbackYear, 10, DigitsValue(a)), MakeDate(fallbackYear, 10, DigitsValue(b));
      ParseGreekDateOrRange(a + " Οκτ - " + b + " Οκτ", fallbackYear) == (s, if e.Some? then e else s)
  {
    var w := "Οκτ";
    assert MonthWordText(w);
    assert a + " Οκτ - " + b + " Οκτ" == (a + " " + w) + " - " + (b + " " + w);
    OctoberWord();
    DayWordRange(a, b, w, fallbackYear);
    DayWordPiece(a, w, fallbackYear);
    DayWordPiece(b, w, fallbackYear);
  }
}

/** An event's start date as the bucketer reads it: a local wall-clock date-time. */
module EventTime {
  import opened Wrappers
  import opened Calendar
  import opened Text
  import opened Events
  import opened TimeUtils

  type Micros = m: int | 0 <= m < 86400000000

  /** A local wall-clock `datetime` in the events' time zone: its date and the microseconds since midnight. */
  datatype LocalDateTime = LocalDateTime(date: ValidDate, time: Micros)

  /** The position of a local date-time on the time line, in microseconds. */
  function Instant(t: LocalDateTime): int {
    Ordinal(t.date) * 86400000000 + t.time
  }

  /** `datetime.max`: 9999-12-31 23:59:59.999999, later than every other date-time. */
  const MaxDateTime: LocalDateTime := LocalDateTime(Date(9999, 12, 31), 86399999999)

  lemma MaxDateTimeIsLatest(t: LocalDateTime)
    ensures Instant(t) <= Instant(MaxDateTime)
  {
    LastValidDate(t.date);
  }

  /** 9999-12-31 is the last date Python can represent. */
  lemma LastValidDate(d: ValidDate)
    ensures Ordinal(d) <= Ordinal(Date(9999, 12, 31))
  {
    var last: CalDate := Date(9999, 12, 31);
    DayOfYearBounds(d);
    DayOfYearBounds(last);
    MonthStep(9999, 12);
    if d.y < 9999 {
      YearStep(d.y);
      YearMonotone(d.y + 1, 9999);
    }
  }

  /** Reads a date-time string that is not a bare date: `fromisoformat` with the zone conversion. */
  type DateTimeParser = string -> Option<LocalDateTime>

  /** `datetime.fromisoformat` on a 10-character `YYYY-MM-DD` string. */
  function DateOnly(s: string): (r: Option<ValidDate>)
    requires |s| == 10
    ensures r.Some? <==> AllDigits(s[..4]) && AllDigits(s[5..7]) && AllDigits(s[8..])
                         && Valid(Date(DigitsValue(s[..4]), DigitsValue(s[5..7]), DigitsValue(s[8..])))
    ensures r.Some? ==> r.value == Date(DigitsValue(s[..4]), DigitsValue(s[5..7]), DigitsValue(s[8..]))
  {
    if AllDigits(s[..4]) && AllDigits(s[5..7]) && AllDigits(s[8..]) then
      MakeDate(DigitsValue(s[..4]), DigitsValue(s[5..7]), DigitsValue(s[8..]))
    else None
  }

  predicate DateOnlyShape(s: string) {
    |s| == 10 && s[4] == '-' && s[7] == '-'
  }

  /**
    `parse_event_dt(ev)`: None for a missing, empty or blank start date (the
    stripped text is then "", which `fromisoformat` rejects); a stripped
    `YYYY-MM-DD` string is local midnight of that date, or None when it is not one;
    any other string goes to the date-time parser.
  */
  function ParseEventDt(ev: Event, parse: DateTimeParser): (r: Option<LocalDateTime>)
    ensures !Truthy(ev.startDate) ==> r.None?
    ensures Truthy(ev.startDate) && Strip(ev.startDate.value) == "" ==> r.None?
    ensures Truthy(ev.startDate) && DateOnlyShape(Strip(ev.startDate.value)) ==>
      (r.Some? <==> DateOnly(Strip(ev.startDate.value)).Some?)
      && (r.Some? ==> r.value == LocalDateTime(DateOnly(Strip(ev.startDate.value)).value, 0))
  {
    if !Truthy(ev.startDate) then None
    else
      var s := Strip(ev.startDate.value);
      if DateOnlyShape(s) then
        match DateOnly(s)
        case None => None
        case Some(d) => Some(LocalDateTime(d, 0))
      else if s == "" then None
      else parse(s)
  }

  /** How an event's start is read: `parse_event_dt` is `StartOf(parse)`. */
  type StartReader = Event -> Option<LocalDateTime>

  function StartOf(parse: DateTimeParser): (r: StartReader)
    ensures forall ev: Event :: !Truthy(ev.startDate) ==> r(ev).None?
    ensures forall ev: Event :: Truthy(ev.startDate) && Strip(ev.startDate.value) == "" ==> r(ev).None?
  {
    ev => ParseEventDt(ev, parse)
  }

  /** The text of a formatted date has the date-only shape and reads back as that date. */
  lemma DateOnlyOfFormat(dt: ValidDate)
    ensures Strip(FormatIsoDate(dt)) == FormatIsoDate(dt)
    ensures DateOnlyShape(FormatIsoDate(dt))
    ensures DateOnly(FormatIsoDate(dt)) == Some(dt)
  {
    var s := FormatIsoDate(dt);
    FormatIsoDateFields(dt);
    assert s[..4] == s[0..4];
    assert s[8..] == s[8..10];
    assert IsDigit(s[0]) && IsDigit(s[9]);
    StripClean(s);
  }

  lemma ParseEventDtDateOnly(ev: Event, parse: DateTimeParser, s: string, dt: ValidDate)
    requires ev.startDate == Some(s) && s != []
    requires Strip(s) == s && DateOnlyShape(s) && DateOnly(s) == Some(dt)
    ensures ParseEventDt(ev, parse) == Some(LocalDateTime(dt, 0))
  {
  }

  /** The `YYYY-MM-DD` text the scraper stores reads back as local midnight of the same date. */
  lemma ParseEventDtOfIsoDate(ev: Event, parse: DateTimeParser, dt: ValidDate)
    requires ev.startDate == Some(FormatIsoDate(dt))
    ensures ParseEventDt(ev, parse) == Some(LocalDateTime(dt, 0))
  {
    DateOnlyOfFormat(dt);
    ParseEventDtDateOnly(ev, parse, FormatIsoDate(dt), dt);
  }
}
