# NeverMiss core, modelled in Dafny

NeverMiss gathers music and culture events from the more.com listings for a Greek region. It buckets them into "this week", "this weekend", "next week" and "coming soon" for a newsletter. It also files per-user suggestions on a weekly, biweekly or monthly cadence, and derives a user's taste profile from their Spotify top artists. This project models the deterministic core of that pipeline and proves what it promises.

The model covers these parts of the system:

- **Date normaliser and window helpers.** A `YYYY[-/]MM[-/]DD` date found anywhere in a string, and Greek "pill" dates: `D/M/Y`, or `<day> <month word>` matched against the abbreviation and full-name tables after accent stripping. Also dash-separated ranges, the inclusive overlap test, the `range_bounds` window, the week anchors, `month_bounds`, `daterange`, and the date-only branch of `parse_event_dt`.
  - Python's proleptic Gregorian `date` is modelled as `(y, m, d)` with `toordinal`/`fromordinal`.
  - `isocalendar` follows the ISO week date of section 4.1.4 of ISO 8601:2004.
  - The regular expressions become deterministic scanners.
- **Ingestion filter.** The per-card pipeline of the listing scraper:
  - drop hidden cards and cards without a url;
  - prefer the ISO date over the pill;
  - apply the optional region filter and the overlap filter;
  - clamp a representative date into the window.
  - Across pages it de-duplicates by url and sorts.
  - The command-line gatherer's copy of the pipeline, its request blocker, its table cell truncation and the stopping rule of its lazy scroll are modelled as well.
- **Calendar bucketer.** Used both by the suggestion helper and by the newsletter. It is first-match classification into four windows, with the Friday rule and a stable sort per bucket. The rendered sections of the newsletter, the location line and the "Date TBA" case of an event card are modelled too.
- **Suggestion job.**
  - the period key (ISO week, fortnight bucket or month);
  - the cadence test;
  - the attempt bound of `_with_retries`;
  - per user: the frequency normalisation, the skips, the payload and the three counters of `_run_for_users`;
  - the once-per-UTC-day snapshot test and the snapshot row.
- **Tastes.**
  - the genre ranking by count, then by name;
  - the names of the ordered artists;
  - the argument checks of the top-artists request;
  - the ranked artist rows;
  - the normalised genre histogram (`Counter.most_common`);
  - the CSV file names;
  - the display-name fallback.
- **Location table.** Region labels and the site's codes.

Python library behaviour that the core relies on is modelled in its own modules:

- `Calendar`: `date`, `toordinal`, `weekday`, `isocalendar` and `gmtime`.
- `Text`: `strip`, `split`, `in`, `lower`, `str`, `f"{n:02d}"` and string order.
- `Sorting`: `sorted` and `list.sort`, a stable sort by a key.
- `Counter`: `collections.Counter`, its `items()` and `most_common`.

Clocks, the network, the browser page, the database and the recommender enter as parameters:

- `now` instants and timestamps;
- page chains and card lists;
- `Observer` readings of the scrolled page;
- the per-user build and insert outcomes (`UserRow.build`, `UserRow.insert`);
- `PillReader`, which reads the date from a pill;
- `DateTimeParser`, which reads every stripped, non-blank start date that is not a bare `YYYY-MM-DD`: a naive date-time (taken as local time), a date-time with a `Z` or an offset (converted to local time), or text `fromisoformat` rejects (which must give None).

## Model

| member | source | states |
|---|---|---|
| TimeUtils.DateRange | src/utils/time_utils.py:39-42 | the list has (end - start) + 1 days, exactly the days from start to end, strictly increasing from start to end; empty when end < start |
| TimeUtils.StartOfWeek | src/utils/time_utils.py:45-47 | the result is a Monday at most six days before d |
| TimeUtils.StartOfWeekUnique | src/utils/time_utils.py:45-47 | no other Monday lies within the six days before d |
| TimeUtils.EndOfWeek | src/cli/utils/time_utils.py:50-52 | a Sunday, d's Monday + 6, between d and d + 6 |
| TimeUtils.WeekContains | src/cli/utils/time_utils.py:45-52 | d lies between its Monday and its Sunday, and every day of that week has the same Monday |
| TimeUtils.NextMonday | src/utils/time_utils.py:55-56 | a Monday, d's Monday + 7, within the seven days after d |
| TimeUtils.NextSunday | src/utils/time_utils.py:59-60 | a Sunday, d's Sunday + 7, between d + 7 and d + 13 |
| TimeUtils.UpcomingWeekendBounds | src/utils/time_utils.py:63-68 | a Friday, d's Monday + 4, and a Sunday, d's Sunday |
| TimeUtils.MonthBounds | src/cli/utils/time_utils.py:85-88 | None exactly where `datetime` raises (month outside 1..12, year outside 1..9999, December 9999); otherwise day 1 and the last day of month m |
| TimeUtils.MonthEnd | src/cli/utils/time_utils.py:87 | the day before the first of the next month (via y + 1 for December) is the last day of month m |
| TimeUtils.RangeBounds | src/utils/time_utils.py:91-94 | a is start_d and b is a + max(1, days) - 1 days, so a <= b |
| TimeUtils.RangeBoundsLength | src/utils/time_utils.py:91-94 | the window holds exactly max(1, days) days; days <= 0 gives the single day start_d |
| TimeUtils.OverlapsRangeOrdinal | src/utils/time_utils.py:159-164 | false when both ends are missing; otherwise a missing end is taken from the other, and the result holds iff start <= b and end >= a |
| TimeUtils.OverlapsMeansSharedDay | src/utils/time_utils.py:159-164 | for start <= end, overlapping is equivalent to sharing a day with [a, b] |
| TimeUtils.FindIso | src/utils/time_utils.py:167 | `re.search`: the leftmost match at or after the start position, None when there is none |
| TimeUtils.ParseIsoDate | src/utils/time_utils.py:166-173 | the date of the leftmost `YYYY[-/]MM[-/]DD` match; None when there is no match or the fields are no date |
| TimeUtils.FormatIsoDate | src/web/events/event_gatherer.py:179 | ten characters with dashes at positions 4 and 7 |
| TimeUtils.FormatIsoDateFields | src/web/events/event_gatherer.py:179 | the text is the year, month and day zero-padded to 4, 2 and 2 digits, and matches the ISO pattern at 0 with exactly those fields |
| TimeUtils.IsoRoundTrip | src/utils/time_utils.py:166-173 | parsing the `YYYY-MM-DD` text of any valid date gives back that date |
| GreekDates.StripAccents | src/utils/time_utils.py:118-119 | one character per character; each, capital sigma aside, is its unaccented base letter, lower-cased |
| GreekDates.AccentedMonthWord | src/utils/time_utils.py:139-140 | a capitalised, dotted word as the pages print it, "Οκτ.", becomes the key "οκτ" and reads as October |
| GreekDates.OctoberWord | src/utils/time_utils.py:139-140 | the undotted abbreviation "Οκτ" also reads as October |
| GreekDates.StripAccentsNoDialytika | src/utils/time_utils.py:118-119 | no letter with a diaeresis survives stripping, so the "μαϊ…" keys can never be looked up |
| GreekDates.MonthTablesInRange | src/utils/time_utils.py:97-116 | every key of the full-name and abbreviation tables maps to a month in 1..12, and every month has a label |
| GreekDates.MonthOf | src/utils/time_utils.py:140 | abbreviation table first, full-name table second; the result is a month in 1..12 |
| GreekDates.FindNum | src/utils/time_utils.py:121 | `DATE_NUM.search`: the leftmost match at or after the start position, None when there is none |
| GreekDates.FindNumFirst | src/utils/time_utils.py:127 | the `D/M/Y` search returns the leftmost match |
| GreekDates.FindWord | src/utils/time_utils.py:122 | `DATE_G_WORD.search`: the leftmost match at or after the start position, None when there is none |
| GreekDates.FindWordFirst | src/utils/time_utils.py:135 | the `<day> <word>` search returns the leftmost match |
| GreekDates.NumericPieceFirst | src/cli/utils/time_utils.py:127-134 | a numeric match decides alone: a two-digit year is 2000 + yy, and an impossible date gives None with no fallback to the word form |
| GreekDates.WordPieceSecond | src/utils/time_utils.py:135-146 | without a numeric match, the first word match is stripped, its dots are removed and it is looked up; the year is fallback_year; an unknown word gives None |
| GreekDates.WordRunToEnd | src/utils/time_utils.py:122 | a run of month-word characters reaching the end of the text is matched whole |
| GreekDates.DayWordNoNum | src/utils/time_utils.py:121-127 | a `DD word` piece (two digits, a blank, word characters) holds no numeric match anywhere |
| GreekDates.DayWordMatch | src/utils/time_utils.py:122-135 | a `DD word` piece matches the word pattern at its start with the day DD and the whole word as groups |
| GreekDates.DayWordPiece | src/utils/time_utils.py:124-146 | a `DD word` piece is day DD of the word's month in fallback_year, or None when the word is no month or the day does not exist |
| GreekDates.DashPieces | src/utils/time_utils.py:151 | one piece per dash-separated part, so at least one |
| GreekDates.DashPiecesUnstripped | src/utils/time_utils.py:151 | parts with no surrounding whitespace are the pieces themselves |
| GreekDates.ParseGreekDateOrRange | src/utils/time_utils.py:148-157 | (None, None) for empty text, and a known start always comes with a known end |
| GreekDates.RangePieces | src/cli/utils/time_utils.py:148-157 | without a dash both ends are the date of the stripped text; with dashes the start is the first piece's date and the end the last piece's, or else the start, so a failed first piece and a good last one give (None, end) |
| GreekDates.DashedNumericPill | src/cli/utils/time_utils.py:148-157 | a pill such as `16-10-2025` is split at its dashes first and yields (None, None) |
| GreekDates.DayWordClean | src/utils/time_utils.py:150 | a `DD word` piece has no dash and no blank at either end, so splitting and stripping leave it whole |
| GreekDates.DashPiecesTwo | src/utils/time_utils.py:150 | a text with exactly one dash gives two pieces, the stripped text on either side |
| GreekDates.DashPair | src/utils/time_utils.py:150 | `x - y` with clean, dash-free x and y gives the pieces [x, y] |
| GreekDates.DayWordRange | src/utils/time_utils.py:148-157 | `DD word - EE word` is read as the two pieces' dates, the end falling back to the start |
| GreekDates.OctoberRange | src/utils/time_utils.py:148-157 | the pill `DD Οκτ - EE Οκτ` is (DD October, EE October) of fallback_year, the end falling back to the start when EE is no day of October |
| GreekDates.NoMatchInDigits | src/cli/utils/time_utils.py:121-122 | a piece made only of digits matches neither pattern |
| EventTime.DateOnly | src/utils/time_utils.py:24-25 | a 10-character `YYYY-MM-DD` string becomes that date at midnight, or None when it is not a valid date |
| EventTime.ParseEventDt | src/cli/utils/time_utils.py:7-37 | None for a missing or empty start date, and for one of only whitespace, whose stripped text `fromisoformat` rejects; a stripped date-only string is local midnight of its date, or None when it is not a valid date |
| EventTime.DateOnlyOfFormat | src/utils/time_utils.py:24 | the formatted text of a date has the date-only shape and reads back as that date |
| EventTime.ParseEventDtOfIsoDate | src/utils/time_utils.py:20-25 | the `YYYY-MM-DD` start date the scraper stores reads back as local midnight of the same day |
| EventTime.LastValidDate | src/web/utils/suggestion_utils.py:53 | no valid date is later than 9999-12-31, the date of `datetime.max` |
| EventTime.MaxDateTimeIsLatest | src/web/utils/suggestion_utils.py:53 | no representable local date-time is later than `datetime.max` |
| Calendar.MakeDate | src/utils/time_utils.py:131-134 | `datetime(y, m, d)` is Some exactly for a valid date in years 1..9999, with those fields |
| Calendar.WeekdayFacts | src/utils/time_utils.py:47 | the weekday is 0..6 and repeats every seven days; n - weekday(n) + k has weekday k mod 7 |
| Calendar.MondayUnique | src/utils/time_utils.py:45-47 | two Mondays less than seven days apart are the same day |
| Calendar.FromOrdinal | src/utils/time_utils.py:42 | `date.fromordinal(n)` is a valid date whose ordinal is n |
| Calendar.FromOrdinalOrdinal | src/utils/time_utils.py:41-42 | `fromordinal(toordinal(d)) == d` for every valid date |
| Calendar.OrdinalInjective | src/utils/time_utils.py:164 | two valid dates are equal iff their ordinals are |
| Calendar.DateLeOrdinal | src/utils/time_utils.py:164 | comparing dates field by field agrees with comparing their ordinals |
| Calendar.AddDays | src/utils/time_utils.py:42 | `d + timedelta(days=k)` is the date whose ordinal is k more |
| Calendar.AddDaysIs | src/utils/time_utils.py:52 | the date k days after d is the unique one whose ordinal is k more |
| Calendar.IsoCalendarSpec | src/web/jobs/generate_suggestions.py:19 | the date lies in its ISO year, between that year's week-1 Monday (the Monday of the week holding January 4) and the next one; week 1..53 and weekday 1..7 count from that Monday; the ISO year is within one of the calendar year |
| Calendar.IsoYearLength | src/web/jobs/generate_suggestions.py:23 | an ISO year has 52 or 53 weeks |
| Calendar.IsoWeek1MondayFacts | src/web/jobs/generate_suggestions.py:19 | week 1 starts on a Monday at most three days from January 1 |
| Calendar.EpochDay | src/web/jobs/gather_events.py:17 | the UTC calendar date `days` days after 1970-01-01 |
| Text.StripSpec | src/utils/time_utils.py:151 | `strip()` removes whitespace only, only at both ends, and leaves none there |
| Text.StripClean | src/utils/time_utils.py:20 | a string with no whitespace at either end is its own strip |
| Text.StripPadded | src/utils/time_utils.py:150 | one blank before or after a clean text is stripped away |
| Text.DigitsStrip | src/cli/utils/time_utils.py:151 | a string of digits is its own strip |
| Text.Split | src/utils/time_utils.py:151 | `split(c)` gives at least one piece, none holding c, whose join with c is the string; one piece exactly when c does not occur |
| Text.SplitAt | src/utils/time_utils.py:151 | splitting at the first c gives the piece before it, then the split of the rest |
| Text.ContainsSpec | src/cli/event_gatherer.py:28 | `t in s` holds iff t occurs at some position of s |
| Text.StrLeTotal | src/web/utils/tastes.py:30 | Python string order is total |
| Text.StrLeTransitive | src/web/utils/tastes.py:30 | Python string order is transitive |
| Text.StrLeAntisymmetric | src/web/utils/tastes.py:30 | two strings ordered both ways are equal |
| Text.Lower | src/web/jobs/generate_suggestions.py:75 | `lower()` keeps the length, maps each character to its small letter, and a capital sigma to final sigma exactly at the end of a word |
| Text.ZeroPad | src/web/jobs/generate_suggestions.py:20 | `f"{n:0{w}d}"` is a non-empty string of at least w digits |
| Text.ZeroPadRoundTrip | src/web/events/event_gatherer.py:179 | the padded text reads back as n, and has exactly w digits when n < 10^w |
| Text.NatToString | src/web/jobs/generate_suggestions.py:26 | `str(n)` for n >= 0 is a non-empty string of digits |
| Text.IntToStringSign | src/web/jobs/generate_suggestions.py:20 | `str(n)` starts with "-" exactly when n < 0 |
| Text.IntToStringInjective | src/web/jobs/generate_suggestions.py:20 | distinct integers have distinct `str` |
| Events.OrEmpty | src/web/jobs/generate_suggestions.py:85 | `s or ""` is the value when it is present and "" otherwise |
| Ingestion.CollapseShape | src/web/events/event_gatherer.py:59 | collapsing whitespace runs keeps every visible character in order and starts with a space exactly when s does |
| Ingestion.CleanTextSpec | src/web/events/event_gatherer.py:58-59 | the result keeps the visible characters of the input in order, holds no whitespace but single spaces, and none at its ends |
| Ingestion.CleanTextIdempotent | src/web/events/event_gatherer.py:58-59 | cleaning a cleaned text changes nothing |
| Ingestion.IsoPreferred | src/web/events/event_gatherer.py:157-160 | a card whose ISO date parses has that date as both start and end, whatever its pill says |
| Ingestion.PillFallback | src/web/events/event_gatherer.py:161-163 | a missing, empty or unparsable ISO date counts for nothing; the pill, read with fallback_year = range_a.year, decides |
| Ingestion.GreekPillCard | src/web/events/event_gatherer.py:144-191 | with `parse_greek_date_or_range` as the reader and range_a's year as fallback, a visible card with a url, no ISO date and the pill `DD Οκτ - EE Οκτ` (such as `16 Οκτ - 18 Οκτ`) survives and is stored under DD October of that year when that day lies in the window |
| Ingestion.Representative | src/web/events/event_gatherer.py:175-181 | there is a representative date exactly when a start or an end is known |
| Ingestion.RepresentativeInWindow | src/web/events/event_gatherer.py:172-181 | after the overlap test over a window with a <= b, the date exists and lies in the window; the reset and the None branch are unreachable |
| Ingestion.IngestCardSpec | src/web/events/event_gatherer.py:146-191 | a card survives iff it is visible, has a url, passes the exact stripped region filter and overlaps the window; the survivor keeps url, venue, city, region and image, has "(untitled)" for an empty title and a start date in the window |
| Ingestion.IsoDateKept | src/web/events/event_gatherer.py:157-179 | a visible card whose ISO date is in the window is stored under that very date |
| Ingestion.StoredDateReadsBack | src/web/events/event_gatherer.py:179 | the stored start date reads back, through `parse_event_dt`, as local midnight of the representative day |
| Ingestion.IngestOne | src/web/events/event_gatherer.py:147-191 | the loop body for one card: each `continue` is None, otherwise the event above |
| Ingestion.CollectEventsFromSoup | src/web/events/event_gatherer.py:133-194 | the loop appends exactly the survivors, in card order |
| Ingestion.Collected | src/web/events/event_gatherer.py:146-191 | no more events than cards |
| Ingestion.CollectedConcat | src/web/events/event_gatherer.py:146-191 | the survivors of two runs of cards are those of the first followed by those of the second |
| Ingestion.CollectedWellFormed | src/web/events/event_gatherer.py:183-191 | every event of a page has a url, a non-empty title, the required region and a start date in the window |
| Ingestion.Fresh | src/web/events/event_gatherer.py:239 | never more events than it is given |
| Ingestion.AddUrls | src/web/events/event_gatherer.py:240-241 | the seen set grows by exactly the urls of the fresh events |
| Ingestion.GatheredStep | src/web/events/event_gatherer.py:239-242 | reading one more page appends its events whose url none of the earlier pages gave |
| Ingestion.WithUrlFresh | src/web/events/event_gatherer.py:239 | the fresh events with url u: none when u was seen, all of them, repeats included, otherwise |
| Ingestion.GatheredAbsent | src/web/events/event_gatherer.py:222-247 | pages that never show url u contribute no event with url u |
| Ingestion.GatheredByUrl | src/web/events/event_gatherer.py:222-247 | the gathered events with url u are exactly those of the first page that shows u; later pages add none, repeats within that page are all kept |
| Ingestion.Visited | src/web/events/event_gatherer.py:217-222 | the loop reads the whole chain of pages, but at most 30 |
| Ingestion.ScrapeMore | src/web/events/event_gatherer.py:196-252 | the result is the de-duplicated events of the first min(30, chain) pages over `range_bounds(start_d, days)`, sorted by (start date or "9999-99-99", title) |
| Ingestion.KeyLeTotal | src/web/events/event_gatherer.py:249 | the sort key order is total and transitive |
| Ingestion.ScrapeSorted | src/web/events/event_gatherer.py:249 | the result is sorted, a permutation of the gathered events, and stable on equal keys |
| CliGatherer.CliOne | src/cli/event_gatherer.py:222-249 | the loop body for one card; the pill branch raises NameError |
| CliGatherer.CollectEvents | src/cli/event_gatherer.py:218-251 | the events collected card by card, or the NameError of the first card that reaches the pill fallback |
| CliGatherer.CliCardMatchesWeb | src/cli/event_gatherer.py:221-249 | a card that never reaches the pill fallback is treated exactly as the listing scraper treats it |
| CliGatherer.CliCardRaises | src/cli/event_gatherer.py:232-233 | a card raises iff it is visible, has a url and has no parsable ISO date, and then the error is NameError for `y` |
| CliGatherer.CliStep | src/cli/event_gatherer.py:221-249 | the outcome after one more card, from the outcome before it |
| CliGatherer.CliErrorSticks | src/cli/event_gatherer.py:221-249 | once raised, later cards change nothing |
| CliGatherer.CliRaisesIff | src/cli/event_gatherer.py:218-251 | `collect_events` raises iff some visible card with a url has no parsable ISO date |
| CliGatherer.CliAgreesWithWeb | src/cli/event_gatherer.py:218-251 | when no card reaches the fallback, the command-line pipeline yields the listing scraper's events |
| CliGatherer.CliNameError | src/cli/event_gatherer.py:233 | a listing with one visible card that has a url and only a pill date raises |
| CliGatherer.AnyInSpec | src/cli/event_gatherer.py:28 | `any(s in url for s in subs)` holds iff some substring occurs in url |
| CliGatherer.ShouldBlockSpec | src/cli/event_gatherer.py:18-30 | true iff the resource type is image, media or font, or a tracker name occurs in the lower-cased url |
| CliGatherer.PyPrefix | src/cli/event_gatherer.py:327 | `s[:k]` with Python's negative and oversize k |
| CliGatherer.ReplaceNewlines | src/cli/event_gatherer.py:326 | same length, newlines become spaces, nothing else changes |
| CliGatherer.TruncSpec | src/cli/event_gatherer.py:325-327 | for n >= 1 the cell is at most n long: a fitting text is kept whole, a longer one is its first n - 1 characters and "…"; no newline remains |
| CliGatherer.StableAtSpec | src/cli/event_gatherer.py:107-110 | `stable` is at least k after round r iff the k rounds ending at r each repeat the previous count and height, with count > 0 |
| CliGatherer.RunsForEarlierRound | src/cli/event_gatherer.py:111-112 | every round before the last fell short of stable_rounds |
| CliGatherer.RunsForUnique | src/cli/event_gatherer.py:101-112 | the stopping rule fixes the number of rounds |
| CliGatherer.FastLazyScroll | src/cli/event_gatherer.py:95-113 | at most max_rounds rounds; no round before the last reaches stable_rounds, and it stops early only on one that does; the logged count is that of the last round that did not stop, -1 when none |
| CliGatherer.UnchangingPage | src/cli/event_gatherer.py:107-108 | on an unchanging page with cards, `stable` counts the rounds since the first |
| CliGatherer.DefaultsStopAfterFour | src/cli/event_gatherer.py:95-113 | with 50 rounds and 3 stable rounds, an unchanging page with cards stops after four rounds |
| Bucketer.ClassifyWindows | src/web/utils/suggestion_utils.py:15-51 | this week is [max(today, Monday), Thursday] except on Fridays; this weekend is Monday + 4..6; next week is Monday + 7..13; coming soon is Monday + 14..today + 30 |
| Bucketer.ClassifyTiles | src/web/utils/suggestion_utils.py:15-51 | every day from today to today + 30 lands in some bucket |
| Bucketer.ClassifyBeyond | src/web/utils/suggestion_utils.py:49-51 | days after today + 30 are dropped |
| Bucketer.ClassifyPast | src/web/utils/suggestion_utils.py:35-51 | a day before today is kept only in this week's Friday..Sunday, as "this weekend" |
| Bucketer.ThisWeekFromFriday | src/web/utils/suggestion_utils.py:35-39 | from Friday to Sunday nothing is "this week"; on a Friday an event of that day is "this weekend" |
| Bucketer.Select | src/web/utils/suggestion_utils.py:29-51 | at most as many events as the input |
| Bucketer.SelectSnoc | src/web/utils/suggestion_utils.py:29-51 | one more event at the end of the input is appended to its own bucket and to no other |
| Bucketer.SelectComplete | src/web/utils/suggestion_utils.py:29-51 | every event in the input is selected into its own bucket |
| Bucketer.SelectCount | src/web/utils/suggestion_utils.py:29-51 | the selection holds each event of that bucket as often as the input does, and no other |
| Bucketer.SelectPartition | src/web/utils/suggestion_utils.py:29-51 | the four buckets and the dropped events together are the input, counted with multiplicity, so no event is in two buckets |
| Bucketer.ByStartTotal | src/web/utils/suggestion_utils.py:53-55 | ordering by start is total and transitive |
| Bucketer.UndatedSortsLast | src/web/utils/suggestion_utils.py:53 | an undated event, keyed by `datetime.max`, sorts after every other |
| Bucketer.BucketEvents | src/web/utils/suggestion_utils.py:7-62 | each bucket is the stably sorted selection of its window, with all four buckets present; the newsletter's `bucket_events` (src/web/events/generate_newsletter.py:30-99) has the same windows, order and Friday rule, so this one model serves both |
| Bucketer.BucketSortedStable | src/web/utils/suggestion_utils.py:53-55 | each bucket is sorted by start and keeps the input order of equal starts |
| Bucketer.BucketMembers | src/web/utils/suggestion_utils.py:29-55 | bucket k holds an event as often as the input when its start day is in window k, and not at all otherwise |
| Bucketer.DatedInWindowKept | src/web/utils/suggestion_utils.py:29-51 | every event dated from today to today + 30 is in the bucket of its day |
| Bucketer.EmptyStartInNoBucket | src/web/utils/suggestion_utils.py:29-33 | an event with a missing, empty or blank start date is in no bucket |
| Bucketer.BucketsTotal | src/web/utils/suggestion_utils.py:29-51 | the four buckets together hold no more events than the input |
| Newsletter.FormatDateTimeLayout | src/web/events/generate_newsletter.py:108 | the `%a, %d %b %Y • %H:%M` text: a three-letter weekday, ", ", a two-digit day, a three-letter month, the year, " • ", and a two-digit hour and minute separated by ":" |
| Newsletter.FormatDateTimeFields | src/web/events/generate_newsletter.py:108 | each field of that text reads back as its source: the weekday of the date, the day, the month's abbreviation, the year, the hour and the minute |
| Newsletter.FmtEventDateTba | src/web/events/generate_newsletter.py:104-108 | "Date TBA" exactly when the start does not parse |
| Newsletter.BlankStartTba | src/web/events/generate_newsletter.py:104-108 | a missing, empty or blank start date is shown as "Date TBA" |
| Newsletter.LocationTextSpec | src/web/events/generate_newsletter.py:130-131 | the non-empty venue, city and region joined by " · " in that order; "Location TBA" when none; never empty |
| Newsletter.EventCard | src/web/events/generate_newsletter.py:111-142 | the card has an image banner iff the image is non-empty, and shows "Date TBA" iff the start does not parse |
| Newsletter.SectionBlock | src/web/events/generate_newsletter.py:144-160 | the empty-list placeholder exactly for no events; otherwise one card per event, in order |
| Newsletter.RenderSections | src/web/events/generate_newsletter.py:163-175 | on a Friday three sections (weekend, next week, coming soon), otherwise "This week" first and four sections, each from its bucket |
| Newsletter.SectionTitles | src/web/events/generate_newsletter.py:163-173 | the section headings, three on a Friday and four otherwise |
| Newsletter.FridayThisWeekEmpty | src/web/events/generate_newsletter.py:68-72 | on a Friday the "this week" bucket is empty, so omitting its section loses no event |
| SuggestionsJob.ZeroPadTwo | src/web/jobs/generate_suggestions.py:20 | a number below 100 becomes exactly two digits that read back as it |
| SuggestionsJob.FortnightSpec | src/web/jobs/generate_suggestions.py:23 | weeks 2k - 1 and 2k, and no others, share bucket k, and buckets run from 1 to 27 |
| SuggestionsJob.PeriodKeyShape | src/web/jobs/generate_suggestions.py:14-26 | weekly: ISO year, "-W" and the two-digit week; biweekly: ISO year, "-B" and the two-digit bucket; any other: calendar year, "-" and the two-digit month |
| SuggestionsJob.WeeklyKeyInjective | src/web/jobs/generate_suggestions.py:18-20 | two weekly keys are equal only for the same ISO year and week |
| SuggestionsJob.CadenceSpec | src/web/jobs/generate_suggestions.py:28-37 | true with no last time; otherwise iff now - last >= 7, 14 or 28 days (inclusive); monotone in now |
| SuggestionsJob.CadenceNested | src/web/jobs/generate_suggestions.py:33-37 | a monthly cadence reached implies biweekly, and biweekly implies weekly |
| SuggestionsJob.NormalizeFrequencySpec | src/web/jobs/generate_suggestions.py:75-77 | always one of the three cadences: the lower-cased value when it is one, "weekly" otherwise; idempotent |
| SuggestionsJob.LowerOfLowercase | src/web/jobs/generate_suggestions.py:75 | `lower()` leaves a lower-case ASCII word, such as a cadence name, alone |
| SuggestionsJob.RetryFromSpec | src/web/jobs/generate_suggestions.py:55-65 | entered after a failed calls, the loop ends with between a + 1 and max(a + 1, max_attempts) calls made in all; every call but the last failed, and a failure is returned only when all allowed calls are used |
| SuggestionsJob.RetrySpec | src/web/jobs/generate_suggestions.py:50-65 | fn is called at least once and at most max(1, max_attempts) times; the result is the first success; it raises only after the last allowed call fails |
| SuggestionsJob.WithRetries | src/web/jobs/generate_suggestions.py:50-65 | the loop's result and number of calls are those of the retry specification |
| SuggestionsJob.UserOutcomeSpec | src/web/jobs/generate_suggestions.py:74-130 | a user not due counts as skipped_due with no calls; a blank location skips before any call; at most 3 builds and at most 4 inserts; a payload is sent only after a successful build, with its events |
| SuggestionsJob.SuggestionPayloadSpec | src/web/jobs/generate_suggestions.py:84-109 | the payload names the user, now and the raw label; its frequency is a cadence; its period key is the ISO week, fortnight or month of now's UTC date |
| SuggestionsJob.RunForUser | src/web/jobs/generate_suggestions.py:75-130 | the loop body for one user: its outcome, and the payload it inserts when it inserts one |
| SuggestionsJob.RunForUsers | src/web/jobs/generate_suggestions.py:67-132 | the three counters are the tally of the users' outcomes, in order |
| SuggestionsJob.TallyBound | src/web/jobs/generate_suggestions.py:72-132 | made + skipped_due + skipped_dupe <= the number of users |
| SuggestionsJob.TallyNewUsers | src/web/jobs/generate_suggestions.py:79-82 | users with no stored suggestion are never skipped as not due |
| SuggestionsJob.TallyNoDupes | src/web/jobs/generate_suggestions.py:127-130 | when every returning insert reports a new row, skipped_dupe stays 0 |
| GatherJob.GmDateSame | src/web/jobs/gather_events.py:17 | two timestamps have the same UTC date iff they fall in the same 86400-second day |
| GatherJob.AlreadySnapshottedSpec | src/web/jobs/gather_events.py:13-17 | None or 0 gives false; otherwise true iff both timestamps lie in the same UTC day |
| GatherJob.AlreadySnapshottedReflexiveSymmetric | src/web/jobs/gather_events.py:17 | for non-zero timestamps the test is reflexive and symmetric |
| GatherJob.NextDayIsNew | src/web/jobs/gather_events.py:17 | timestamps exactly 86400 s apart are never the same day |
| GatherJob.SaveCityEventsSnapshot | src/web/jobs/gather_events.py:19-27 | the payload keeps generated_at, the location value and label as given, and the events in order; the label column is the label, or "" for a missing one |
| GatherJob.SnapshotOnlyTimeDiffers | src/web/jobs/gather_events.py:19-27 | two snapshots of the same events and location differ only in the payload's generated_at, and are equal exactly when the times are |
| GatherJob.SnapshotInjective | src/web/jobs/gather_events.py:19-27 | two stored records are equal exactly when the events, location value, label and time are all equal |
| Tastes.RankGenres | src/web/utils/tastes.py:22-30 | the loop flattens every artist's genres in order, then ranks them |
| Tastes.ByCountThenNameTotalPreorder | src/web/utils/tastes.py:30 | the key (-count, genre) orders totally |
| Tastes.GenreRankingMembers | src/web/utils/tastes.py:25-30 | a genre is ranked iff some artist lists it |
| Tastes.GenreRankingSpec | src/web/utils/tastes.py:25-30 | every genre occurs exactly once; a genre comes first when it is more frequent, or as frequent and smaller in string order |
| Tastes.GenrelessAddsNothing | src/web/utils/tastes.py:27 | an artist with missing, null or empty genres adds nothing to the flat list |
| Tastes.RankingIgnoresGenreless | src/web/utils/tastes.py:27 | such an artist changes nothing in the ranking |
| Tastes.RankingKeepsCase | src/web/utils/tastes.py:27-29 | two different spellings, such as "Rock" and "rock", are ranked as two genres |
| Tastes.ArtistsOrderedSingle | src/web/utils/tastes.py:41 | an artist contributes its name iff the name is present and non-empty |
| Tastes.ArtistsOrderedAppend | src/web/utils/tastes.py:41 | the names of a concatenation are the concatenated names: input order is kept |
| Tastes.NamesNonEmpty | src/web/utils/tastes.py:41 | no kept name is empty |
| Artists.AllGenresAppend | src/web/utils/tastes.py:26-27 | the flat genre list of a concatenation is the concatenated lists |
| Artists.AllGenresMember | src/web/utils/tastes.py:26-27 | a genre is in the flat list iff some artist lists it |
| SpotifyData.ClampLimit | src/web/events/spotify_data.py:70 | the limit lies in 1..50, is kept when already there, and is 1 below and 50 above |
| SpotifyData.FetchTopArtists | src/web/events/spotify_data.py:68-70 | an error iff the time range is not one of the three; otherwise the request carries that range and the clamped limit |
| SpotifyData.SummarizeArtists | src/web/events/spotify_data.py:74-84 | one row per artist in order, rank i + 1 at position i, followers and genres defaulting to 0 and [] |
| SpotifyData.SummaryDefaults | src/cli/spotify_data.py:80-82 | a missing follower count reads as 0 and missing genres as [], present values as given |
| SpotifyData.NormalizeAllMember | src/web/events/spotify_data.py:92-94 | a counted key is the stripped, lower-cased form of some genre |
| SpotifyData.NormalizeAllLength | src/web/events/spotify_data.py:92-94 | normalising keeps one entry per genre |
| SpotifyData.NormalizeMerges | src/cli/spotify_data.py:94 | " Rock" and "rock" are counted as one genre |
| SpotifyData.CountGenres | src/web/events/spotify_data.py:92-94 | the inner loop adds one artist's normalised genres to the counter |
| SpotifyData.AggregateGenres | src/web/events/spotify_data.py:86-95 | the result is `most_common(top_n)` of the normalised genres in artist order |
| SpotifyData.AggregateGenresSpec | src/cli/spotify_data.py:90-95 | at most top_n pairs, each a normalised genre with its count, no genre twice, counts non-increasing; when top_n covers every genre the counts sum to the number of genre entries |
| SpotifyData.AggregateGenresKeys | src/web/events/spotify_data.py:92-95 | each listed genre is the normalised form of some artist's genre |
| SpotifyData.RFind | src/web/events/spotify_data.py:102 | an index holding c with no c after it, or -1 when c does not occur |
| SpotifyData.SplitExtSpec | src/web/events/spotify_data.py:102 | base + ext is the path; a non-empty extension is a dot followed by no dot or slash, preceded in the last component by a non-dot |
| SpotifyData.SplitExtCut | src/web/events/spotify_data.py:102 | a non-empty extension starts at the last dot, which follows the last slash |
| SpotifyData.CsvNamesSpec | src/web/events/spotify_data.py:102-109 | base + "_artists" / "_genres" + the extension, ".csv" when there is none; the two names differ |
| SpotifyData.CsvNamesWithoutDot | src/cli/spotify_data.py:102-106 | a path with no dot gets `_artists.csv` and `_genres.csv` appended |
| SpotifyData.DisplayName | src/cli/spotify_data.py:130 | the display name, else the id, else "Unknown User"; never empty |
| Counter.CountsOf | src/web/utils/tastes.py:28 | each key paired with its number of occurrences |
| Counter.DistinctSpec | src/web/utils/tastes.py:28 | the Counter's keys are exactly the elements, each once, in first-seen order |
| Counter.SumItems | src/cli/spotify_data.py:90-95 | the counts of all items add up to the number of elements |
| Counter.OccurrencesMember | src/web/utils/tastes.py:28 | an element is counted at least once iff it occurs |
| Counter.CountsOfStep | src/web/events/spotify_data.py:94 | counting one more element adds one to the total of the keys exactly when it is one of them |
| Counter.SortedItemsSpec | src/web/utils/tastes.py:30 | any sort of the items lists each key once, with its count |
| Counter.SortedItemsComplete | src/web/utils/tastes.py:30 | such a sort leaves out no element |
| Counter.MostCommonSpec | src/web/events/spotify_data.py:95 | at most n items, a prefix of the full listing, each a key with its count, no key twice, counts non-increasing |
| Counter.MostCommonStable | src/web/events/spotify_data.py:95 | items with equal counts keep their first-seen order |
| Counter.MostCommonTotal | src/cli/spotify_data.py:95 | when n covers every key, the counts listed add up to the number of elements |
| Sorting.SortBySorted | src/web/utils/suggestion_utils.py:55 | the sort's result is ordered by the key |
| Sorting.SortByStable | src/web/utils/suggestion_utils.py:55 | elements with equal keys keep their relative order |
| Sorting.SortBySortedInput | src/web/utils/suggestion_utils.py:55 | an already ordered list is left as it is |
| Sorting.SortBy | src/web/utils/suggestion_utils.py:55 | a permutation of the input |
| Sorting.Insert | src/web/utils/suggestion_utils.py:55 | inserting adds exactly the one element |
| Sorting.Take | src/web/events/spotify_data.py:95 | the first min(n, len) elements; none for n <= 0 |
| Locations.LabelMapDomain | src/web/utils/location_utils.py:16 | the dict's keys are exactly the codes of the pairs |
| Locations.LabelMapSize | src/web/utils/location_utils.py:16 | with distinct codes, one entry per pair |
| Locations.LabelMapLookup | src/web/utils/location_utils.py:16 | with distinct codes, each code maps to its own label |
| Locations.ChoicesHaveDistinctCodes | src/web/utils/location_utils.py:1-15 | the 13 codes are pairwise distinct |
| Locations.LocationTableSpec | src/web/utils/location_utils.py:1-17 | 13 regions with distinct codes; `LABEL_BY_VALUE` has 13 entries mapping each code to its label; `LOCATION_VALUES` is the set of codes; ".area1" is "Αττική", the scraper's default |

## Left out

- HTTP fetching, BeautifulSoup queries, the Playwright browser and the page script that extracts cards. The model starts from the raw card records and the chain of listing pages these produce.
- The non-date-only branch of `parse_event_dt`: every stripped, non-blank start that is not a bare `YYYY-MM-DD` goes to the `DateTimeParser` parameter. That covers naive date-times tagged with the local zone, `Z` and offset date-times converted to it (Europe/Athens, or the fixed UTC+3 fallback), and text `fromisoformat` rejects, which gives None. A date-only start is modelled exactly as local midnight, and local date-times are compared by their wall-clock fields.
- Ingestion.CollectEventsFromSoup: the pill text is read through a `PillReader` parameter. The listing scraper passes `parse_greek_date_or_range`, which is modelled as GreekDates.ParseGreekDateOrRange.
- `isoformat`, the HTML and CSS of the newsletter, and JSON rendering. The payload and snapshot are records. The card's `strftime("%a, %d %b %Y • %H:%M")` text is modelled in full for the C locale (Newsletter.FormatDateTime), and its fields are proved to read back.
- Regex `\d` covers ASCII digits only, while Python also accepts other Unicode decimal digits.
- Text.Lower is exact only on strings whose characters lie in U+0000-U+00FF (ASCII and Latin-1), U+0300-U+036F (combining marks) or U+0384-U+03CE (the modern Greek letters); the archaic and Coptic Greek letters (in U+0370-U+0383 and U+03CF-U+03FF), Greek Extended (U+1F00-U+1FFF) and other scripts are neither lowered nor counted as cased, which also changes the final-sigma decision next to them.
- GreekDates.StripAccents is exact only on the characters the month-word pattern accepts.
- Calendar.AddDays: the OverflowError Python raises beyond years 1..9999 is not modelled; dates are extended past that range.
- Sleeps, exponential backoff and jitter in `_with_retries`. Only the attempt bound and the outcome are modelled.
- `_run_for_users`: the event lookup, the upcoming-events fallback, its snapshot save, the tastes lookup and the recommender all stand behind the per-user build outcomes.
- SuggestionsJob.TallyNoDupes takes as a precondition that `insert_user_suggestions` always reports a new row, because the database code (src/web/utils/db_utils.py) is not part of this model.
- SpotifyData.SplitExt follows `posixpath.splitext` only; Windows paths are not modelled.
- The Spotify API calls, OAuth, the Gemini calls, the database, Flask, logging, the scheduler and the CSV file writing.
- The lazy scroll's page reads are abstract observations (`Observer`). The scroll, the wait and the card-count query are not modelled.
- GatherJob.SaveCityEventsSnapshot builds the record, not the JSON text, so `ensure_ascii=False` is not modelled.
- events/event_utils/time_utils.py, which the web modules import, is not part of this model. It is taken to be the same as src/utils/time_utils.py, which the command-line copy matches line for line.
- The pydantic `EventModel` validation, the prompt text, PKCE and the Flask routes, including the `save_info` location check against `LOCATION_VALUES`.

## Findings

| source | as written | input that shows it | evidently intended | confidence | as-written member | corrected member |
|---|---|---|---|---|---|---|
| src/cli/event_gatherer.py:230-234 | the pill fallback passes `fallback_year=y`, and `y` is defined nowhere in the module, so it raises NameError | one visible card with a url, no ISO date and any pill text | use the window's year, as the listing scraper does with `fallback_year = range_a.year` | not executed | CliGatherer.CliNameError | Ingestion.CollectEventsFromSoup |
