/**
  The command-line scraper: its per-card pipeline `collect_events` as the code
  stands, which raises NameError for every card that needs its pill text read;
  the request filter `should_block`; the cell truncation of `print_table`; and
  the stopping rule of `fast_lazy_scroll` over the page's successive readings.
*/
module CliGatherer {
  import opened Wrappers
  import opened Calendar
  import opened Text
  import opened Events
  import opened TimeUtils
  import opened Ingestion

  // ---------- collect_events ----------

  /** The exception the loop raises: name lookup of a variable that is not defined. */
  datatype Raised = NameError(name: string)

  /** The card carries an ISO date that parses, so the pill is never read. */
  predicate UsableIso(it: RawCard) {
    Truthy(it.startIso) && ParseIsoDate(it.startIso.value).Some?
  }

  /** A visible card with a url and no usable ISO date: the loop evaluates `fallback_year=y` for it. */
  predicate ReachesPill(it: RawCard) {
    !it.hidden && Truthy(it.url) && !UsableIso(it)
  }

  /**
    One turn of `collect_events`'s loop as written. The pill branch names `y`,
    which no scope defines, so it raises before the region and overlap filters.
  */
  function CliCard(it: RawCard, q: Query): Result<Option<Event>, Raised> {
    if it.hidden || !Truthy(it.url) then Ok(None)
    else
      var startDt := if Truthy(it.startIso) then ParseIsoDate(it.startIso.value) else None;
      if startDt.None? then Err(NameError("y"))
      else if !RegionOk(it, q) then Ok(None)
      else if !OverlapsRange(startDt, startDt, q.rangeA, q.rangeB) then Ok(None)
      else
        var rep := Representative(startDt, startDt, q.rangeA, q.rangeB);
        Ok(Some(Event(
          if it.title == "" then "(untitled)" else it.title,
          it.url.value,
          if rep.Some? then Some(FormatIsoDate(rep.value)) else None,
          it.venue, it.city, it.region, it.image)))
  }

  /** A card that never reaches the pill fallback is treated exactly as the listing scraper treats it, whatever pill reader that one uses. */
  lemma CliCardMatchesWeb(it: RawCard, q: Query, pill: PillReader)
    requires !ReachesPill(it)
    ensures CliCard(it, q) == Ok(IngestCard(it, q, pill))
  {
    if !it.hidden && Truthy(it.url) {
      IsoPreferred(it, q.rangeA.y, pill, it.pill, q.rangeA.y, pill);
    }
  }

  /** A card that reaches the pill fallback raises NameError. */
  lemma CliCardRaises(it: RawCard, q: Query)
    ensures CliCard(it, q).Err? <==> ReachesPill(it)
    ensures CliCard(it, q).Err? ==> CliCard(it, q).error == NameError("y")
  {
  }

  /** The outcome of `collect_events` for the cards in page order: the events, or the first exception. */
  function CliCollected(cards: seq<RawCard>, q: Query): Result<seq<Event>, Raised> {
    if cards == [] then Ok([])
    else
      match CliCollected(cards[..|cards| - 1], q)
      case Err(e) => Err(e)
      case Ok(out) =>
        match CliCard(cards[|cards| - 1], q)
        case Err(e) => Err(e)
        case Ok(r) => Ok(out + AsList(r))
  }

  /** One more card: the loop's outcome after it, from the outcome before it. */
  lemma CliStep(cards: seq<RawCard>, k: nat, q: Query)
    requires k < |cards|
    ensures CliCollected(cards[..k], q).Ok? && CliCard(cards[k], q).Ok? ==>
      CliCollected(cards[..k + 1], q) == Ok(CliCollected(cards[..k], q).value + AsList(CliCard(cards[k], q).value))
    ensures CliCollected(cards[..k], q).Ok? && CliCard(cards[k], q).Err? ==>
      CliCollected(cards[..k + 1], q) == Err(CliCard(cards[k], q).error)
  {
    assert cards[..k + 1][..k] == cards[..k];
  }

  /** Once raised, the exception ends the loop: later cards change nothing. */
  lemma {:induction false} CliErrorSticks(c1: seq<RawCard>, c2: seq<RawCard>, q: Query)
    requires CliCollected(c1, q).Err?
    ensures CliCollected(c1 + c2, q) == CliCollected(c1, q)
  {
    if c2 == [] {
      assert c1 + c2 == c1;
    } else {
      var init := c2[..|c2| - 1];
      assert (c1 + c2)[..|c1 + c2| - 1] == c1 + init;
      CliErrorSticks(c1, init, q);
    }
  }

  /** One more card raises exactly when the loop had raised before or the card reaches the fallback. */
  lemma CliRaisesStep(cards: seq<RawCard>, q: Query)
    requires cards != []
    ensures var before := CliCollected(cards[..|cards| - 1], q);
      (CliCollected(cards, q).Err? <==> before.Err? || ReachesPill(cards[|cards| - 1]))
      && (CliCollected(cards, q).Err? ==>
            CliCollected(cards, q).error == if before.Err? then before.error else NameError("y"))
  {
    CliCardRaises(cards[|cards| - 1], q);
  }

  /** Some card of the list reaches the pill fallback. */
  predicate SomePill(cards: seq<RawCard>) {
    exists k :: 0 <= k < |cards| && ReachesPill(cards[k])
  }

  /** Some card reaches the fallback exactly when one of the earlier cards or the last one does. */
  lemma SomePillSnoc(cards: seq<RawCard>)
    requires cards != []
    ensures SomePill(cards) <==> SomePill(cards[..|cards| - 1]) || ReachesPill(cards[|cards| - 1])
  {
    var init := cards[..|cards| - 1];
    if exists k :: 0 <= k < |cards| && ReachesPill(cards[k]) {
      var k :| 0 <= k < |cards| && ReachesPill(cards[k]);
      if k < |init| {
        assert init[k] == cards[k];
      }
    }
    if exists k :: 0 <= k < |init| && ReachesPill(init[k]) {
      var k :| 0 <= k < |init| && ReachesPill(init[k]);
      assert cards[k] == init[k];
    }
  }

  /** `collect_events` raises exactly when some card reaches the pill fallback. */
  lemma {:induction false} CliRaisesIff(cards: seq<RawCard>, q: Query)
    ensures CliCollected(cards, q).Err? <==> exists k :: 0 <= k < |cards| && ReachesPill(cards[k])
    ensures CliCollected(cards, q).Err? ==> CliCollected(cards, q).error == NameError("y")
  {
    if cards != [] {
      CliRaisesIff(cards[..|cards| - 1], q);
      CliRaisesStep(cards, q);
      SomePillSnoc(cards);
    }
  }

  /** Without any card reaching the fallback, the command-line pipeline yields what the listing scraper's does. */
  lemma {:induction false} CliAgreesWithWeb(cards: seq<RawCard>, q: Query, pill: PillReader)
    requires forall k :: 0 <= k < |cards| ==> !ReachesPill(cards[k])
    ensures CliCollected(cards, q) == Ok(Collected(cards, q, pill))
  {
    if cards != [] {
      var init, last := cards[..|cards| - 1], cards[|cards| - 1];
      forall k | 0 <= k < |init|
        ensures !ReachesPill(init[k])
      {
        assert init[k] == cards[k];
      }
      CliAgreesWithWeb(init, q, pill);
      CliCardMatchesWeb(last, q, pill);
    }
  }

  /** A listing with one visible card that has a url and only a pill date makes `collect_events` raise. */
  lemma CliNameError(q: Query)
    ensures var card := RawCard(false, Some("https://www.more.com/gr-el/tickets/music/x/"), None, None,
                                "Live", None, None, Some("Αττική"), Some("16 Οκτωβρίου"));
      CliCollected([card], q) == Err(NameError("y"))
  {
    var card := RawCard(false, Some("https://www.more.com/gr-el/tickets/music/x/"), None, None,
                        "Live", None, None, Some("Αττική"), Some("16 Οκτωβρίου"));
    assert [card][..0] == [];
  }

  /** The loop body of `collect_events` for one card; each `continue` is a return of `Ok(None)`. */
  method CliOne(it: RawCard, q: Query) returns (r: Result<Option<Event>, Raised>)
    ensures r == CliCard(it, q)
  {
    if it.hidden {
      return Ok(None);
    }
    if !Truthy(it.url) {
      return Ok(None);
    }
    var title := if it.title == "" then "(untitled)" else it.title;
    var startDt := if Truthy(it.startIso) then ParseIsoDate(it.startIso.value) else None;
    var endDt := startDt;
    if startDt.None? {
      return Err(NameError("y"));
    }
    if q.locationOnly && Strip(OrEmpty(it.region)) != q.locationTitle {
      return Ok(None);
    }
    if !OverlapsRange(startDt, endDt, q.rangeA, q.rangeB) {
      return Ok(None);
    }
    var x := startDt.value;
    var chosen := if DateLt(x, q.rangeA) then q.rangeA else x;
    if DateLt(q.rangeB, chosen) {
      chosen := q.rangeA;
    }
    assert Some(chosen) == Representative(startDt, endDt, q.rangeA, q.rangeB);
    return Ok(Some(Event(title, it.url.value, Some(FormatIsoDate(chosen)), it.venue, it.city, it.region, it.image)));
  }

  /** `collect_events(page, range_a, range_b, ...)` over the cards the page script extracts. */
  method CollectEvents(items: seq<RawCard>, q: Query) returns (r: Result<seq<Event>, Raised>)
    ensures r == CliCollected(items, q)
  {
    var out: seq<Event> := [];
    var i := 0;
    while i < |items|
      invariant 0 <= i <= |items|
      invariant CliCollected(items[..i], q) == Ok(out)
    {
      var step := CliOne(items[i], q);
      CliStep(items, i, q);
      if step.Err? {
        assert items == items[..i + 1] + items[i + 1..];
        CliErrorSticks(items[..i + 1], items[i + 1..], q);
        return Err(step.error);
      }
      if step.value.Some? {
        out := out + [step.value.value];
      } else {
        assert out + AsList(step.value) == out;
      }
      i := i + 1;
    }
    assert items[..|items|] == items;
    return Ok(out);
  }

  // ---------- should_block ----------

  const TrackerSubstr: seq<string> := [
    "doubleclick", "googletagmanager", "google-analytics", "facebook", "hotjar", "segment",
    "adsystem", "optimizely", "taboola", "criteo", "quantserve", "scorecardresearch"]

  const BlockedTypes: seq<string> := ["image", "media", "font"]

  /** `any(s in url for s in subs)` */
  function AnyIn(subs: seq<string>, url: string): bool {
    if subs == [] then false else Contains(url, subs[0]) || AnyIn(subs[1..], url)
  }

  lemma {:induction false} AnyInSpec(subs: seq<string>, url: string)
    ensures AnyIn(subs, url) <==> exists i :: 0 <= i < |subs| && Contains(url, subs[i])
  {
    if subs != [] {
      AnyInSpec(subs[1..], url);
      if exists i :: 0 <= i < |subs[1..]| && Contains(url, subs[1..][i]) {
        var i :| 0 <= i < |subs[1..]| && Contains(url, subs[1..][i]);
        assert subs[i + 1] == subs[1..][i];
      }
      if exists i :: 1 <= i < |subs| && Contains(url, subs[i]) {
        var i :| 1 <= i < |subs| && Contains(url, subs[i]);
        assert subs[1..][i - 1] == subs[i];
      }
    }
  }

  /** `should_block(req)` for a request of the given resource type and url. */
  function ShouldBlock(resourceType: string, url: string): bool {
    var u := Lower(url);
    if resourceType in BlockedTypes then true
    else if AnyIn(TrackerSubstr, u) then true
    else false
  }

  /** Images, media and fonts are blocked, and so is any url whose lower-cased form contains a tracker name; nothing else is. */
  lemma ShouldBlockSpec(resourceType: string, url: string)
    ensures ShouldBlock(resourceType, url) <==>
      resourceType in BlockedTypes || exists i :: 0 <= i < |TrackerSubstr| && Contains(Lower(url), TrackerSubstr[i])
  {
    AnyInSpec(TrackerSubstr, Lower(url));
  }

  // ---------- trunc ----------

  /** `s[:k]`, where a negative k counts from the end. */
  function PyPrefix(s: string, k: int): (r: string)
    ensures |r| == if k >= 0 then (if k <= |s| then k else |s|) else (if |s| + k > 0 then |s| + k else 0)
    ensures forall i :: 0 <= i < |r| ==> r[i] == s[i]
  {
    if k >= 0 then (if k <= |s| then s[..k] else s)
    else if |s| + k > 0 then s[..|s| + k] else []
  }

  /** `s.replace("\n", " ")` */
  function ReplaceNewlines(s: string): (r: string)
    ensures |r| == |s| && '\n' !in r
  {
    seq(|s|, i requires 0 <= i < |s| => if s[i] == '\n' then ' ' else s[i])
  }

  const Ellipsis: char := '\U{2026}'

  /** The cleaned cell text `trunc` works on. */
  function Cell(s: Option<string>): string {
    Strip(ReplaceNewlines(OrEmpty(s)))
  }

  /** `trunc(s, n)` of `print_table` */
  function Trunc(s: Option<string>, n: int): string {
    var t := Cell(s);
    if |t| <= n then t else PyPrefix(t, n - 1) + [Ellipsis]
  }

  /** `strip` keeps a contiguous part of its input. */
  lemma StripNoNewline(s: string)
    requires '\n' !in s
    ensures '\n' !in Strip(s)
  {
    StripSlice(s);
  }

  /**
    For a positive width the cell never exceeds it: a text that fits is kept
    whole, a longer one becomes its first n-1 characters and an ellipsis, and no
    newline survives.
  */
  lemma TruncSpec(s: Option<string>, n: int)
    requires n >= 1
    ensures |Trunc(s, n)| <= n
    ensures |Cell(s)| <= n ==> Trunc(s, n) == Cell(s)
    ensures |Cell(s)| > n ==> Trunc(s, n) == Cell(s)[..n - 1] + [Ellipsis] && |Trunc(s, n)| == n
    ensures '\n' !in Trunc(s, n)
  {
    var t := Cell(s);
    StripNoNewline(ReplaceNewlines(OrEmpty(s)));
    if |t| > n {
      assert PyPrefix(t, n - 1) == t[..n - 1];
      assert forall i :: 0 <= i < n - 1 ==> Trunc(s, n)[i] == t[i];
    }
  }

  // ---------- fast_lazy_scroll ----------

  /** What the page shows after scroll round r: the number of event cards and the document height. */
  type Observer = nat -> (int, int)

  /** Round r repeats the previous round's reading, with at least one card. */
  predicate Same(obs: Observer, r: nat) {
    r > 0 && obs(r) == obs(r - 1) && obs(r).0 > 0
  }

  /** The value of `stable` after round r: the length of the run of repeating rounds ending at r. */
  function StableAt(obs: Observer, r: nat): nat {
    if r == 0 || !Same(obs, r) then 0 else StableAt(obs, r - 1) + 1
  }

  /** `stable` reaches k at round r exactly when the k rounds ending at r each repeat their predecessor. */
  lemma {:induction false} StableAtSpec(obs: Observer, r: nat, k: nat)
    requires k >= 1
    ensures StableAt(obs, r) >= k <==> k <= r && forall j: nat :: r - k < j <= r ==> Same(obs, j)
  {
    if r > 0 && Same(obs, r) && k > 1 {
      StableAtSpec(obs, r - 1, k - 1);
    }
    if k <= r && (forall j: nat :: r - k < j <= r ==> Same(obs, j)) {
      assert Same(obs, r);
    }
  }

  function Max0(n: int): nat {
    if n < 0 then 0 else n
  }

  /**
    The loop runs `rounds` rounds: at most max_rounds, none of the rounds before
    the last reaches stable_rounds, and it ends early only on a round that does.
  */
  predicate RunsFor(obs: Observer, maxRounds: int, stableRounds: int, rounds: nat) {
    rounds <= Max0(maxRounds)
    && (forall r: nat :: r + 1 < rounds ==> StableAt(obs, r) < stableRounds)
    && (rounds < maxRounds ==> rounds > 0 && StableAt(obs, rounds - 1) >= stableRounds)
  }

  /** Every round before the last fell short of stable_rounds. */
  lemma RunsForEarlierRound(obs: Observer, maxRounds: int, stableRounds: int, rounds: nat, r: int)
    ensures RunsFor(obs, maxRounds, stableRounds, rounds) && 0 <= r && r + 1 < rounds ==> StableAt(obs, r) < stableRounds
  {
  }

  /** The stopping rule fixes the number of rounds. */
  lemma RunsForUnique(obs: Observer, maxRounds: int, stableRounds: int, a: nat, b: nat)
    requires RunsFor(obs, maxRounds, stableRounds, a) && RunsFor(obs, maxRounds, stableRounds, b)
    ensures a == b
  {
    if a < b {
      RunsForEarlierRound(obs, maxRounds, stableRounds, b, a - 1);
    } else if b < a {
      RunsForEarlierRound(obs, maxRounds, stableRounds, a, b - 1);
    }
  }

  /** The round after which `last_count` was last updated: the breaking round leaves it alone. */
  function LastUpdated(obs: Observer, stableRounds: int, rounds: nat): nat {
    if rounds > 0 && StableAt(obs, rounds - 1) >= stableRounds then rounds - 1 else rounds
  }

  /**
    `fast_lazy_scroll(page, max_rounds=..., stable_rounds=...)` with the page's
    scroll, wait and readings taken as obs; returns the number of rounds and
    the `last_count` it logs.
  */
  method FastLazyScroll(obs: Observer, maxRounds: int, stableRounds: int) returns (rounds: nat, lastCount: int)
    ensures RunsFor(obs, maxRounds, stableRounds, rounds)
    ensures var u := LastUpdated(obs, stableRounds, rounds); lastCount == if u == 0 then -1 else obs(u - 1).0
  {
    var lastC, lastH := -1, -1;
    var stable := 0;
    var r := 0;
    while r < maxRounds
      invariant 0 <= r <= Max0(maxRounds)
      invariant forall j: nat :: j < r ==> StableAt(obs, j) < stableRounds
      invariant r > 0 ==> stable == StableAt(obs, r - 1) && (lastC, lastH) == obs(r - 1)
      invariant r == 0 ==> stable == 0 && lastC == -1 && lastH == -1
      decreases maxRounds - r
    {
      var count, h := obs(r).0, obs(r).1;
      if count == lastC && h == lastH && count > 0 {
        stable := stable + 1;
      } else {
        stable := 0;
      }
      assert stable == StableAt(obs, r);
      if stable >= stableRounds {
        return r + 1, lastC;
      }
      lastC, lastH := count, h;
      r := r + 1;
    }
    return r, lastC;
  }

  /** On an unchanging page with cards, `stable` counts the rounds since the first. */
  lemma {:induction false} UnchangingPage(obs: Observer, r: nat)
    requires forall j: nat :: obs(j) == obs(0)
    requires obs(0).0 > 0
    ensures StableAt(obs, r) == r
  {
    if r > 0 {
      UnchangingPage(obs, r - 1);
      assert obs(r) == obs(0) && obs(r - 1) == obs(0);
    }
  }

  /** With the defaults (50 rounds, 3 stable rounds), a page that does not change stops after four rounds. */
  lemma DefaultsStopAfterFour(obs: Observer, rounds: nat)
    requires forall j: nat :: obs(j) == obs(0)
    requires obs(0).0 > 0
    requires RunsFor(obs, 50, 3, rounds)
    ensures rounds == 4
  {
    UnchangingPage(obs, 3);
    if rounds < 4 {
      UnchangingPage(obs, rounds - 1);
    } else if rounds > 4 {
      RunsForEarlierRound(obs, 50, 3, rounds, 3);
    }
  }
}
