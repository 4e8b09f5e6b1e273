/** The records the pipeline passes around: listing cards as scraped, and events. */
module Events {
  import opened Wrappers

  /** An event listing (the `Event` dataclass); `start_date` is an ISO date or date-time string. */
  datatype Event = Event(
    title: string,
    url: string,
    startDate: Option<string>,
    venue: Option<string>,
    city: Option<string>,
    region: Option<string>,
    image: Option<string>)

  /** One listing card as the scraper extracts it from the page (the `RawCard` shape). */
  datatype RawCard = RawCard(
    hidden: bool,
    url: Option<string>,
    image: Option<string>,
    startIso: Option<string>,
    title: string,
    venue: Option<string>,
    city: Option<string>,
    region: Option<string>,
    pill: Option<string>)

  /** Python truthiness of an optional string: present and non-empty. */
  predicate Truthy(s: Option<string>) {
    s.Some? && s.value != ""
  }

  /** `s or ""` */
  function OrEmpty(s: Option<string>): (r: string)
    ensures Truthy(s) ==> r == s.value
    ensures !Truthy(s) ==> r == ""
  {
    if s.Some? then s.value else ""
  }
}
