/**
 * The two request URLs the client builds: the organizer search and one
 * page of an event's attendees. Each carries the token verbatim.
 */
module Urls {
  import Decimal

  const EventsEndpoint: string := "https://www.eventbriteapi.com/v3/events/"
  const OrganizerId: string := "1464915124"


  /** `…/v3/events/search/?token={token}&organizer.id=1464915124` */
  function SearchUrl(token: string): string
  {
    SearchPrefix() + token + OrganizerSuffix()
  }

  /** `…/v3/events/{eventId}/attendees/?page={page}&token={token}` */
  function AttendeesUrl(eventId: string, page: int, token: string): string
  {
    AttendeesPrefix(eventId) + Decimal.Render(page) + TokenSuffix(token)
  }

  function SearchPrefix(): string
  {
    EventsEndpoint + "search/?token="
  }

  function OrganizerSuffix(): string
  {
    "&organizer.id=" + OrganizerId
  }

  function AttendeesPrefix(eventId: string): string
  {
    EventsEndpoint + eventId + "/attendees/?page="
  }

  function TokenSuffix(token: string): string
  {
    "&token=" + token
  }

  /** Reads the page number back out of an attendees URL of `eventId` and `token`. */
  function PageOf(eventId: string, token: string, url: string): int
  {
    var head := |AttendeesPrefix(eventId)|;
    var tail := |TokenSuffix(token)|;
    if head + tail <= |url| then Decimal.Parse(url[head..|url| - tail]) else 0
  }

  /** Reads the token back out of a search URL. */
  function TokenOf(url: string): string
  {
    var head := |SearchPrefix()|;
    var tail := |OrganizerSuffix()|;
    if head + tail <= |url| then url[head..|url| - tail] else ""
  }

  /** The exact text of one attendees URL: page 12 of event `E` with token `T`. */
  lemma AttendeesUrlSample()
    ensures AttendeesUrl("E", 12, "T") == "https://www.eventbriteapi.com/v3/events/E/attendees/?page=12&token=T"
  {
  }

  /** The exact text of the search URL for token `T`. */
  lemma SearchUrlSample()
    ensures SearchUrl("T") == "https://www.eventbriteapi.com/v3/events/search/?token=T&organizer.id=1464915124"
  {
  }

  /**
   * The attendees URL spells out the page number in full: the number is
   * recovered from it, and the token ends it verbatim.
   */
  lemma AttendeesUrlRoundTrip(eventId: string, page: int, token: string)
    ensures PageOf(eventId, token, AttendeesUrl(eventId, page, token)) == page
    ensures AttendeesUrl(eventId, page, token)[..|AttendeesPrefix(eventId)|] == AttendeesPrefix(eventId)
    ensures var url := AttendeesUrl(eventId, page, token); url[|url| - |token|..] == token
  {
    var pre, digits, post := AttendeesPrefix(eventId), Decimal.Render(page), TokenSuffix(token);
    var url := pre + digits + post;
    assert url[|pre|..|url| - |post|] == digits;
    assert url[|url| - |token|..] == token;
    Decimal.RenderRoundTrip(page);
  }

  /** Two pages of one event never share a URL. */
  lemma AttendeesUrlInjective(eventId: string, token: string, p: int, q: int)
    requires AttendeesUrl(eventId, p, token) == AttendeesUrl(eventId, q, token)
    ensures p == q
  {
    AttendeesUrlRoundTrip(eventId, p, token);
    AttendeesUrlRoundTrip(eventId, q, token);
  }

  /** The search URL carries the token verbatim and nothing but it between its fixed parts. */
  lemma SearchUrlRoundTrip(token: string)
    ensures TokenOf(SearchUrl(token)) == token
  {
  }
}
