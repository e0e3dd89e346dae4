/**
 * Resolving the event id: one search request for the fixed organizer, then
 * the positionally last event of the list it returns.
 */
module EventResolver {
  import opened Records
  import Urls

  /** `Vec::pop`: takes the last element off, if there is one, and leaves the rest. */
  function Pop<T>(s: seq<T>): (r: (Option<T>, seq<T>))
    ensures r.0.None? <==> s == []
    ensures r.0.None? ==> r.1 == s
    ensures r.0.Some? ==> r.1 + [r.0.value] == s
  {
    if s == [] then (None, s) else (Some(s[|s| - 1]), s[..|s| - 1])
  }

  /** The id of the last event, or the `no eventId` error when there is none. */
  function SelectEvent(events: seq<Event>): (r: Result<string>)
    ensures r.Err? <==> events == []
    ensures r.Err? ==> r.error == "no eventId"
    ensures r.Ok? ==> r.value == events[|events| - 1].id
  {
    match Pop(events).0
    case Some(e) => Ok(e.id)
    case None => Err("no eventId")
  }

  /**
   * `get_event_id`: fetch the search page through `search` (the remote API,
   * keyed by URL) and select from the events it lists.
   */
  function GetEventId(token: string, search: string -> Fetch<LastRequest>): (r: Result<string>)
    ensures search(Urls.SearchUrl(token)).Failed() ==> r == Err(FailureReason(search(Urls.SearchUrl(token))))
    ensures r.Ok? <==> search(Urls.SearchUrl(token)).Fetched? && search(Urls.SearchUrl(token)).value.events != []
    ensures r.Ok? ==> var events := search(Urls.SearchUrl(token)).value.events;
                      r.value == events[|events| - 1].id
    ensures search(Urls.SearchUrl(token)).Fetched? && search(Urls.SearchUrl(token)).value.events == [] ==>
              r == Err("no eventId")
  {
    match search(Urls.SearchUrl(token))
    case GetFailed(reason) => Err(reason)
    case ReadFailed(reason) => Err(reason)
    case Fetched(body) => SelectEvent(body.events)
  }

  /** "Last" is positional: whatever precedes the final event does not matter. */
  lemma SelectsLast(earlier: seq<Event>, last: Event)
    ensures SelectEvent(earlier + [last]) == Ok(last.id)
  {
  }

  /** A successful resolution names the last event of the search result. */
  lemma GetEventIdIsLast(token: string, search: string -> Fetch<LastRequest>)
    requires GetEventId(token, search).Ok?
    ensures var events := search(Urls.SearchUrl(token)).value.events;
            events != [] && GetEventId(token, search).value == events[|events| - 1].id
  {
  }
}
