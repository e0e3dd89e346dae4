/**
 * The records decoded from the event-management API's JSON bodies, the
 * shape of one remote call's outcome, and the error-carrying result type
 * the client's operations return.
 */
module Records {

  /** A profile: the attendee's first and last name. */
  datatype Profile = Profile(firstName: string, lastName: string)

  /** One attendee, as listed on an attendees page. */
  datatype Attendee = Attendee(id: string, profile: Profile)

  /** The pagination descriptor of an attendees page. */
  datatype Pagination = Pagination(pageNumber: int, pageCount: int)

  /** The decoded body of one attendees page. */
  datatype EventDetail = EventDetail(pagination: Pagination, attendees: seq<Attendee>)

  /** One event of the organizer search (only its id is consumed). */
  datatype Event = Event(id: string)

  /** The decoded body of the organizer search. */
  datatype LastRequest = LastRequest(events: seq<Event>)

  /**
   * What one HTTP GET of a URL yields: the decoded body, a failure of the
   * request itself, or a failure while reading the body.
   */
  datatype Fetch<T> =
    | Fetched(value: T)
    | GetFailed(reason: string)
    | ReadFailed(reason: string)
  {
    predicate Failed() { !Fetched? }
  }

  /** The reason of a failed fetch, as it is reported to the caller. */
  function FailureReason<T>(f: Fetch<T>): string
    requires f.Failed()
  {
    match f
    case GetFailed(reason) => reason
    case ReadFailed(reason) => reason
  }

  /** The `Result<_, String>` the client's operations return. */
  datatype Result<T> = Ok(value: T) | Err(error: string)

  datatype Option<T> = None | Some(value: T)
}
