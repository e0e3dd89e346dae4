# Eventbrite attendee client — a Dafny model

This project models the client half of `rust-winner`, a small Rust program
that takes the last event an Eventbrite organizer search lists and then
collects every attendee of that event by walking the paginated attendees
endpoint. The remote API is modelled as an oracle: a function from the
request URL to the outcome of one GET. That outcome is the decoded body, a
failure of the request, or a failure while reading the body.

Modules, following `src/main.rs`:

- `Records`: one datatype per decoded struct of `src/main.rs:15-55`,
  except `Start`, whose only field is never read.
  `LastRequest` and `Event` are the search body; `EventDetail`, `Pagination`,
  `Attendee` and `Profile` are an attendees page. The module also holds the
  `Fetch` outcome of one GET and the `Result<_, String>` the operations
  return.
- `Decimal`: how `{}` renders an integer inside a URL, with the parser that
  inverts it.
- `Urls`: the search URL and the attendees URL, each with a function that
  reads its variable part back out.
- `EventResolver`: `get_event_id`, which makes one search request and takes
  the positionally last event with `Vec::pop`.
- `AttendeeCollector`: `get_attendees`, the pagination loop. It is an
  imperative method. The cursor `(page, page_count)` starts at `(1, 1)`, the
  loop runs while `page <= page_count`, each response overwrites
  `page_count`, and an inner loop appends the page's attendees one by one.
  The method is proved against `IsWalk`. That predicate characterizes the
  walk on its own terms: which pages are fetched, why the walk goes on after
  each one, and what it returns when it stops. The lemmas then derive the
  program's promises from `IsWalk`.

Termination needs an assumption, because `page_count` is re-read from every
response. The method takes a ghost `bound` and requires that every page count
reported in a response for page 1 or above is at most `bound` (the predicate
`AttendeeCollector.Bounded`).

## Model

| member | source | states |
|---|---|---|
| `Decimal.Digits` | src/main.rs:127-130 | The decimal text of a natural number is non-empty and all digits. It starts with '0' only for zero, and zero is the single character "0". |
| `Decimal.Render` | src/main.rs:127-130 | `{}` of an integer: a leading '-' exactly for negatives, every other character a digit, and no leading zero except for zero itself. |
| `Decimal.DigitsRoundTrip` | src/main.rs:127-130 | Parsing the digits of `n` gives back `n`. |
| `Decimal.RenderRoundTrip` | src/main.rs:127-130 | Parsing the rendered integer gives back the integer, negatives included. |
| `Decimal.RenderInjective` | src/main.rs:127-130 | Distinct page numbers render as distinct text. |
| `Urls.AttendeesUrl` | src/main.rs:127-130 | Builds exactly `https://www.eventbriteapi.com/v3/events/` + event id + `/attendees/?page=` + decimal page + `&token=` + token. Its properties are stated by the lemmas below. |
| `Urls.SearchUrl` | src/main.rs:154 | Builds exactly `https://www.eventbriteapi.com/v3/events/search/?token=` + token + `&organizer.id=1464915124`. Its properties are stated by the lemmas below. |
| `Urls.AttendeesUrlSample` | src/main.rs:127-130 | Page 12 of event `E` with token `T` is `https://www.eventbriteapi.com/v3/events/E/attendees/?page=12&token=T`. |
| `Urls.SearchUrlSample` | src/main.rs:154 | The search URL for token `T` is `https://www.eventbriteapi.com/v3/events/search/?token=T&organizer.id=1464915124`. |
| `Urls.AttendeesUrlRoundTrip` | src/main.rs:127-130 | The attendees URL starts with the endpoint, the event id and `/attendees/?page=`, ends with the token verbatim, and the page number is read back from between them. |
| `Urls.AttendeesUrlInjective` | src/main.rs:127-130 | Two different pages of one event never produce the same URL. |
| `Urls.SearchUrlRoundTrip` | src/main.rs:154 | The search URL carries the token verbatim between its fixed prefix and `&organizer.id=1464915124`. |
| `EventResolver.Pop` | src/main.rs:166 | `Vec::pop` yields nothing exactly on an empty list; otherwise it yields an element that, put back at the end of the remainder, gives the list. |
| `EventResolver.SelectEvent` | src/main.rs:166-169 | Fails exactly on an empty event list, with `no eventId`; otherwise yields the id of the positionally last event. |
| `EventResolver.GetEventId` | src/main.rs:153-169 | A failed search request or body read is returned as `Err` with its reason; success happens exactly when the search lists at least one event, and its value is the id of the last event listed; an empty list gives `Err("no eventId")`. |
| `EventResolver.SelectsLast` | src/main.rs:166-167 | The selected id is that of the positionally last event, whatever precedes it. |
| `EventResolver.GetEventIdIsLast` | src/main.rs:165-167 | A successful resolution returns the id of the last element of the decoded `events` list. |
| `AttendeeCollector.GetAttendees` | src/main.rs:122-151 | The loop makes exactly the walk `IsWalk` describes. At least one request; the i-th request is for page i+1, so pages run 1, 2, … in order; each page before the last arrived and reported a page count above itself; the last page failed, giving `Err` with its reason, or reported a count of at most its own number, giving `Ok` with every page's attendees in page order. |
| `AttendeeCollector.AppendAll` | src/main.rs:145-147 | Pushing a page's attendees one by one leaves the accumulator as its old contents followed by the whole page, in page order. |
| `AttendeeCollector.WalkDetermined` | src/main.rs:126-148 | The remote responses fix the walk: only one fetch count and one result satisfy `IsWalk`. |
| `AttendeeCollector.RequestsDistinct` | src/main.rs:123-148 | No URL is requested twice: every page is fetched at most once. |
| `AttendeeCollector.LowReportEndsWalk` | src/main.rs:126-148 | A page reporting a page count no larger than its own number is the last one fetched, whatever earlier pages reported. |
| `AttendeeCollector.FailureEndsWalk` | src/main.rs:132-140 | The first page whose request or read fails is the last one requested, and the walk returns `Err` with that reason and no partial list. |
| `AttendeeCollector.SmallFirstCountFetchesOnce` | src/main.rs:123-126 | Page 1 is fetched even if it reports a page count of 0 or less. A first page reporting at most 1 is the only fetch, and the result is its attendees. |
| `AttendeeCollector.FixedSourceFetchesEveryPage` | src/main.rs:125-150 | If pages 1..P (P >= 1) all arrive reporting count P, exactly P fetches occur and the result is their attendees concatenated in page order, its length the sum of the page lengths. |
| `AttendeeCollector.CollectedLength` | src/main.rs:145-147 | The accumulator's length is the sum of the fetched pages' lengths. |
| `AttendeeCollector.CollectedPrefix` | src/main.rs:145-147 | The accumulator only grows at its end: what earlier pages contributed is never removed or reordered. |
| `AttendeeCollector.CollectedPageSlice` | src/main.rs:145-147 | Page k's attendees sit, in their own order, directly after those of pages 1..k-1. |

## Left out

- The TCP server (`listen_http_simple`, `handle_client`, `handle_read`, `handle_write`, src/main.rs:80-120): a thread-per-connection accept loop whose point is concurrency and socket I/O. Its response is a constant byte string.
- `main` (src/main.rs:58-78): the environment-variable read, the `panic!` on errors and the glue between the calls are process plumbing.
- `reqwest::get` and `read_to_string`: network I/O. They are replaced by the oracle parameter (`get` / `search`), whose `GetFailed` and `ReadFailed` outcomes stand for their two error returns.
- `json::decode(...).unwrap()`: a foreign library. The oracle returns decoded records, and the panic on a malformed body is not modelled.
- `println!` logging, including the page-count log. The logged URLs are returned by `GetAttendees` as `requested`.
- `String::from_utf8_lossy`, and the struct `Start` with its field `utc` (src/main.rs:27-29). `get_event_id` never reads it, so `Records.Event` has no `start` field.
- Protocol fields not consumed by the loop: `Pagination.page_number` is stored but never read, in the model as in `main.rs`.
- AttendeeCollector.GetAttendees: `page` and `page_count` are unbounded integers, so the `i32` overflow of `page += 1` at `i32::MAX` is not modelled. Instead, every page count reported for page 1 or above is required to be at most the ghost `bound`.
