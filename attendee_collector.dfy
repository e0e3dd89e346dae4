/**
 * Collecting an event's attendees: walk the attendees pages 1, 2, … of the
 * remote API, re-reading the page count from every response, and append
 * each page's attendees to one accumulator.
 */
module AttendeeCollector {
  import opened Records
  import Urls

  /** The remote API (keyed by URL) answering the request for `page`. */
  function Response(get: string -> Fetch<EventDetail>, eventId: string, token: string, page: int): Fetch<EventDetail>
  {
    get(Urls.AttendeesUrl(eventId, page, token))
  }

  /** The attendees a response contributes: those of a fetched page, none otherwise. */
  function PageAttendees(f: Fetch<EventDetail>): seq<Attendee>
  {
    if f.Fetched? then f.value.attendees else []
  }

  /** After fetching `page`, the loop goes on to `page + 1`: the page arrived and reports more pages. */
  predicate GoesOn(f: Fetch<EventDetail>, page: int)
  {
    f.Fetched? && page + 1 <= f.value.pagination.pageCount
  }

  /** The page source is finite: no page from 1 on reports more than `bound` pages. */
  ghost predicate Bounded(get: string -> Fetch<EventDetail>, eventId: string, token: string, bound: nat)
  {
    forall page :: 1 <= page ==>
      var f := Response(get, eventId, token, page);
      f.Fetched? ==> f.value.pagination.pageCount <= bound
  }

  /** The attendees of pages 1..n, in page order. */
  function Collected(get: string -> Fetch<EventDetail>, eventId: string, token: string, n: nat): seq<Attendee>
  {
    if n == 0 then [] else Collected(get, eventId, token, n - 1) + PageAttendees(Response(get, eventId, token, n))
  }

  /** The number of attendees pages 1..n list between them. */
  function TotalListed(get: string -> Fetch<EventDetail>, eventId: string, token: string, n: nat): nat
  {
    if n == 0 then 0 else TotalListed(get, eventId, token, n - 1) + |PageAttendees(Response(get, eventId, token, n))|
  }

  /**
   * The walk fetches exactly pages 1..n and returns r: it fetches at least
   * page 1; every page before n arrived and reported a page count above
   * itself; page n failed (and r is that failure) or arrived reporting a
   * page count of at most n (and r is every page's attendees in order).
   */
  ghost predicate IsWalk(get: string -> Fetch<EventDetail>, eventId: string, token: string, n: nat, r: Result<seq<Attendee>>)
  {
    && 1 <= n
    && (forall k :: 1 <= k < n ==> GoesOn(Response(get, eventId, token, k), k))
    && var last := Response(get, eventId, token, n);
       if last.Failed() then r == Err(FailureReason(last))
       else last.value.pagination.pageCount <= n && r == Ok(Collected(get, eventId, token, n))
  }

  /** `for attendee in page { attendees.push(attendee) }`: pushes every attendee of the page, in order. */
  method AppendAll(attendees: seq<Attendee>, page: seq<Attendee>) returns (grown: seq<Attendee>)
    ensures grown == attendees + page
  {
    grown := attendees;
    var i := 0;
    while i < |page|
      invariant 0 <= i <= |page|
      invariant grown == attendees + page[..i]
    {
      grown := grown + [page[i]];
      i := i + 1;
    }
    assert page[..i] == page;
  }

  /**
   * `get_attendees`. Also returns the URLs it requested, in request order
   * (the URL `get_attendees` prints before each request).
   */
  method GetAttendees(token: string, eventId: string, get: string -> Fetch<EventDetail>, ghost bound: nat)
    returns (r: Result<seq<Attendee>>, requested: seq<string>)
    requires Bounded(get, eventId, token, bound)
    ensures IsWalk(get, eventId, token, |requested|, r)
    ensures forall i :: 0 <= i < |requested| ==> requested[i] == Urls.AttendeesUrl(eventId, i + 1, token)
  {
    ghost var most := if bound < 1 then 1 else bound;
    var page := 1;
    var pageCount := 1;
    var attendees: seq<Attendee> := [];
    requested := [];
    while page <= pageCount
      invariant 1 <= page <= most + 1
      invariant pageCount <= most
      invariant |requested| == page - 1
      invariant forall i :: 0 <= i < |requested| ==> requested[i] == Urls.AttendeesUrl(eventId, i + 1, token)
      invariant forall k :: 1 <= k < page - 1 ==> GoesOn(Response(get, eventId, token, k), k)
      invariant page == 1 ==> pageCount == 1
      invariant page > 1 ==> Response(get, eventId, token, page - 1).Fetched? &&
                              pageCount == Response(get, eventId, token, page - 1).value.pagination.pageCount
      invariant attendees == Collected(get, eventId, token, page - 1)
      decreases most + 1 - page
    {
      var url := Urls.AttendeesUrl(eventId, page, token);
      requested := requested + [url];
      var response := get(url);
      match response {
        case GetFailed(reason) =>
          r := Err(reason);
          return;
        case ReadFailed(reason) =>
          r := Err(reason);
          return;
        case Fetched(detail) =>
          assert Response(get, eventId, token, page) == response;
          pageCount := detail.pagination.pageCount;
          attendees := AppendAll(attendees, detail.attendees);
      }
      page := page + 1;
    }
    r := Ok(attendees);
  }

  /** The walk's outcome is determined by the remote API: one fetch count, one result. */
  lemma WalkDetermined(get: string -> Fetch<EventDetail>, eventId: string, token: string,
                       n1: nat, r1: Result<seq<Attendee>>, n2: nat, r2: Result<seq<Attendee>>)
    requires IsWalk(get, eventId, token, n1, r1)
    requires IsWalk(get, eventId, token, n2, r2)
    ensures n1 == n2 && r1 == r2
  {
  }

  /** The requests are for pages 1, 2, … in turn, so no page is requested twice. */
  lemma RequestsDistinct(eventId: string, token: string, requested: seq<string>)
    requires forall i :: 0 <= i < |requested| ==> requested[i] == Urls.AttendeesUrl(eventId, i + 1, token)
    ensures forall i, j :: 0 <= i < j < |requested| ==> requested[i] != requested[j]
  {
    forall i, j | 0 <= i < j < |requested|
      ensures requested[i] != requested[j]
    {
      if requested[i] == requested[j] {
        Urls.AttendeesUrlInjective(eventId, token, i + 1, j + 1);
      }
    }
  }

  /**
   * A page count that does not exceed the page just fetched ends the walk
   * there, whatever the earlier pages reported.
   */
  lemma LowReportEndsWalk(get: string -> Fetch<EventDetail>, eventId: string, token: string,
                          n: nat, r: Result<seq<Attendee>>, k: int)
    requires IsWalk(get, eventId, token, n, r)
    requires 1 <= k
    requires Response(get, eventId, token, k).Fetched?
    requires Response(get, eventId, token, k).value.pagination.pageCount <= k
    ensures n <= k
  {
  }

  /**
   * A failed page is the last one requested, and the whole walk fails with
   * its reason: no later page is fetched and no partial list is returned.
   */
  lemma FailureEndsWalk(get: string -> Fetch<EventDetail>, eventId: string, token: string,
                        n: nat, r: Result<seq<Attendee>>, k: int)
    requires IsWalk(get, eventId, token, n, r)
    requires 1 <= k && Response(get, eventId, token, k).Failed()
    requires forall j :: 1 <= j < k ==> GoesOn(Response(get, eventId, token, j), j)
    ensures n == k && r == Err(FailureReason(Response(get, eventId, token, k)))
  {
  }

  /**
   * Page 1 is always fetched, and a first page reporting a page count of 1
   * or less (0 included) is the only one: the result is its attendees.
   */
  lemma SmallFirstCountFetchesOnce(get: string -> Fetch<EventDetail>, eventId: string, token: string,
                                   n: nat, r: Result<seq<Attendee>>)
    requires IsWalk(get, eventId, token, n, r)
    requires Response(get, eventId, token, 1).Fetched?
    requires Response(get, eventId, token, 1).value.pagination.pageCount <= 1
    ensures n == 1 && r == Ok(Response(get, eventId, token, 1).value.attendees)
  {
    LowReportEndsWalk(get, eventId, token, n, r, 1);
    assert Collected(get, eventId, token, 1) == Response(get, eventId, token, 1).value.attendees;
  }

  /**
   * A fixed source of P >= 1 pages, each reporting page count P, is walked
   * with exactly P requests, and the result is all of its attendees.
   */
  lemma FixedSourceFetchesEveryPage(get: string -> Fetch<EventDetail>, eventId: string, token: string,
                                    pages: nat, n: nat, r: Result<seq<Attendee>>)
    requires 1 <= pages
    requires forall k :: 1 <= k <= pages ==>
               Response(get, eventId, token, k).Fetched? &&
               Response(get, eventId, token, k).value.pagination.pageCount == pages
    requires IsWalk(get, eventId, token, n, r)
    ensures n == pages
    ensures r == Ok(Collected(get, eventId, token, pages))
    ensures |r.value| == TotalListed(get, eventId, token, pages)
  {
    LowReportEndsWalk(get, eventId, token, n, r, pages);
    assert !GoesOn(Response(get, eventId, token, n), n);
    CollectedLength(get, eventId, token, pages);
  }

  /** The accumulator holds as many attendees as the pages list between them. */
  lemma {:induction false} CollectedLength(get: string -> Fetch<EventDetail>, eventId: string, token: string, n: nat)
    ensures |Collected(get, eventId, token, n)| == TotalListed(get, eventId, token, n)
  {
    if n > 0 {
      CollectedLength(get, eventId, token, n - 1);
    }
  }

  /** The accumulator only grows at its end: what pages 1..m gave stays in front. */
  lemma {:induction false} CollectedPrefix(get: string -> Fetch<EventDetail>, eventId: string, token: string, m: nat, n: nat)
    requires m <= n
    ensures Collected(get, eventId, token, m) <= Collected(get, eventId, token, n)
  {
    if m < n {
      CollectedPrefix(get, eventId, token, m, n - 1);
    }
  }

  /**
   * Page k's attendees, in their own order, sit right after those of pages
   * 1..k-1 in the accumulator.
   */
  lemma CollectedPageSlice(get: string -> Fetch<EventDetail>, eventId: string, token: string, k: nat, n: nat)
    requires 1 <= k <= n
    ensures TotalListed(get, eventId, token, k) <= |Collected(get, eventId, token, n)|
    ensures Collected(get, eventId, token, n)[TotalListed(get, eventId, token, k - 1)..TotalListed(get, eventId, token, k)]
            == PageAttendees(Response(get, eventId, token, k))
  {
    CollectedLength(get, eventId, token, k - 1);
    CollectedLength(get, eventId, token, k);
    CollectedPrefix(get, eventId, token, k, n);
    var before := Collected(get, eventId, token, k - 1);
    var upTo := Collected(get, eventId, token, k);
    assert upTo[|before|..] == PageAttendees(Response(get, eventId, token, k));
    var all := Collected(get, eventId, token, n);
    assert all[..|upTo|] == upTo;
    assert all[|before|..|upTo|] == all[..|upTo|][|before|..];
  }
}
