/** Pull-request records of the remote listing and the retrieval loop of the leaderboard route
    (app/api/prs/route.ts), with its optional creation-time window. */
module PullRequests {

  import opened Wrappers
  import opened Pagination

  /** The `user` object of a record: its login and optional avatar URL. */
  datatype User = User(login: string, avatarUrl: Option<string>)

  /** A pull request as the listing returns it; times are milliseconds since the epoch. */
  datatype PullRequest = PullRequest(
    number: int,
    title: string,
    state: string,
    user: Option<User>,
    createdAt: int,
    mergedAt: Option<int>,
    htmlUrl: string)

  /** The value `new Date(...)` yields for the `since` text: an instant, or an invalid date. */
  datatype Instant = At(millis: int) | InvalidDate

  /** The `since` query parameter: its text and the instant that text denotes. */
  datatype Since = Since(text: string, instant: Instant)

  /** `pr.user?.login`, with an absent user or login read as "". */
  function Login(pr: PullRequest): string {
    if pr.user.Some? then pr.user.value.login else ""
  }

  /** `new Date(pr.created_at) >= sinceDate`: false for every record when the date is invalid. */
  predicate InWindow(since: Instant, pr: PullRequest) {
    match since
    case At(t) => pr.createdAt >= t
    case InvalidDate => false
  }

  /** `if (since)`: the window is applied only for a non-empty `since` parameter. */
  predicate Windowed(since: Option<Since>) {
    since.Some? && since.value.text != ""
  }

  /** The filter the retrieval applies to each page. */
  function WindowFilter(since: Option<Since>): (f: Option<PullRequest -> bool>)
    ensures f.Some? <==> Windowed(since)
    ensures Windowed(since) ==> forall pr :: f.value(pr) == InWindow(since.value.instant, pr)
  {
    if Windowed(since) then Some(pr => InWindow(since.value.instant, pr)) else None
  }

  /** The retrieval the route performs: pages 1, 2, ... until a page ends it. */
  function FetchAll(pages: seq<PageResponse<PullRequest>>, since: Option<Since>): Fetch<PullRequest>
  {
    FetchFrom(pages, 1, WindowFilter(since))
  }

  /** The `while (hasMore)` loop: each page is requested in turn, a failed response aborts with
      its status, and the kept records are appended to `prs`. */
  method FetchPulls(pages: seq<PageResponse<PullRequest>>, since: Option<Since>) returns (r: Fetch<PullRequest>)
    ensures r == FetchAll(pages, since)
  {
    var filter := WindowFilter(since);
    var prs: seq<PullRequest> := [];
    var page: nat := 1;
    var hasMore := true;
    while hasMore
      invariant 1 <= page <= |pages| + 1
      invariant FetchAll(pages, since) == if hasMore then Prepend(prs, FetchFrom(pages, page, filter)) else Fetched(prs)
      decreases hasMore, |pages| + 1 - page
    {
      var response := PageAt(pages, page);
      FetchStep(pages, page, filter, prs);
      if !response.Ok() {
        return FetchFailed(response.status, response.statusText);
      }
      var data := response.body;
      if |data| == 0 {
        hasMore := false;
        break;
      }
      if Windowed(since) {
        var filtered := Filter(data, filter.value);
        prs := prs + filtered;
        if |filtered| < |data| {
          hasMore := false;
        }
      } else {
        prs := prs + data;
      }
      if |data| < PerPage {
        hasMore := false;
      } else {
        page := page + 1;
      }
    }
    r := Fetched(prs);
  }

  /** Every record kept under a window lies in it; an invalid `since` date keeps nothing. */
  lemma FetchedInWindow(pages: seq<PageResponse<PullRequest>>, since: Option<Since>)
    requires Windowed(since) && FetchAll(pages, since).Fetched?
    ensures forall pr :: pr in FetchAll(pages, since).items ==> InWindow(since.value.instant, pr)
    ensures since.value.instant == InvalidDate ==> FetchAll(pages, since).items == []
  {
    var filter := WindowFilter(since);
    FetchClosedForm(pages, 1, filter);
    var k := FirstEnd(pages, 1, filter);
    CollectedFrom(pages, 1, k + 1, filter);
    var items := FetchAll(pages, since).items;
    if since.value.instant == InvalidDate && items != [] {
      assert !InWindow(InvalidDate, items[0]);
    }
  }

  /** The early stop: after a full first page the window keeps whole, a full second page the
      window thins out ends the retrieval with page 1 and the in-window part of page 2; page 3
      is never requested. */
  lemma StopsWhereWindowCuts(pages: seq<PageResponse<PullRequest>>, since: Option<Since>)
    requires Windowed(since) && |pages| >= 2
    requires pages[0].Ok() && |pages[0].body| == PerPage
    requires Filter(pages[0].body, WindowFilter(since).value) == pages[0].body
    requires pages[1].Ok() && |pages[1].body| == PerPage
    requires |Filter(pages[1].body, WindowFilter(since).value)| < PerPage
    ensures FirstEnd(pages, 1, WindowFilter(since)) == 2
    ensures FetchAll(pages, since)
         == Fetched(pages[0].body + Filter(pages[1].body, WindowFilter(since).value))
  {
    var filter := WindowFilter(since);
    assert !Ends(PageAt(pages, 1), filter);
    assert Ends(PageAt(pages, 2), filter);
    FetchClosedForm(pages, 1, filter);
    assert Collected(pages, 1, 3, filter) == pages[0].body + (Filter(pages[1].body, filter.value) + []);
  }

  /** No in-window record of a requested page is lost: a successful retrieval returns every
      record of pages 1 .. FirstEnd that lies in the window (every record, without one). */
  lemma InWindowReachesResult(pages: seq<PageResponse<PullRequest>>, since: Option<Since>, j: nat, pr: PullRequest)
    requires FetchAll(pages, since).Fetched?
    requires 1 <= j <= FirstEnd(pages, 1, WindowFilter(since))
    requires pr in PageAt(pages, j).body
    requires Windowed(since) ==> InWindow(since.value.instant, pr)
    ensures pr in FetchAll(pages, since).items
  {
    var filter := WindowFilter(since);
    var k := FirstEnd(pages, 1, filter);
    FetchClosedForm(pages, 1, filter);
    CollectedHas(pages, 1, k + 1, filter, j, pr);
  }
}
