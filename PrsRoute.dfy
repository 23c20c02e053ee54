/** The `GET /api/prs` handler (app/api/prs/route.ts): authentication and parameter guards,
    the retrieval of the repository's pull requests, and the leaderboard response. */
module PrsRoute {

  import opened Wrappers
  import opened Pagination
  import opened PullRequests
  import opened Leaderboard
  import opened Ranking

  /** The JSON body and status the handler answers with. */
  datatype Response =
    | Board(leaderboard: seq<RankedContributor>, totalPRs: nat, totalMembers: nat, since: Option<string>)
    | ErrorResponse(status: int, error: string)

  /** `since || null`: the window's text, echoed only when it is non-empty. */
  function SinceEcho(since: Option<Since>): (echo: Option<string>)
    ensures echo.Some? <==> Windowed(since)
    ensures echo.Some? ==> echo.value == since.value.text && echo.value != ""
  {
    if Windowed(since) then Some(since.value.text) else None
  }

  /** The response for a session's access token, the query parameters and the remote
      listing `pages` of `owner/repo`. */
  function Respond(accessToken: Option<string>, owner: Option<string>, repo: Option<string>,
                   since: Option<Since>, pages: seq<PageResponse<PullRequest>>): Response
  {
    if !Present(accessToken) then ErrorResponse(401, "Unauthorized")
    else if !Present(owner) || !Present(repo) then ErrorResponse(400, "Missing owner or repo parameters")
    else
      match FetchAll(pages, since)
      case FetchFailed(status, statusText) => ErrorResponse(status, "GitHub API error: " + statusText)
      case Fetched(prs) =>
        var board := Aggregate(prs);
        Board(board, |prs|, |board|, SinceEcho(since))
  }

  /** The handler: the guards, the retrieval loop, the grouping loop, then the ranking. */
  method Get(accessToken: Option<string>, owner: Option<string>, repo: Option<string>,
             since: Option<Since>, pages: seq<PageResponse<PullRequest>>) returns (resp: Response)
    ensures resp == Respond(accessToken, owner, repo, since, pages)
  {
    if !Present(accessToken) {
      return ErrorResponse(401, "Unauthorized");
    }
    if !Present(owner) || !Present(repo) {
      return ErrorResponse(400, "Missing owner or repo parameters");
    }
    var fetched := FetchPulls(pages, since);
    if fetched.FetchFailed? {
      return ErrorResponse(fetched.status, "GitHub API error: " + fetched.statusText);
    }
    var prs := fetched.items;
    var order, contributors := GroupByContributor(prs);
    var leaderboard := Derive(order, contributors, prs);
    resp := Board(leaderboard, |prs|, |leaderboard|, SinceEcho(since));
  }

  /** The handler answers with an error exactly when the session has no token, a parameter
      is missing or empty, or a requested page failed. It checks in that order; the two guard
      errors are told apart from remote failures by their messages (the remote listing may
      itself answer 401 or 400), and no error carries a 2xx status; `RemoteErrorFromLastPage`
      gives a remote error's status and message. A guard error does not depend on the
      listing: no page is requested. */
  lemma RespondErrors(accessToken: Option<string>, owner: Option<string>, repo: Option<string>,
                      since: Option<Since>, pages: seq<PageResponse<PullRequest>>)
    ensures var resp := Respond(accessToken, owner, repo, since, pages);
            resp.ErrorResponse? <==>
              !Present(accessToken) || !Present(owner) || !Present(repo) || FetchAll(pages, since).FetchFailed?
    ensures var resp := Respond(accessToken, owner, repo, since, pages);
            resp.ErrorResponse? ==>
              (resp == ErrorResponse(401, "Unauthorized") <==> !Present(accessToken))
              && (resp == ErrorResponse(400, "Missing owner or repo parameters")
                  <==> Present(accessToken) && (!Present(owner) || !Present(repo)))
              && !(200 <= resp.status <= 299)
  {
    FailedOutcome(pages, 1, WindowFilter(since));
    var fetched := FetchAll(pages, since);
    if fetched.FetchFailed? {
      var message := "GitHub API error: " + fetched.statusText;
      assert message[0] == 'G';
      assert message != "Unauthorized" && message != "Missing owner or repo parameters";
    }
  }

  /** Past the guards, a failed retrieval is answered with the status of the last page
      requested, the first one that was not 2xx, and "GitHub API error: " followed by that
      page's status text. */
  lemma RemoteErrorFromLastPage(accessToken: Option<string>, owner: Option<string>, repo: Option<string>,
                                since: Option<Since>, pages: seq<PageResponse<PullRequest>>)
    ensures var last := PageAt(pages, FirstEnd(pages, 1, WindowFilter(since)));
            Present(accessToken) && Present(owner) && Present(repo) && FetchAll(pages, since).FetchFailed? ==>
              Respond(accessToken, owner, repo, since, pages)
                == ErrorResponse(last.status, "GitHub API error: " + last.statusText)
  {
    FetchClosedForm(pages, 1, WindowFilter(since));
  }

  /** A guard error does not depend on the listing: no page is requested. */
  lemma GuardErrorsRequestNothing(accessToken: Option<string>, owner: Option<string>, repo: Option<string>,
                                  since: Option<Since>, pages: seq<PageResponse<PullRequest>>)
    requires !Present(accessToken) || !Present(owner) || !Present(repo)
    ensures forall other :: Respond(accessToken, owner, repo, since, other) == Respond(accessToken, owner, repo, since, pages)
    ensures Respond(accessToken, owner, repo, since, pages)
         == if !Present(accessToken) then ErrorResponse(401, "Unauthorized")
            else ErrorResponse(400, "Missing owner or repo parameters")
  {
  }

  /** A successful response: the totals are the number of records retrieved and of distinct
      authors, every authored record is counted once, and under a window every listed pull
      request was created at or after the window's start. */
  lemma RespondLeaderboard(accessToken: Option<string>, owner: Option<string>, repo: Option<string>,
                           since: Option<Since>, pages: seq<PageResponse<PullRequest>>)
    requires Present(accessToken) && Present(owner) && Present(repo)
    requires FetchAll(pages, since).Fetched?
    ensures var resp := Respond(accessToken, owner, repo, since, pages);
            var prs := FetchAll(pages, since).items;
            && resp.Board?
            && resp.totalPRs == |prs|
            && resp.totalMembers == |resp.leaderboard| == |AuthorSet(prs)|
            && SumCounts(Unranked(resp.leaderboard)) == CountAuthored(prs) <= resp.totalPRs
            && resp.since == SinceEcho(since)
    ensures var resp := Respond(accessToken, owner, repo, since, pages);
            Windowed(since) && since.value.instant.At? ==>
              forall i, k :: 0 <= i < |resp.leaderboard| && 0 <= k < |resp.leaderboard[i].contributor.prs| ==>
                resp.leaderboard[i].contributor.prs[k].createdAt >= since.value.instant.millis
  {
    var prs := FetchAll(pages, since).items;
    var board := Aggregate(prs);
    AggregateMembers(prs);
    AggregateCounts(prs);
    CountAuthoredBound(prs);
    if Windowed(since) && since.value.instant.At? {
      FetchedInWindow(pages, since);
      forall i, k | 0 <= i < |board| && 0 <= k < |board[i].contributor.prs|
        ensures board[i].contributor.prs[k].createdAt >= since.value.instant.millis
      {
        var u := board[i].contributor.username;
        PrsOfFrom(prs, u);
        assert board[i].contributor.prs[k] in PrsOf(prs, u);
        var j :| 0 <= j < |prs| && Login(prs[j]) == u && board[i].contributor.prs[k] == Summarize(prs[j]);
        assert prs[j] in prs;
      }
    }
  }

  lemma {:induction false} CountAuthoredBound(prs: seq<PullRequest>)
    ensures CountAuthored(prs) <= |prs|
    decreases |prs|
  {
    if prs != [] {
      CountAuthoredBound(prs[..|prs| - 1]);
    }
  }

  /** A full first page followed by a failed second one answers with the failure's status and
      text; the records of page 1 are not returned. */
  lemma FailureAfterFullPage(accessToken: string, owner: string, repo: string,
                             first: seq<PullRequest>, status: int, statusText: string, rest: seq<PageResponse<PullRequest>>)
    requires accessToken != "" && owner != "" && repo != ""
    requires |first| == PerPage && !(200 <= status <= 299)
    ensures Respond(Some(accessToken), Some(owner), Some(repo), None,
                    [PageResponse(200, "OK", first), PageResponse(status, statusText, [])] + rest)
         == ErrorResponse(status, "GitHub API error: " + statusText)
  {
    var pages := [PageResponse(200, "OK", first), PageResponse(status, statusText, [])] + rest;
    assert PageAt(pages, 1).body == first;
    assert !PageAt(pages, 2).Ok();
    assert FetchFrom(pages, 2, None) == FetchFailed(status, statusText);
  }
}
