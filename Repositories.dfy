/** The `GET /api/repositories` handler (app/api/repositories/route.ts): every repository the
    signed-in user can access, page by page, projected to the fields the page needs. */
module Repositories {

  import opened Wrappers
  import opened Pagination

  datatype Owner = Owner(login: string)

  /** A repository as the listing returns it. */
  datatype Repo = Repo(fullName: string, name: string, owner: Owner)

  /** `{ full_name, name, owner }` as the handler returns it. */
  datatype FormattedRepo = FormattedRepo(fullName: string, name: string, owner: string)

  datatype RepoResponse =
    | Listing(repositories: seq<FormattedRepo>)
    | RepoError(status: int, error: string)

  function Format(repo: Repo): FormattedRepo {
    FormattedRepo(repo.fullName, repo.name, repo.owner.login)
  }

  /** `repositories.map(...)`. */
  function FormatAll(repos: seq<Repo>): (out: seq<FormattedRepo>)
    ensures |out| == |repos|
  {
    seq(|repos|, i requires 0 <= i < |repos| => Format(repos[i]))
  }

  /** The response for a session's access token and the remote listing `pages`. */
  function RespondRepos(accessToken: Option<string>, pages: seq<PageResponse<Repo>>): RepoResponse {
    if !Present(accessToken) then RepoError(401, "Unauthorized")
    else
      match FetchFrom(pages, 1, None)
      case FetchFailed(status, statusText) => RepoError(status, "GitHub API error: " + statusText)
      case Fetched(repos) => Listing(FormatAll(repos))
  }

  /** The handler with its `while (hasMore)` loop: no filter, so only a failed, empty or short
      page ends the retrieval. */
  method Get(accessToken: Option<string>, pages: seq<PageResponse<Repo>>) returns (resp: RepoResponse)
    ensures resp == RespondRepos(accessToken, pages)
  {
    if !Present(accessToken) {
      return RepoError(401, "Unauthorized");
    }
    var repositories: seq<Repo> := [];
    var page: nat := 1;
    var hasMore := true;
    while hasMore
      invariant 1 <= page <= |pages| + 1
      invariant FetchFrom(pages, 1, None)
             == if hasMore then Prepend(repositories, FetchFrom(pages, page, None)) else Fetched(repositories)
      decreases hasMore, |pages| + 1 - page
    {
      var response := PageAt(pages, page);
      FetchStep(pages, page, None, repositories);
      if !response.Ok() {
        return RepoError(response.status, "GitHub API error: " + response.statusText);
      }
      var data := response.body;
      if |data| == 0 {
        hasMore := false;
        break;
      }
      repositories := repositories + data;
      if |data| < PerPage {
        hasMore := false;
      } else {
        page := page + 1;
      }
    }
    resp := Listing(FormatAll(repositories));
  }

  /** Each listed entry is the projection of the repository at the same position: the order of
      the listing is kept and nothing is added or dropped. */
  lemma FormatAllKeepsOrder(repos: seq<Repo>)
    ensures forall i :: 0 <= i < |repos| ==>
              && FormatAll(repos)[i].fullName == repos[i].fullName
              && FormatAll(repos)[i].name == repos[i].name
              && FormatAll(repos)[i].owner == repos[i].owner.login
    ensures forall a, b :: FormatAll(a + b) == FormatAll(a) + FormatAll(b)
  {
    forall a: seq<Repo>, b: seq<Repo> ensures FormatAll(a + b) == FormatAll(a) + FormatAll(b) {
      assert forall i :: 0 <= i < |a| ==> (a + b)[i] == a[i];
      assert forall i :: |a| <= i < |a| + |b| ==> (a + b)[i] == b[i - |a|];
    }
  }

  /** Without a token the answer is 401; with one, an error exactly when the last requested page
      failed, carrying its non-2xx status; otherwise the projection of every repository on the
      requested pages, in page order. */
  lemma RespondReposOutcome(accessToken: Option<string>, pages: seq<PageResponse<Repo>>)
    ensures !Present(accessToken) ==>
              forall other :: RespondRepos(accessToken, other) == RepoError(401, "Unauthorized")
    ensures var resp := RespondRepos(accessToken, pages);
            var k := FirstEnd(pages, 1, None);
            Present(accessToken) ==>
              && (resp.RepoError? <==> !PageAt(pages, k).Ok())
              && (resp.RepoError? ==> resp.status == PageAt(pages, k).status && !(200 <= resp.status <= 299))
              && (resp.Listing? ==> resp.repositories == FormatAll(Collected(pages, 1, k + 1, None)))
  {
    FetchClosedForm(pages, 1, None);
    FailedOutcome(pages, 1, None);
  }
}
