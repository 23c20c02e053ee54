# PR leaderboard — a Dafny model

This project models the core of a small web application that ranks the contributors of a
GitHub repository by pull-request count. The model covers:

- **The `GET /api/prs` route.** It has the authentication and parameter guards and a paginated
  retrieval of the repository's pull requests, 100 per page. Under an optional `since` window it
  keeps only records created at or after the window's start, and it stops at the first page the
  window thins out. The records are grouped by author login. The leaderboard is then built from
  the groups: sorted stably by count, ranked 1..M, and scored 100 for rank 1 and
  round(100·(M−r+1)/M) otherwise.
- **The `GET /api/repositories` route.** It runs the same retrieval loop without a filter and
  projects each repository to its full name, name and owner login.
- **The home page's string helpers.** These are the conversions between `yyyy-mm-dd` and
  `dd-mm-yyyy`, the RFC 3339 date-time sent as `since`, the `owner/name` split of the repository
  picker, and the guard and query parameters of the leaderboard request.

The remote listing is a finite sequence of page responses: a status, a status text and a
decoded body. A page past its end is an empty `200` page, so every retrieval terminates. The two
loops are imperative methods, proved equal to one shared specification function,
`Pagination.FetchFrom`. That function is given a closed form: the pages requested are 1 up to
the first page that ends the retrieval, and the result is the in-window part of each one, in
order.

The grouping loop is a method that updates a map. Next to the map it keeps the map's key
insertion order, on which the stable tie-break depends. It is proved equal to the functions
`FirstSeen` and `Grouped`, which add one record at a time; a lemma gives each login's entry in
closed form: the count and the summaries of that login's records, in fetch order. The
leaderboard derivation is pure: it is an insertion sort proved sorted, a permutation and stable. Stability is proved in its strongest form: the result is the
only sequence that is sorted by count and keeps the relative order of equal counts.

Modules: `Wrappers` (Option and Result), `Strings` (JavaScript `split`/`join` on one
character), `Pagination`, `PullRequests`, `Leaderboard` (grouping), `Ranking` (sort, ranks,
scores, leaderboard properties), `PrsRoute`, `Repositories` and `HomePage`.

Inputs that come from outside the code are parameters:

- the session's access token is an `Option<string>`;
- the query parameters are `Option<string>`;
- the remote listing is a sequence of page responses;
- the instant that `new Date(since)` yields is part of the `Since` value, either milliseconds
  or an invalid date;
- `created_at` is an integer in milliseconds.

JavaScript truthiness is written out: both a missing value and `""` are falsy.

## Model

| member | source | states |
|---|---|---|
| Pagination.PageAt | app/api/prs/route.ts:34-41 | the response to the request for page `page`; a page past the end of the listing is an empty `200` page |
| Pagination.Filter | app/api/prs/route.ts:60-63 | each kept record is on the page and satisfies the predicate; the length is unchanged exactly when every record satisfies it |
| Pagination.FilterKeepsAccepted | app/api/prs/route.ts:60-63 | conversely, every record of the page that satisfies the predicate is kept |
| Pagination.FilterAppend | app/api/prs/route.ts:60-63 | filtering a concatenation is the concatenation of the filtered parts, and a single record is kept exactly when it satisfies the predicate, so the kept records keep the page's order |
| Pagination.Kept | app/api/prs/route.ts:57-73 | what a page adds to `prs`: its filtered records under a window (line 65), all of them otherwise (line 72); its properties are those of `Filter` |
| Pagination.Ends | app/api/prs/route.ts:43-80 | the exits of one iteration: a non-2xx response, an empty page, a page the filter thinned, or a page shorter than 100; `FirstEnd` and `BeforeLastPage` state what follows from it |
| Pagination.FetchFrom | app/api/prs/route.ts:33-81 | the `while (hasMore)` loop from page `page` on, one page per step; `FetchClosedForm`, `FailedOutcome` and `FetchIgnoresLaterPages` give its outcome, and both loops are proved equal to it |
| Pagination.FirstEnd | app/api/prs/route.ts:33-81 | the last page requested is the first, counting from the start page, that fails, is empty, is short or was thinned by the filter; no earlier page ends the retrieval |
| Pagination.FetchClosedForm | app/api/prs/route.ts:33-81 | a retrieval fails with the status and text of the last page requested if that page is not 2xx; otherwise it returns the kept records of pages 1..FirstEnd, concatenated in page order |
| Pagination.FailedOutcome | app/api/prs/route.ts:43-48 | a retrieval fails exactly when the last page it requests is not 2xx; the failure carries that page's status, which is never 2xx |
| Pagination.BeforeLastPage | app/api/prs/route.ts:68-80 | the page number advances only past a successful page with at least 100 records that the filter kept whole |
| Pagination.FetchIgnoresLaterPages | app/api/prs/route.ts:33-81 | pages after the one that ends the retrieval are never looked at: any listing that agrees up to it gives the same outcome |
| Pagination.CollectedFrom | app/api/prs/route.ts:58-73 | every collected record comes from a requested page, and under a filter it satisfies the filter |
| Pagination.CollectedHas | app/api/prs/route.ts:58-73 | conversely, every record of a collected page that the filter, if any, accepts is collected |
| Pagination.ThreePages | app/api/repositories/route.ts:41-53 | without a filter, pages of 100, 100 and 37 records give exactly those records in order, and the fourth page is not requested |
| PullRequests.Login | app/api/prs/route.ts:87 | `pr.user?.login`, an absent user read as "" (falsy, so the record is skipped) |
| PullRequests.WindowFilter | app/api/prs/route.ts:58-63 | the window filter is active exactly for a non-empty `since`, and it keeps the records created at or after the parsed instant |
| PullRequests.Windowed | app/api/prs/route.ts:58 | `if (since)`: the window applies exactly when a non-empty `since` was given |
| PullRequests.InWindow | app/api/prs/route.ts:59-62 | `new Date(pr.created_at) >= sinceDate`: the record was created at or after the instant, and no record passes for an invalid date |
| PullRequests.FetchAll | app/api/prs/route.ts:28-81 | the retrieval from page 1 under the window filter of `since`; `FetchedInWindow` and `InWindowReachesResult` state what it returns |
| PullRequests.FetchPulls | app/api/prs/route.ts:28-81 | the retrieval loop returns exactly the specified retrieval `FetchAll`: records of pages 1..FirstEnd, filtered, or the first failure |
| PullRequests.FetchedInWindow | app/api/prs/route.ts:58-65 | under a window every retrieved record was created at or after its start; an unparsable `since` retrieves nothing |
| PullRequests.InWindowReachesResult | app/api/prs/route.ts:58-73 | a successful retrieval contains every record of pages 1..FirstEnd that lies in the window, or every record without a window |
| PullRequests.StopsWhereWindowCuts | app/api/prs/route.ts:67-70 | after a full page the window keeps whole, a full page the window thins ends the retrieval: page 3 is not requested and the result is page 1 plus the in-window part of page 2 |
| Leaderboard.Summarize | app/api/prs/route.ts:96-103 | the summary pushed for a record: number, title, state, creation and merge times, and URL |
| Leaderboard.FirstSeen | app/api/prs/route.ts:86-94 | the dictionary's key insertion order, which `Object.entries` at line 108 follows: each non-empty login at its first record; `FirstSeenAuthors` and `Ranking.FirstSeenOrder` state its properties |
| Leaderboard.PrsOf | app/api/prs/route.ts:95-103 | the summaries pushed for one login, in fetch order; `GroupedValues`, `PrsOfFrom` and `SumLengthsFirstSeen` state its properties |
| Leaderboard.Bump | app/api/prs/route.ts:89-103 | one record's update of the dictionary: an empty accumulator is created for a new login, then its count is bumped and the summary appended; `GroupedValues` states the result |
| Leaderboard.FirstSeenAuthors | app/api/prs/route.ts:86-94 | the dictionary's insertion order lists every non-empty login once and no other name |
| Ranking.FirstSeenOrder | app/api/prs/route.ts:86-94 | every login of the insertion order has a record, and the logins are listed in the order of their first records, the order `Object.entries` at line 108 hands to the stable sort |
| Leaderboard.Grouped | app/api/prs/route.ts:84-105 | the dictionary built record by record has exactly the logins first met as its keys |
| Leaderboard.GroupedValues | app/api/prs/route.ts:86-105 | each login's accumulator counts, and lists in fetch order, exactly the summaries of that login's records |
| Leaderboard.AddRecord | app/api/prs/route.ts:87-104 | one record: an author-less one changes nothing; a new login joins the insertion order; the login's count is bumped and its summary appended |
| Leaderboard.GroupByContributor | app/api/prs/route.ts:84-105 | the grouping loop yields the insertion order `FirstSeen` and the dictionary `Grouped` of the whole list |
| Leaderboard.SumLengthsFirstSeen | app/api/prs/route.ts:86-96 | summed over all authors, the list lengths equal the number of records that have a login |
| Leaderboard.PrsOfFrom | app/api/prs/route.ts:95-103 | every summary in a login's list is the summary of a record with that login |
| Leaderboard.GroupAsWritten | app/api/prs/route.ts:89-96 | on a plain object whose inherited member names are `inherited` (never ""), the grouping fails exactly when some login is one of them; otherwise it gives the intended grouping |
| Ranking.FirstWithLogin | app/api/prs/route.ts:113 | `find` returns the first index whose login matches, or nothing when no record matches |
| Ranking.Avatar | app/api/prs/route.ts:113 | `prs.find(...)?.user?.avatar_url \|\| ""`; `AvatarOfFirst` states that it is the first matching record's avatar |
| Ranking.Entries | app/api/prs/route.ts:108-114 | `Object.entries(contributors).map(...)`: entry k carries login k of the insertion order, its count, its summaries and its avatar |
| Ranking.SortByCount | app/api/prs/route.ts:115 | the sort, as an insertion sort with the same length as its input; the sort lemmas below state that it is sorted, a permutation and stable |
| Ranking.AvatarOfFirst | app/api/prs/route.ts:113 | a contributor's avatar is the avatar URL of the first record with that login |
| Ranking.SortSortsAndPermutes | app/api/prs/route.ts:115 | the sort orders entries by non-increasing count and is a permutation of its input |
| Ranking.SortStable | app/api/prs/route.ts:115 | for every count, the entries with that count keep their relative order |
| Ranking.SortedUnique | app/api/prs/route.ts:115 | two sequences that are sorted by count and agree on the order of each count's entries are equal |
| Ranking.SortByCountIsStableSort | app/api/prs/route.ts:115 | the sort's result is the one sequence that is sorted by count, a permutation, and stable |
| Ranking.SortSum | app/api/prs/route.ts:115 | sorting keeps the total count |
| Ranking.SortDistinct | app/api/prs/route.ts:115 | sorting keeps usernames distinct |
| Ranking.Score | app/api/prs/route.ts:123-129 | scores lie in 0..100, rank 1 scores 100, and any other rank scores the round-half-up of 100·(M−r+1)/M |
| Ranking.ScoreMonotone | app/api/prs/route.ts:117-129 | a worse rank never scores higher |
| Ranking.ScoreExamples | app/api/prs/route.ts:128 | with three members the scores are 100, 67 and 33; with eight, rank 2 scores 88 and rank 4 scores 63 (a half rounded up); one member scores 100 |
| Ranking.Rank | app/api/prs/route.ts:118-136 | `leaderboard.map((contributor, index) => ...)`: entry i gets rank i + 1 and its score, with the length unchanged; `RankScores` states the ranks and scores |
| Ranking.RankScores | app/api/prs/route.ts:118-136 | ranking keeps the entries in order, with ranks 1..M, scores in 0..100 starting at 100 and never increasing |
| Ranking.Derive | app/api/prs/route.ts:107-136 | the leaderboard built from a dictionary and its insertion order: entries, then the sort, then ranks and scores |
| Ranking.Aggregate | app/api/prs/route.ts:84-136 | the leaderboard of a list of fetched records; `AggregateMembers`, `AggregateCounts` and `AggregateOrder` state its properties |
| Ranking.AggregateMembers | app/api/prs/route.ts:108-118 | the leaderboard has exactly one entry per distinct non-empty login, so its length is the number of distinct authors |
| Ranking.AggregateCounts | app/api/prs/route.ts:84-114 | each entry lists its author's records in fetch order, its count is their number, its avatar comes from the first record; the counts sum to the number of authored records |
| Ranking.AggregateOrder | app/api/prs/route.ts:108-136 | the leaderboard is sorted by count, keeps the insertion order among equal counts (first-appearance order by `FirstSeenOrder`), has ranks 1..M, and scores start at 100 and never increase |
| Ranking.AggregateSingleAuthor | app/api/prs/route.ts:117-129 | a single author gets one entry with rank 1, score 100, every record counted, and the first record's avatar |
| Ranking.AggregateNoAuthors | app/api/prs/route.ts:86-88 | records without an author give an empty leaderboard |
| Ranking.PrototypeLoginCounterexample | app/api/prs/route.ts:89-96 | for one record by "constructor", the plain-object grouping fails, while the intended grouping gives a one-entry leaderboard with rank 1 and score 100 |
| Leaderboard.GroupConstructorLogin | app/api/prs/route.ts:89-96 | the grouping as written, run on one record by "constructor", fails with the runtime's `push` error |
| PrsRoute.SinceEcho | app/api/prs/route.ts:142 | the response echoes `since` exactly when it is non-empty |
| PrsRoute.Respond | app/api/prs/route.ts:5-143 | the handler's answer for a session, the query parameters and the listing: 401, 400, the remote failure, or the leaderboard with its totals; `RespondErrors`, `RemoteErrorFromLastPage`, `GuardErrorsRequestNothing` and `RespondLeaderboard` state its properties |
| PrsRoute.Get | app/api/prs/route.ts:5-143 | the handler answers as the specification `Respond` does: 401, 400, the remote failure, or the leaderboard with its totals |
| PrsRoute.RespondErrors | app/api/prs/route.ts:9-48 | an error is returned exactly for a missing token, a missing owner or repo, or a failed page; the guard errors are identified by their messages; no error carries a 2xx status |
| PrsRoute.RemoteErrorFromLastPage | app/api/prs/route.ts:43-48 | past the guards, a failed retrieval answers with the status of the last page requested (the first non-2xx one) and "GitHub API error: " followed by its status text |
| PrsRoute.GuardErrorsRequestNothing | app/api/prs/route.ts:9-26 | without a token the answer is 401, else without an owner or repo 400, whatever the remote listing holds: no page is requested |
| PrsRoute.RespondLeaderboard | app/api/prs/route.ts:138-143 | `totalPRs` is the number of retrieved records and `totalMembers` the number of distinct authors; the counts sum to the authored records; under a window every listed pull request lies in it |
| PrsRoute.FailureAfterFullPage | app/api/prs/route.ts:43-48 | a failure on page 2 after a full page 1 returns that failure, and page 1's records are discarded |
| Repositories.RespondRepos | app/api/repositories/route.ts:5-65 | the handler's answer for a session and the listing: 401, the remote failure, or the projected repositories; `RespondReposOutcome` states its properties |
| Repositories.FormatAll | app/api/repositories/route.ts:57-61 | `repositories.map(...)`, one projected entry per repository; `FormatAllKeepsOrder` states the entries |
| Repositories.Get | app/api/repositories/route.ts:5-65 | the handler with its loop answers as the specification `RespondRepos` does |
| Repositories.FormatAllKeepsOrder | app/api/repositories/route.ts:57-61 | the projection keeps length and order, entry i carries repository i's full name, name and owner login, and it distributes over concatenation |
| Repositories.RespondReposOutcome | app/api/repositories/route.ts:9-54 | 401 without a token, whatever the listing; otherwise an error exactly when the last requested page failed, with its non-2xx status; otherwise the projection of the requested pages' repositories in page order |
| Strings.Split | app/page.tsx:92 | `split` on one character: at least one piece, and no piece holds the separator; `JoinSplit` and `SplitJoin` pin it down |
| Strings.Join | app/page.tsx:92 | `join` on one character, the inverse of `Split` that the round-trip lemmas are stated with |
| Strings.JoinSplit | app/page.tsx:103 | joining the pieces of a split gives the string back |
| Strings.SplitJoin | app/page.tsx:92 | splitting a join of separator-free pieces gives the pieces back |
| HomePage.FormatDateForDisplay | app/page.tsx:101-105 | `formatDateForDisplay`: "" stays "", otherwise the parts `y-m-d` become `d-m-y`, a missing part reading "undefined"; `DisplayRoundTrip` and `DisplayOfOnePart` state it |
| HomePage.FormatDateForInput | app/page.tsx:108-112 | `formatDateForInput`: "" stays "", otherwise the parts `d-m-y` become `y-m-d`; `InputRoundTrip` states it |
| HomePage.ReverseThree | app/page.tsx:100-112 | both conversions turn `a-b-c` into `c-b-a` for dash-free parts |
| HomePage.DisplayRoundTrip | app/page.tsx:100-112 | the display form of `y-m-d` is `d-m-y`, and converting it back gives the input value |
| HomePage.InputRoundTrip | app/page.tsx:100-112 | converting a three-part display value to the input form and back gives it again |
| HomePage.DisplayOfOnePart | app/page.tsx:101-112 | a non-empty value without a dash is rendered with its two missing parts as "undefined" |
| HomePage.FormatDateTimeForApi | app/page.tsx:115-126 | `formatDateTimeForAPI`; `ApiDateTimeIsRfc3339`, `ApiDateTimeMidnight` and `ApiDateTimeEmpty` state it |
| HomePage.ApiDateTimeIsRfc3339 | app/page.tsx:115-126 | a `yyyy-mm-dd` date, with an `HH:MM` time or none, gives an RFC 3339 date-time carrying that date and that time, or midnight, followed by `:00.000Z` |
| HomePage.ApiDateTimeMidnight | app/page.tsx:120-125 | a date with no time, or a time whose length is not 5, is sent as that date followed by `T00:00:00.000Z` |
| HomePage.ApiDateTimeEmpty | app/page.tsx:115-126 | the date-time is empty exactly when the date is |
| HomePage.HandleRepoChange | app/page.tsx:90-98 | `handleRepoChange`; `ChooseOwnerAndName`, `IgnoreIncompleteName` and `PickListedRepository` state both branches |
| HomePage.ChooseOwnerAndName | app/page.tsx:90-98 | choosing `owner/name`, whatever parts follow, selects that owner and name and clears the error |
| HomePage.IgnoreIncompleteName | app/page.tsx:90-98 | a value whose first or second part is empty or missing leaves the selection unchanged |
| HomePage.PickListedRepository | app/page.tsx:90-98 | picking a listed repository whose full name is `owner/name` selects its owner and name |
| HomePage.LeaderboardQuery | app/page.tsx:128-142 | the guard and the parameters of `fetchLeaderboard`; `QueryPassesRouteGuard` states them |
| HomePage.QueryPassesRouteGuard | app/page.tsx:129-142 | the request is refused exactly without an owner or repository; for every session a request that is sent never gets the route's 400, and it is windowed exactly when a date was chosen |

## Left out

- HTTP and JSON. `fetch`, request headers, URL and query-string building, `response.json()` and
  `NextResponse` are out. The listing is a parameter, a sequence of decoded page responses.
- Sessions. The next-auth session lookup is an optional access token.
- Date parsing. Parsing `since` and `created_at` is left out: the parsed instant is a field of
  `Since`, and timestamps are integers. An unparsable `since` is the value `InvalidDate`, which
  fails every comparison.
- Floating point. `Math.round` of the floating-point quotient is replaced by the exact integer
  round-half-up `(200k + M) div 2M`.
- Key order. `Object.entries` lists integer-like keys (an all-digit login) first, in numeric
  order. The model uses plain insertion order, so for such logins the tie order among equal
  counts is not modelled.
- The 500 handler. The catch-all for network errors and other exceptions is out. The one
  exception the grouping itself raises is modelled by `Leaderboard.GroupAsWritten`.
- PrsRoute.Respond, PrsRoute.Get: use the intended grouping `Leaderboard.GroupByContributor`. The 500 response
  that the as-written grouping would cause for a login named after an `Object.prototype`
  member is stated only at the grouping level.
- Page sizes. The remote listing never sends more than 100 records per page, but the model
  allows any size. `Pagination.BeforeLastPage` therefore states "at least 100" rather than
  "exactly 100".
- Repository owners. `repo.owner.login` on a repository without an owner is out: the listing
  always sends an owner, and the model makes it mandatory.
- HomePage.ApiDateTimeIsRfc3339: checks the grammar of section 5.6 of RFC 3339 with digits
  only. The value ranges (month 01–12, hour 00–23 and so on) are not checked.
- HomePage.FormatDateTimeForApi: `timeStr.length` counts UTF-16 code units; the model counts
  characters.
- HomePage.DisplayRoundTrip: the round trip is stated only for values with exactly three
  dash-separated parts. Other values are covered only by the "undefined" example.
- The user interface. React state and effects are out, as are the one-minute auto-refresh,
  `fetchRepositories`, the JSX, console logging, and the rendering component
  `components/Leaderboard.tsx`.

## Findings

| source | as written | input that shows it | evidently intended | confidence | as-written member | corrected member |
|---|---|---|---|---|---|---|
| app/api/prs/route.ts:89-96 | the accumulator lookup `contributors[username]` on a plain `{}` also finds members inherited from `Object.prototype`; for such a login no accumulator is created, `.prs.push` throws, and the route answers 500 | one pull request by the login "constructor" (likewise "toString", "valueOf", "hasOwnProperty", ...) | every login gets its own accumulator, so that author appears with count 1, rank 1 and score 100 | not executed; medium: it depends on such a login existing | Leaderboard.GroupAsWritten, Leaderboard.GroupConstructorLogin, Ranking.PrototypeLoginCounterexample | Leaderboard.GroupByContributor |
