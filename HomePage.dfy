/** The string helpers of the home page (app/page.tsx): the date conversions between the date
    input's `yyyy-mm-dd` and the displayed `dd-mm-yyyy`, the date-time sent to the leaderboard
    route, the repository picker's `owner/name` split, and the guard and query parameters of
    the leaderboard request. */
module HomePage {

  import opened Wrappers
  import opened Strings
  import opened Pagination
  import opened PullRequests
  import opened Repositories
  import opened PrsRoute

  /** Destructuring `const [a, b, c] = parts` into a template string: a missing part is
      rendered as "undefined". */
  function Part(parts: seq<string>, i: nat): string {
    if i < |parts| then parts[i] else "undefined"
  }

  /** `yyyy-mm-dd` to `dd-mm-yyyy`; "" stays "". */
  function FormatDateForDisplay(date: string): string {
    if date == "" then ""
    else
      var parts := Split(date, '-');
      Part(parts, 2) + "-" + Part(parts, 1) + "-" + Part(parts, 0)
  }

  /** `dd-mm-yyyy` to `yyyy-mm-dd`; "" stays "". */
  function FormatDateForInput(date: string): string {
    if date == "" then ""
    else
      var parts := Split(date, '-');
      Part(parts, 2) + "-" + Part(parts, 1) + "-" + Part(parts, 0)
  }

  /** A string of exactly three dash-separated parts. */
  predicate ThreeParts(s: string) {
    |Split(s, '-')| == 3
  }

  /** Reversing the three parts of `a-b-c` gives `c-b-a`, still of three parts. */
  lemma ReverseThree(a: string, b: string, c: string)
    requires '-' !in a && '-' !in b && '-' !in c
    ensures FormatDateForDisplay(a + "-" + b + "-" + c) == c + "-" + b + "-" + a
    ensures FormatDateForInput(a + "-" + b + "-" + c) == c + "-" + b + "-" + a
    ensures ThreeParts(a + "-" + b + "-" + c)
  {
    JoinThree(a, b, c, '-');
    SplitJoin([a, b, c], '-');
    assert a + "-" + b + "-" + c != "";
  }

  /** The parts of a three-part string, put back together. */
  lemma ThreePartsShape(s: string)
    requires ThreeParts(s)
    ensures var p := Split(s, '-');
            && '-' !in p[0] && '-' !in p[1] && '-' !in p[2]
            && s == p[0] + "-" + p[1] + "-" + p[2]
  {
    var p := Split(s, '-');
    JoinSplit(s, '-');
    assert p == [p[0], p[1], p[2]];
    JoinThree(p[0], p[1], p[2], '-');
  }

  /** The display form of `y-m-d` is `d-m-y`, and converting back gives the date input's
      value again. */
  lemma DisplayRoundTrip(s: string)
    requires ThreeParts(s)
    ensures var p := Split(s, '-');
            FormatDateForDisplay(s) == p[2] + "-" + p[1] + "-" + p[0]
    ensures FormatDateForInput(FormatDateForDisplay(s)) == s
  {
    var p := Split(s, '-');
    ThreePartsShape(s);
    ReverseThree(p[0], p[1], p[2]);
    ReverseThree(p[2], p[1], p[0]);
  }

  /** Converting a three-part display value to the input's form and back gives it again. */
  lemma InputRoundTrip(s: string)
    requires ThreeParts(s)
    ensures FormatDateForDisplay(FormatDateForInput(s)) == s
  {
    var p := Split(s, '-');
    ThreePartsShape(s);
    ReverseThree(p[0], p[1], p[2]);
    ReverseThree(p[2], p[1], p[0]);
  }

  /** A value without a dash renders the two missing parts as "undefined": "2024" is
      displayed as "undefined-undefined-2024". */
  lemma DisplayOfOnePart(s: string)
    requires s != "" && '-' !in s
    ensures FormatDateForDisplay(s) == "undefined-undefined-" + s
    ensures FormatDateForInput(s) == "undefined-undefined-" + s
  {
    SplitPlain(s, '-');
  }

  // ---------------------------------------------------------------------------------------
  // The date-time sent to the leaderboard route

  /** `formatDateTimeForAPI`: the date with the chosen `HH:MM` (or midnight), zero seconds and
      milliseconds, in UTC. */
  function FormatDateTimeForApi(date: string, time: string): string {
    if date == "" then ""
    else if time != "" && |time| == 5 then date + "T" + time + ":00.000Z"
    else date + "T00:00:00.000Z"
  }

  predicate Digits(s: string) {
    forall i :: 0 <= i < |s| ==> '0' <= s[i] <= '9'
  }

  /** `full-date` of section 5.6 of RFC 3339: `date-fullyear "-" date-month "-" date-mday`. */
  predicate FullDate(s: string) {
    |s| == 10 && Digits(s[..4]) && s[4] == '-' && Digits(s[5..7]) && s[7] == '-' && Digits(s[8..])
  }

  /** `time-hour ":" time-minute`, the value of a time input. */
  predicate HourMinute(s: string) {
    |s| == 5 && Digits(s[..2]) && s[2] == ':' && Digits(s[3..])
  }

  /** `date-time` of section 5.6 of RFC 3339 with a three-digit `time-secfrac` and the offset
      "Z": `full-date "T" time-hour ":" time-minute ":" time-second "." 3DIGIT "Z"`. */
  predicate DateTime(s: string) {
    && |s| == 24
    && FullDate(s[..10])
    && s[10] == 'T'
    && HourMinute(s[11..16])
    && s[16] == ':' && Digits(s[17..19])
    && s[19] == '.' && Digits(s[20..23])
    && s[23] == 'Z'
  }

  /** A date input's value with an empty or `HH:MM` time gives an RFC 3339 date-time whose
      date is that value and whose time is the chosen one, or midnight. */
  lemma ApiDateTimeIsRfc3339(date: string, time: string)
    requires FullDate(date)
    requires time == "" || HourMinute(time)
    ensures DateTime(FormatDateTimeForApi(date, time))
    ensures FormatDateTimeForApi(date, time)[..10] == date
    ensures FormatDateTimeForApi(date, time)[11..16] == if time == "" then "00:00" else time
    ensures FormatDateTimeForApi(date, time)[16..] == ":00.000Z"
  {
    var r := FormatDateTimeForApi(date, time);
    var t := if time == "" then "00:00" else time;
    var head := date + "T" + t;
    assert |head| == 16;
    assert r == head + ":00.000Z";
    assert r[..16] == head && r[16..] == ":00.000Z";
    assert r[..10] == head[..10] == date;
    assert r[11..16] == head[11..] == t;
    assert r[17..19] == "00";
    assert r[20..23] == "000";
  }

  /** A chosen date with no time, or with a time that is not five characters long, is sent as
      the start of that day. */
  lemma ApiDateTimeMidnight(date: string, time: string)
    requires date != ""
    requires time == "" || |time| != 5
    ensures |FormatDateTimeForApi(date, time)| == |date| + 14
    ensures FormatDateTimeForApi(date, time)[..|date|] == date
    ensures FormatDateTimeForApi(date, time)[|date|..] == "T00:00:00.000Z"
  {
    var r := FormatDateTimeForApi(date, time);
    assert r == date + "T00:00:00.000Z";
    assert r[..|date|] == date;
  }

  /** An empty date sends no date-time; any other date gives a non-empty one. */
  lemma ApiDateTimeEmpty(date: string, time: string)
    ensures FormatDateTimeForApi(date, time) == "" <==> date == ""
  {
    if date != "" {
      assert |FormatDateTimeForApi(date, time)| > |date|;
    }
  }

  // ---------------------------------------------------------------------------------------
  // Repository selection and the leaderboard request

  /** The page state these helpers read and write. */
  datatype Selection = Selection(owner: string, repo: string, error: string)

  /** `handleRepoChange`: for an `owner/name` value with a non-empty first and second part, select
      them and clear the error; otherwise leave the state alone. */
  function HandleRepoChange(sel: Selection, fullName: string): Selection {
    if fullName == "" then sel
    else
      var parts := Split(fullName, '/');
      if |parts| >= 2 && parts[0] != "" && parts[1] != "" then Selection(parts[0], parts[1], "")
      else sel
  }

  /** Choosing `owner/name` (followed by any further `/`-separated parts) selects exactly that
      owner and name. */
  lemma ChooseOwnerAndName(sel: Selection, owner: string, name: string, more: seq<string>)
    requires owner != "" && name != "" && '/' !in owner && '/' !in name
    requires forall i :: 0 <= i < |more| ==> '/' !in more[i]
    ensures HandleRepoChange(sel, Join([owner, name] + more, '/')) == Selection(owner, name, "")
  {
    var parts := [owner, name] + more;
    forall i | 0 <= i < |parts| ensures '/' !in parts[i] {
      if i >= 2 { assert parts[i] == more[i - 2]; }
    }
    SplitJoin(parts, '/');
    var f := Join(parts, '/');
    assert f == owner + "/" + Join(parts[1..], '/');
    assert f != "";
    assert Split(f, '/')[0] == owner && Split(f, '/')[1] == name;
  }

  /** A value whose first or second `/`-separated part is empty or missing changes nothing. */
  lemma IgnoreIncompleteName(sel: Selection, fullName: string)
    requires var parts := Split(fullName, '/'); |parts| < 2 || parts[0] == "" || parts[1] == ""
    ensures HandleRepoChange(sel, fullName) == sel
  {
  }

  /** Picking an entry of the repository list, whose full name GitHub forms as `owner/name`,
      selects that entry's owner and name. */
  lemma PickListedRepository(sel: Selection, r: FormattedRepo)
    requires r.owner != "" && r.name != "" && '/' !in r.owner && '/' !in r.name
    requires r.fullName == r.owner + "/" + r.name
    ensures HandleRepoChange(sel, r.fullName) == Selection(r.owner, r.name, "")
  {
    assert Join([r.owner, r.name], '/') == r.owner + "/" + r.name by {
      assert [r.owner, r.name][1..] == [r.name];
    }
    ChooseOwnerAndName(sel, r.owner, r.name, []);
    assert [r.owner, r.name] + [] == [r.owner, r.name];
  }

  /** The query parameters of a leaderboard request. */
  datatype Query = Query(owner: string, repo: string, since: Option<string>)

  /** The guard and parameters of `fetchLeaderboard`: no request without an owner and a
      repository; `since` only when a date is chosen. */
  function LeaderboardQuery(owner: string, repo: string, sinceDate: string, sinceTime: string): Result<Query, string> {
    if owner == "" || repo == "" then Failure("Please select a repository")
    else Success(Query(owner, repo, if sinceDate != "" then Some(FormatDateTimeForApi(sinceDate, sinceTime)) else None))
  }

  /** The `since` value the route receives for a query parameter, with the instant the route's
      date parsing gives it. */
  function SinceParam(q: Query, instant: Instant): Option<Since> {
    if q.since.Some? then Some(Since(q.since.value, instant)) else None
  }

  /** A request the page sends is never refused by the route for missing parameters, and the
      route applies a creation-time window exactly when the page chose a date. */
  lemma QueryPassesRouteGuard(accessToken: Option<string>, owner: string, repo: string, sinceDate: string, sinceTime: string,
                              instant: Instant, pages: seq<PageResponse<PullRequest>>)
    ensures LeaderboardQuery(owner, repo, sinceDate, sinceTime).Failure? <==> owner == "" || repo == ""
    ensures var q := LeaderboardQuery(owner, repo, sinceDate, sinceTime);
            q.Success? ==>
              && Respond(accessToken, Some(q.value.owner), Some(q.value.repo), SinceParam(q.value, instant), pages)
                 != ErrorResponse(400, "Missing owner or repo parameters")
              && (Windowed(SinceParam(q.value, instant)) <==> sinceDate != "")
  {
    var q := LeaderboardQuery(owner, repo, sinceDate, sinceTime);
    if q.Success? {
      ApiDateTimeEmpty(sinceDate, sinceTime);
      RespondErrors(accessToken, Some(q.value.owner), Some(q.value.repo), SinceParam(q.value, instant), pages);
    }
  }
}
