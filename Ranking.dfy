/** The derivation of the leaderboard from the grouping dictionary: entries in insertion
    order, a stable sort by count, then 1-based ranks and percentile scores
    (app/api/prs/route.ts, after the grouping loop). */
module Ranking {

  import opened Wrappers
  import opened PullRequests
  import opened Leaderboard

  /** `pr.user?.avatar_url || ""`. */
  function AvatarUrl(pr: PullRequest): string {
    if pr.user.Some? then pr.user.value.avatarUrl.GetOr("") else ""
  }

  /** The index `prs.find(pr => pr.user?.login === u)` stops at. */
  function FirstWithLogin(prs: seq<PullRequest>, u: string): (r: Option<nat>)
    ensures r.Some? ==> r.value < |prs| && Login(prs[r.value]) == u
    ensures r.Some? ==> forall j :: 0 <= j < r.value ==> Login(prs[j]) != u
    ensures r.None? ==> forall j :: 0 <= j < |prs| ==> Login(prs[j]) != u
    decreases |prs|
  {
    if prs == [] then None
    else if Login(prs[0]) == u then Some(0)
    else
      match FirstWithLogin(prs[1..], u)
      case None => None
      case Some(k) => Some(k + 1)
  }

  /** A contributor's avatar: that of the first record with the login, or "". */
  function Avatar(prs: seq<PullRequest>, u: string): string {
    match FirstWithLogin(prs, u)
    case Some(i) => AvatarUrl(prs[i])
    case None => ""
  }

  /** The avatar shown for a login is the one carried by its first record. */
  lemma AvatarOfFirst(prs: seq<PullRequest>, i: nat)
    requires i < |prs|
    requires forall j :: 0 <= j < i ==> Login(prs[j]) != Login(prs[i])
    ensures Avatar(prs, Login(prs[i])) == AvatarUrl(prs[i])
  {
    FirstWithLoginAt(prs, i);
  }

  /** A record whose login no earlier record has is the one `find` stops at. */
  lemma FirstWithLoginAt(prs: seq<PullRequest>, i: nat)
    requires i < |prs|
    requires forall j :: 0 <= j < i ==> Login(prs[j]) != Login(prs[i])
    ensures FirstWithLogin(prs, Login(prs[i])) == Some(i)
  {
    var r := FirstWithLogin(prs, Login(prs[i]));
    assert r.Some?;
    assert r.value == i;
  }

  /** A login met within the first `n` records is first met at the same index in the whole list. */
  lemma {:induction false} FirstWithLoginPrefix(prs: seq<PullRequest>, n: nat, u: string)
    requires n <= |prs| && FirstWithLogin(prs[..n], u).Some?
    ensures FirstWithLogin(prs, u) == FirstWithLogin(prs[..n], u)
  {
    var k := FirstWithLogin(prs[..n], u).value;
    assert prs[..n][k] == prs[k];
    forall j | 0 <= j < k ensures Login(prs[j]) != Login(prs[k]) {
      assert prs[..n][j] == prs[j];
    }
    FirstWithLoginAt(prs, k);
  }

  /** A login first met at the last record is first found there. */
  lemma FirstWithLoginNew(prs: seq<PullRequest>)
    requires |prs| > 0 && Login(prs[|prs| - 1]) != ""
    requires !Authored(prs[..|prs| - 1], Login(prs[|prs| - 1]))
    ensures FirstWithLogin(prs, Login(prs[|prs| - 1])) == Some(|prs| - 1)
  {
    var n := |prs| - 1;
    forall j | 0 <= j < n ensures Login(prs[j]) != Login(prs[n]) {
      assert prs[..n][j] == prs[j];
    }
    FirstWithLoginAt(prs, n);
  }

  /** The insertion order lists the logins in the order of their first records: every listed
      login has a record, and an earlier login's first record comes before a later one's. */
  lemma {:induction false} FirstSeenOrder(prs: seq<PullRequest>)
    ensures forall u :: u in FirstSeen(prs) ==> FirstWithLogin(prs, u).Some?
    ensures forall i, j :: 0 <= i < j < |FirstSeen(prs)| ==>
              FirstWithLogin(prs, FirstSeen(prs)[i]).value < FirstWithLogin(prs, FirstSeen(prs)[j]).value
    decreases |prs|
  {
    FirstSeenAuthors(prs);
    forall u | u in FirstSeen(prs) ensures FirstWithLogin(prs, u).Some? {
      var i :| 0 <= i < |prs| && Login(prs[i]) == u;
    }
    if prs != [] {
      var n := |prs| - 1;
      var front := prs[..n];
      var earlier := FirstSeen(front);
      FirstSeenOrder(front);
      FirstSeenAuthors(front);
      forall u | u in earlier ensures FirstWithLogin(prs, u) == FirstWithLogin(front, u) {
        FirstWithLoginPrefix(prs, n, u);
      }
      var u := Login(prs[n]);
      if u != "" && u !in earlier {
        assert FirstSeen(prs) == earlier + [u];
        FirstWithLoginNew(prs);
        forall i | 0 <= i < |earlier| ensures FirstWithLogin(prs, earlier[i]).value < n {
          assert earlier[i] in earlier;
        }
      }
    }
  }

  /** The dictionary's entries in insertion order, as leaderboard entries. */
  function Entries(order: seq<string>, contributors: map<string, Accumulator>, prs: seq<PullRequest>): (entries: seq<Contributor>)
    requires forall u :: u in order ==> u in contributors
    ensures |entries| == |order|
    ensures forall k :: 0 <= k < |order| ==>
              entries[k] == Contributor(order[k], contributors[order[k]].count, contributors[order[k]].prs, Avatar(prs, order[k]))
    decreases |order|
  {
    if order == [] then []
    else
      var u := order[0];
      [Contributor(u, contributors[u].count, contributors[u].prs, Avatar(prs, u))]
        + Entries(order[1..], contributors, prs)
  }

  // ---------------------------------------------------------------------------------------
  // The sort

  predicate SortedByCount(s: seq<Contributor>) {
    forall i, j :: 0 <= i < j < |s| ==> s[i].count >= s[j].count
  }

  predicate AtMost(s: seq<Contributor>, b: nat) {
    forall k :: 0 <= k < |s| ==> s[k].count <= b
  }

  /** `x` placed before the first entry whose count is not larger than its own. */
  function Insert(x: Contributor, s: seq<Contributor>): (r: seq<Contributor>)
    ensures |r| == |s| + 1
    decreases |s|
  {
    if s == [] || s[0].count <= x.count then [x] + s
    else [s[0]] + Insert(x, s[1..])
  }

  lemma {:induction false} InsertPermutes(x: Contributor, s: seq<Contributor>)
    ensures multiset(Insert(x, s)) == multiset(s) + multiset{x}
    decreases |s|
  {
    if s != [] && s[0].count > x.count {
      InsertPermutes(x, s[1..]);
      assert s == [s[0]] + s[1..];
    }
  }

  lemma {:induction false} InsertAtMost(x: Contributor, s: seq<Contributor>, b: nat)
    requires AtMost(s, b) && x.count <= b
    ensures AtMost(Insert(x, s), b)
    decreases |s|
  {
    if s != [] && s[0].count > x.count {
      var rest := Insert(x, s[1..]);
      InsertAtMost(x, s[1..], b);
      assert Insert(x, s) == [s[0]] + rest;
    }
  }

  lemma {:induction false} InsertSorted(x: Contributor, s: seq<Contributor>)
    requires SortedByCount(s)
    ensures SortedByCount(Insert(x, s))
    decreases |s|
  {
    if s != [] && s[0].count > x.count {
      var rest := Insert(x, s[1..]);
      InsertSorted(x, s[1..]);
      InsertAtMost(x, s[1..], s[0].count);
      var r := Insert(x, s);
      assert r == [s[0]] + rest;
      forall i, j | 0 <= i < j < |r| ensures r[i].count >= r[j].count {
        assert r[j] == rest[j - 1];
        if i > 0 { assert r[i] == rest[i - 1]; }
      }
    }
  }

  /** `sort((a, b) => b.count - a.count)`: a stable sort, largest count first. */
  function SortByCount(s: seq<Contributor>): (r: seq<Contributor>)
    ensures |r| == |s|
    decreases |s|
  {
    if s == [] then [] else Insert(s[0], SortByCount(s[1..]))
  }

  /** The sort orders by count and permutes its input. */
  lemma {:induction false} SortSortsAndPermutes(s: seq<Contributor>)
    ensures SortedByCount(SortByCount(s))
    ensures multiset(SortByCount(s)) == multiset(s)
    decreases |s|
  {
    if s != [] {
      SortSortsAndPermutes(s[1..]);
      InsertSorted(s[0], SortByCount(s[1..]));
      InsertPermutes(s[0], SortByCount(s[1..]));
      assert s == [s[0]] + s[1..];
    }
  }

  /** The entries of `s` with count `c`, in order. */
  function WithCount(s: seq<Contributor>, c: nat): seq<Contributor>
    decreases |s|
  {
    if s == [] then [] else (if s[0].count == c then [s[0]] else []) + WithCount(s[1..], c)
  }

  lemma {:induction false} InsertWithCount(x: Contributor, s: seq<Contributor>, c: nat)
    ensures WithCount(Insert(x, s), c) == (if x.count == c then [x] else []) + WithCount(s, c)
    decreases |s|
  {
    var r := Insert(x, s);
    if s == [] || s[0].count <= x.count {
      assert r == [x] + s;
      assert r[1..] == s;
    } else {
      var rest := Insert(x, s[1..]);
      assert r == [s[0]] + rest;
      assert r[1..] == rest;
      InsertWithCount(x, s[1..], c);
      var head := if s[0].count == c then [s[0]] else [];
      assert WithCount(r, c) == head + WithCount(rest, c);
      assert WithCount(s, c) == head + WithCount(s[1..], c);
    }
  }

  /** Stability: the entries of any one count keep their relative order. */
  lemma {:induction false} SortStable(s: seq<Contributor>, c: nat)
    ensures WithCount(SortByCount(s), c) == WithCount(s, c)
    decreases |s|
  {
    if s != [] {
      SortStable(s[1..], c);
      InsertWithCount(s[0], SortByCount(s[1..]), c);
    }
  }

  lemma {:induction false} WithCountHas(s: seq<Contributor>, c: nat, k: nat)
    requires k < |s| && s[k].count == c
    ensures WithCount(s, c) != []
    decreases k
  {
    if k > 0 && s[0].count != c {
      WithCountHas(s[1..], c, k - 1);
    }
  }

  lemma {:induction false} WithCountFrom(s: seq<Contributor>, c: nat)
    ensures forall e :: e in WithCount(s, c) ==> e in s && e.count == c
    decreases |s|
  {
    if s != [] {
      WithCountFrom(s[1..], c);
    }
  }

  /** The first entry of a sorted sequence has the largest count there is. */
  lemma HeadIsLargest(s: seq<Contributor>, e: Contributor)
    requires SortedByCount(s) && e in s
    ensures s[0].count >= e.count
  {
    var k :| 0 <= k < |s| && s[k] == e;
    if k > 0 {
      assert s[0].count >= s[k].count;
    }
  }

  lemma TailSorted(s: seq<Contributor>)
    requires SortedByCount(s) && s != []
    ensures SortedByCount(s[1..])
  {
    forall i, j | 0 <= i < j < |s[1..]| ensures s[1..][i].count >= s[1..][j].count {
      assert s[1..][i] == s[i + 1] && s[1..][j] == s[j + 1];
    }
  }

  /** A sequence sorted by count is determined by the order of the entries of each count:
      whatever stable sort the runtime uses, its result is `SortByCount`. */
  lemma {:induction false} SortedUnique(a: seq<Contributor>, b: seq<Contributor>)
    requires SortedByCount(a) && SortedByCount(b)
    requires forall c :: WithCount(a, c) == WithCount(b, c)
    ensures a == b
    decreases |a|
  {
    if a == [] || b == [] {
      if a != [] {
        WithCountHas(a, a[0].count, 0);
      } else if b != [] {
        WithCountHas(b, b[0].count, 0);
      }
    } else {
      var ma, mb := a[0].count, b[0].count;
      WithCountHas(a, ma, 0);
      WithCountFrom(b, ma);
      assert WithCount(b, ma)[0] in WithCount(b, ma);
      HeadIsLargest(b, WithCount(b, ma)[0]);
      WithCountHas(b, mb, 0);
      WithCountFrom(a, mb);
      assert WithCount(a, mb)[0] in WithCount(a, mb);
      HeadIsLargest(a, WithCount(a, mb)[0]);
      assert ma == mb;
      assert WithCount(a, ma) == [a[0]] + WithCount(a[1..], ma);
      assert WithCount(b, ma) == [b[0]] + WithCount(b[1..], ma);
      assert a[0] == b[0];
      forall c: nat ensures WithCount(a[1..], c) == WithCount(b[1..], c) {
        assert WithCount(a, c) == WithCount(b, c);
        if c == ma {
          assert WithCount(a[1..], c) == WithCount(a, c)[1..];
          assert WithCount(b[1..], c) == WithCount(b, c)[1..];
        } else {
          assert WithCount(a[1..], c) == WithCount(a, c);
          assert WithCount(b[1..], c) == WithCount(b, c);
        }
      }
      TailSorted(a);
      TailSorted(b);
      SortedUnique(a[1..], b[1..]);
    }
  }

  /** `SortByCount` is the one ordering that is sorted by count and keeps the relative order of
      entries of equal count. */
  lemma SortByCountIsStableSort(s: seq<Contributor>, t: seq<Contributor>)
    ensures SortedByCount(SortByCount(s))
    ensures multiset(SortByCount(s)) == multiset(s)
    ensures forall c :: WithCount(SortByCount(s), c) == WithCount(s, c)
    ensures SortedByCount(t) && (forall c :: WithCount(t, c) == WithCount(s, c)) ==> t == SortByCount(s)
  {
    SortSortsAndPermutes(s);
    forall c ensures WithCount(SortByCount(s), c) == WithCount(s, c) {
      SortStable(s, c);
    }
    if SortedByCount(t) && (forall c :: WithCount(t, c) == WithCount(s, c)) {
      SortedUnique(t, SortByCount(s));
    }
  }

  function SumCounts(s: seq<Contributor>): nat
    decreases |s|
  {
    if s == [] then 0 else s[0].count + SumCounts(s[1..])
  }

  lemma {:induction false} InsertSum(x: Contributor, s: seq<Contributor>)
    ensures SumCounts(Insert(x, s)) == x.count + SumCounts(s)
    decreases |s|
  {
    var r := Insert(x, s);
    if s == [] || s[0].count <= x.count {
      assert r[1..] == s;
    } else {
      assert r[1..] == Insert(x, s[1..]);
      InsertSum(x, s[1..]);
    }
  }

  /** Sorting neither gains nor loses a pull request. */
  lemma {:induction false} SortSum(s: seq<Contributor>)
    ensures SumCounts(SortByCount(s)) == SumCounts(s)
    decreases |s|
  {
    if s != [] {
      SortSum(s[1..]);
      InsertSum(s[0], SortByCount(s[1..]));
    }
  }

  predicate DistinctNames(s: seq<Contributor>) {
    forall i, j :: 0 <= i < j < |s| ==> s[i].username != s[j].username
  }

  predicate Avoids(s: seq<Contributor>, u: string) {
    forall k :: 0 <= k < |s| ==> s[k].username != u
  }

  lemma {:induction false} InsertAvoids(x: Contributor, s: seq<Contributor>, u: string)
    requires Avoids(s, u) && x.username != u
    ensures Avoids(Insert(x, s), u)
    decreases |s|
  {
    if s != [] && s[0].count > x.count {
      InsertAvoids(x, s[1..], u);
      assert Insert(x, s) == [s[0]] + Insert(x, s[1..]);
    }
  }

  lemma {:induction false} SortAvoids(s: seq<Contributor>, u: string)
    requires Avoids(s, u)
    ensures Avoids(SortByCount(s), u)
    decreases |s|
  {
    if s != [] {
      SortAvoids(s[1..], u);
      InsertAvoids(s[0], SortByCount(s[1..]), u);
    }
  }

  lemma {:induction false} InsertDistinct(x: Contributor, s: seq<Contributor>)
    requires DistinctNames(s) && Avoids(s, x.username)
    ensures DistinctNames(Insert(x, s))
    decreases |s|
  {
    if s != [] && s[0].count > x.count {
      var rest := Insert(x, s[1..]);
      InsertDistinct(x, s[1..]);
      InsertAvoids(x, s[1..], s[0].username);
      var r := Insert(x, s);
      assert r == [s[0]] + rest;
      forall i, j | 0 <= i < j < |r| ensures r[i].username != r[j].username {
        assert r[j] == rest[j - 1];
        if i > 0 { assert r[i] == rest[i - 1]; }
      }
    }
  }

  /** Sorting keeps one entry per contributor. */
  lemma {:induction false} SortDistinct(s: seq<Contributor>)
    requires DistinctNames(s)
    ensures DistinctNames(SortByCount(s))
    decreases |s|
  {
    if s != [] {
      assert DistinctNames(s[1..]) by {
        forall i, j | 0 <= i < j < |s[1..]| ensures s[1..][i].username != s[1..][j].username {
          assert s[1..][i] == s[i + 1] && s[1..][j] == s[j + 1];
        }
      }
      SortDistinct(s[1..]);
      SortAvoids(s[1..], s[0].username);
      InsertDistinct(s[0], SortByCount(s[1..]));
    }
  }

  // ---------------------------------------------------------------------------------------
  // Ranks and scores

  /** `Math.round(100 * (members - rank + 1) / members)`, and 100 for rank 1: the
      round-half-up of the share of contributors ranked at or below `rank`. */
  function Score(rank: nat, members: nat): (score: nat)
    requires 1 <= rank <= members
    ensures score <= 100
    ensures rank == 1 ==> score == 100
    ensures rank > 1 ==> 2 * members * score <= 200 * (members - rank + 1) + members < 2 * members * (score + 1)
  {
    if rank == 1 then 100
    else
      var n := 200 * (members - rank + 1) + members;
      var d := 2 * members;
      DivBounds(n, d);
      BelowTimes(n / d, 101, d);
      n / d
  }

  lemma DivBounds(n: nat, d: nat)
    requires d > 0
    ensures d * (n / d) <= n < d * (n / d + 1)
  {
  }

  lemma BelowTimes(a: nat, b: nat, d: nat)
    requires d > 0 && d * a < d * b
    ensures a < b
  {
  }

  /** A worse rank never has a higher score. */
  lemma ScoreMonotone(r1: nat, r2: nat, members: nat)
    requires 1 <= r1 <= r2 <= members
    ensures Score(r2, members) <= Score(r1, members)
  {
    if r1 > 1 {
      var s1, s2 := Score(r1, members), Score(r2, members);
      assert 2 * members * s2 < 2 * members * (s1 + 1);
      BelowTimes(s2, s1 + 1, 2 * members);
    }
  }

  /** Scores for three contributors, and a score that rounds a half up. */
  lemma ScoreExamples()
    ensures Score(1, 3) == 100 && Score(2, 3) == 67 && Score(3, 3) == 33
    ensures Score(2, 8) == 88 && Score(4, 8) == 63 && Score(1, 1) == 100
  {
  }

  /** The entries with their 1-based ranks and scores. */
  function Rank(entries: seq<Contributor>): (board: seq<RankedContributor>)
    ensures |board| == |entries|
  {
    seq(|entries|, i requires 0 <= i < |entries| => RankedContributor(entries[i], Score(i + 1, |entries|), i + 1))
  }

  /** The leaderboard entries without rank and score. */
  function Unranked(board: seq<RankedContributor>): seq<Contributor> {
    seq(|board|, i requires 0 <= i < |board| => board[i].contributor)
  }

  /** The ranked leaderboard built from the grouping dictionary and its insertion order. */
  function Derive(order: seq<string>, contributors: map<string, Accumulator>, prs: seq<PullRequest>): seq<RankedContributor>
    requires forall u :: u in order ==> u in contributors
  {
    Rank(SortByCount(Entries(order, contributors, prs)))
  }

  /** Ranking adds ranks 1, 2, ... and scores that start at 100 and never increase. */
  lemma RankScores(entries: seq<Contributor>)
    ensures Unranked(Rank(entries)) == entries
    ensures forall i :: 0 <= i < |entries| ==> Rank(entries)[i].rank == i + 1 && Rank(entries)[i].score <= 100
    ensures |entries| > 0 ==> Rank(entries)[0].score == 100
    ensures forall i, j :: 0 <= i < j < |entries| ==> Rank(entries)[j].score <= Rank(entries)[i].score
  {
    var board := Rank(entries);
    forall i | 0 <= i < |entries|
      ensures board[i] == RankedContributor(entries[i], Score(i + 1, |entries|), i + 1)
    {
    }
    forall i, j | 0 <= i < j < |entries| ensures board[j].score <= board[i].score {
      ScoreMonotone(i + 1, j + 1, |entries|);
    }
  }

  // ---------------------------------------------------------------------------------------
  // The leaderboard of a list of fetched records

  /** The leaderboard the route builds from the fetched records. */
  function Aggregate(prs: seq<PullRequest>): seq<RankedContributor> {
    Derive(FirstSeen(prs), Grouped(prs), prs)
  }

  /** The dictionary's entries, in insertion order, before the sort. */
  function InsertionEntries(prs: seq<PullRequest>): seq<Contributor> {
    Entries(FirstSeen(prs), Grouped(prs), prs)
  }

  lemma {:induction false} NoDupCard(names: seq<string>)
    requires NoDuplicates(names)
    ensures |set u | u in names| == |names|
    decreases |names|
  {
    if names != [] {
      var front := names[..|names| - 1];
      var last := names[|names| - 1];
      assert NoDuplicates(front) by {
        forall i, j | 0 <= i < j < |front| ensures front[i] != front[j] { assert front[i] == names[i] && front[j] == names[j]; }
      }
      NoDupCard(front);
      assert names == front + [last];
      assert (set u | u in names) == (set u | u in front) + {last};
      assert last !in front by {
        forall k | 0 <= k < |front| ensures front[k] != last { assert front[k] == names[k]; }
      }
    }
  }

  lemma AuthorSetIsFirstSeen(prs: seq<PullRequest>)
    ensures AuthorSet(prs) == set u | u in FirstSeen(prs)
    ensures |FirstSeen(prs)| == |AuthorSet(prs)|
  {
    FirstSeenAuthors(prs);
    forall u ensures u in AuthorSet(prs) <==> Authored(prs, u) {
      if Authored(prs, u) {
        var i :| 0 <= i < |prs| && Login(prs[i]) == u;
        assert Login(prs[i]) in AuthorSet(prs);
      }
    }
    NoDupCard(FirstSeen(prs));
  }

  /** Without ranks, the leaderboard is the sorted dictionary entries. */
  lemma AggregateUnranked(prs: seq<PullRequest>)
    ensures Unranked(Aggregate(prs)) == SortByCount(InsertionEntries(prs))
    ensures |Aggregate(prs)| == |FirstSeen(prs)|
  {
    RankScores(SortByCount(InsertionEntries(prs)));
  }

  /** An entry of the sorted leaderboard is one of the dictionary's entries. */
  lemma FromEntries(prs: seq<PullRequest>, i: nat)
    requires i < |Aggregate(prs)|
    ensures exists k :: 0 <= k < |FirstSeen(prs)| && Aggregate(prs)[i].contributor == InsertionEntries(prs)[k]
  {
    var e := InsertionEntries(prs);
    var sorted := SortByCount(e);
    SortSortsAndPermutes(e);
    AggregateUnranked(prs);
    assert Aggregate(prs)[i].contributor == Unranked(Aggregate(prs))[i] == sorted[i];
    assert sorted[i] in multiset(e);
  }

  /** Every dictionary entry is somewhere in the sorted leaderboard. */
  lemma ToBoard(prs: seq<PullRequest>, k: nat)
    requires k < |FirstSeen(prs)|
    ensures exists i :: 0 <= i < |Aggregate(prs)| && Aggregate(prs)[i].contributor == InsertionEntries(prs)[k]
  {
    var e := InsertionEntries(prs);
    var sorted := SortByCount(e);
    SortSortsAndPermutes(e);
    AggregateUnranked(prs);
    assert e[k] in multiset(sorted);
    var i :| 0 <= i < |sorted| && sorted[i] == e[k];
    assert Aggregate(prs)[i].contributor == Unranked(Aggregate(prs))[i];
  }

  lemma AggregateDistinct(prs: seq<PullRequest>)
    ensures DistinctNames(Unranked(Aggregate(prs)))
  {
    var e := InsertionEntries(prs);
    FirstSeenAuthors(prs);
    assert DistinctNames(e);
    SortDistinct(e);
    AggregateUnranked(prs);
  }

  /** The leaderboard has one entry per distinct author, and no other. */
  lemma AggregateMembers(prs: seq<PullRequest>)
    ensures |Aggregate(prs)| == |AuthorSet(prs)|
    ensures DistinctNames(Unranked(Aggregate(prs)))
    ensures forall i :: 0 <= i < |Aggregate(prs)| ==> Aggregate(prs)[i].contributor.username in AuthorSet(prs)
    ensures forall u :: u in AuthorSet(prs) ==>
              exists i :: 0 <= i < |Aggregate(prs)| && Aggregate(prs)[i].contributor.username == u
  {
    var board := Aggregate(prs);
    AuthorSetIsFirstSeen(prs);
    AggregateUnranked(prs);
    AggregateDistinct(prs);
    forall i | 0 <= i < |board| ensures board[i].contributor.username in AuthorSet(prs) {
      FromEntries(prs, i);
    }
    forall u | u in AuthorSet(prs) ensures exists i :: 0 <= i < |board| && board[i].contributor.username == u {
      var k :| 0 <= k < |FirstSeen(prs)| && FirstSeen(prs)[k] == u;
      ToBoard(prs, k);
    }
  }

  lemma {:induction false} EntriesSum(order: seq<string>, contributors: map<string, Accumulator>, prs: seq<PullRequest>)
    requires forall u :: u in order ==> u in contributors && contributors[u].count == |PrsOf(prs, u)|
    ensures SumCounts(Entries(order, contributors, prs)) == SumLengths(order, prs)
    decreases |order|
  {
    if order != [] {
      assert forall u :: u in order[1..] ==> u in order;
      EntriesSum(order[1..], contributors, prs);
      assert Entries(order, contributors, prs)[1..] == Entries(order[1..], contributors, prs);
    }
  }

  /** Each entry carries exactly its author's records, in fetch order, and its count is their
      number; together the entries account for every record that has an author. */
  lemma AggregateCounts(prs: seq<PullRequest>)
    ensures forall i :: 0 <= i < |Aggregate(prs)| ==>
              var c := Aggregate(prs)[i].contributor;
              c.prs == PrsOf(prs, c.username) && c.count == |c.prs| && c.avatar == Avatar(prs, c.username)
    ensures SumCounts(Unranked(Aggregate(prs))) == CountAuthored(prs)
  {
    GroupedValues(prs);
    var e := InsertionEntries(prs);
    var sorted := SortByCount(e);
    forall i | 0 <= i < |Aggregate(prs)|
      ensures var c := Aggregate(prs)[i].contributor;
              c.prs == PrsOf(prs, c.username) && c.count == |c.prs| && c.avatar == Avatar(prs, c.username)
    {
      FromEntries(prs, i);
    }
    RankScores(sorted);
    assert Unranked(Aggregate(prs)) == sorted;
    SortSum(e);
    EntriesSum(FirstSeen(prs), Grouped(prs), prs);
    SumLengthsFirstSeen(prs);
  }

  /** The leaderboard is the stable sort of the dictionary's entries by descending count, with
      ranks 1, 2, ... and scores that start at 100 and never increase. */
  lemma AggregateOrder(prs: seq<PullRequest>)
    ensures SortedByCount(Unranked(Aggregate(prs)))
    ensures forall c :: WithCount(Unranked(Aggregate(prs)), c) == WithCount(InsertionEntries(prs), c)
    ensures forall i :: 0 <= i < |Aggregate(prs)| ==>
              Aggregate(prs)[i].rank == i + 1 && Aggregate(prs)[i].score <= 100
    ensures |Aggregate(prs)| > 0 ==> Aggregate(prs)[0].score == 100
    ensures forall i, j :: 0 <= i < j < |Aggregate(prs)| ==> Aggregate(prs)[j].score <= Aggregate(prs)[i].score
  {
    var e := InsertionEntries(prs);
    AggregateUnranked(prs);
    SortSortsAndPermutes(e);
    forall c: nat ensures WithCount(Unranked(Aggregate(prs)), c) == WithCount(e, c) {
      SortStable(e, c);
    }
    RankScores(SortByCount(e));
  }

  lemma {:induction false} AllAuthored(prs: seq<PullRequest>)
    requires forall i :: 0 <= i < |prs| ==> Login(prs[i]) != ""
    ensures CountAuthored(prs) == |prs|
    decreases |prs|
  {
    if prs != [] {
      AllAuthored(prs[..|prs| - 1]);
    }
  }

  /** Records all by one author give a one-entry leaderboard: rank 1, score 100, every record
      counted, and the avatar of the first record. */
  lemma AggregateSingleAuthor(prs: seq<PullRequest>, u: string)
    requires u != "" && |prs| > 0
    requires forall i :: 0 <= i < |prs| ==> Login(prs[i]) == u
    ensures |Aggregate(prs)| == 1
    ensures Aggregate(prs)[0].rank == 1 && Aggregate(prs)[0].score == 100
    ensures Aggregate(prs)[0].contributor.username == u
    ensures Aggregate(prs)[0].contributor.count == |prs|
    ensures Aggregate(prs)[0].contributor.avatar == AvatarUrl(prs[0])
  {
    SingleAuthorSet(prs, u);
    AggregateMembers(prs);
    AggregateCounts(prs);
    AggregateOrder(prs);
    AllAuthored(prs);
    var board := Aggregate(prs);
    assert SumCounts(Unranked(board)) == board[0].contributor.count by {
      assert Unranked(board)[1..] == [];
    }
    AvatarOfFirst(prs, 0);
  }

  lemma SingleAuthorSet(prs: seq<PullRequest>, u: string)
    requires u != "" && |prs| > 0
    requires forall i :: 0 <= i < |prs| ==> Login(prs[i]) == u
    ensures AuthorSet(prs) == {u}
  {
    assert Login(prs[0]) in AuthorSet(prs);
  }

  /** Records without an author give an empty leaderboard. */
  lemma AggregateNoAuthors(prs: seq<PullRequest>)
    requires forall i :: 0 <= i < |prs| ==> Login(prs[i]) == ""
    ensures Aggregate(prs) == []
  {
    assert AuthorSet(prs) == {};
    AggregateMembers(prs);
  }

  /** A single record by the login "constructor": the grouping on a plain object fails on it
      (its login is an inherited member name), while the intended grouping gives that author
      a one-entry leaderboard with rank 1, score 100 and one pull request. */
  lemma PrototypeLoginCounterexample()
    ensures var prs := [PullRequest(1, "Fix typo", "open", Some(User("constructor", None)), 0, None, "")];
            && "" !in PrototypeNames
            && (exists i :: 0 <= i < |prs| && Login(prs[i]) in PrototypeNames)
            && |Aggregate(prs)| == 1
            && Aggregate(prs)[0].contributor.username == "constructor"
            && Aggregate(prs)[0].contributor.count == 1
            && Aggregate(prs)[0].rank == 1 && Aggregate(prs)[0].score == 100
  {
    var prs := [PullRequest(1, "Fix typo", "open", Some(User("constructor", None)), 0, None, "")];
    assert "" !in PrototypeNames;
    assert Login(prs[0]) in PrototypeNames;
    AggregateSingleAuthor(prs, "constructor");
  }
}
