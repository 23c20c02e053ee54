/** Grouping of the fetched pull requests by author, and the entry types of the leaderboard
    (app/api/prs/route.ts, after the retrieval loop). */
module Leaderboard {

  import opened Wrappers
  import opened PullRequests

  /** The summary of a record kept in a contributor's list. */
  datatype PrSummary = PrSummary(
    number: int,
    title: string,
    state: string,
    createdAt: int,
    mergedAt: Option<int>,
    url: string)

  /** A contributor's accumulator in the grouping dictionary. */
  datatype Accumulator = Accumulator(count: nat, prs: seq<PrSummary>)

  /** A leaderboard entry before ranking. */
  datatype Contributor = Contributor(username: string, count: nat, prs: seq<PrSummary>, avatar: string)

  /** A leaderboard entry with its score and 1-based rank. */
  datatype RankedContributor = RankedContributor(contributor: Contributor, score: nat, rank: nat)

  function Summarize(pr: PullRequest): PrSummary {
    PrSummary(pr.number, pr.title, pr.state, pr.createdAt, pr.mergedAt, pr.htmlUrl)
  }

  // ---------------------------------------------------------------------------------------
  // Grouping: what the `for (const pr of prs)` loop builds

  /** `u` is the login of some record of `prs`. */
  predicate Authored(prs: seq<PullRequest>, u: string) {
    u != "" && exists i :: 0 <= i < |prs| && Login(prs[i]) == u
  }

  predicate NoDuplicates(names: seq<string>) {
    forall i, j :: 0 <= i < j < |names| ==> names[i] != names[j]
  }

  /** The logins of `prs` in the order they are first met: the insertion order of the
      grouping dictionary. */
  function FirstSeen(prs: seq<PullRequest>): (names: seq<string>)
    decreases |prs|
  {
    if prs == [] then []
    else
      var earlier := FirstSeen(prs[..|prs| - 1]);
      var u := Login(prs[|prs| - 1]);
      if u != "" && u !in earlier then earlier + [u] else earlier
  }

  /** The summaries of the records whose login is `u`, in fetch order. */
  function PrsOf(prs: seq<PullRequest>, u: string): seq<PrSummary>
    decreases |prs|
  {
    if prs == [] then []
    else
      var last := prs[|prs| - 1];
      PrsOf(prs[..|prs| - 1], u) + if Login(last) == u then [Summarize(last)] else []
  }

  /** `contributors[u].count++` and `contributors[u].prs.push(summary)`, on an accumulator
      created empty when `u` has none. */
  function Bump(contributors: map<string, Accumulator>, u: string, summary: PrSummary): map<string, Accumulator> {
    var acc := if u in contributors then contributors[u] else Accumulator(0, []);
    contributors[u := Accumulator(acc.count + 1, acc.prs + [summary])]
  }

  /** The grouping dictionary after the records `prs`, one record at a time; its keys are the
      logins first met. */
  function Grouped(prs: seq<PullRequest>): (contributors: map<string, Accumulator>)
    ensures forall u :: u in contributors <==> u in FirstSeen(prs)
    decreases |prs|
  {
    if prs == [] then map[]
    else
      var last := prs[|prs| - 1];
      var u := Login(last);
      var earlier := Grouped(prs[..|prs| - 1]);
      if u == "" then earlier else Bump(earlier, u, Summarize(last))
  }

  /** The number of records that have an author. */
  function CountAuthored(prs: seq<PullRequest>): nat
    decreases |prs|
  {
    if prs == [] then 0
    else CountAuthored(prs[..|prs| - 1]) + if Login(prs[|prs| - 1]) != "" then 1 else 0
  }

  /** The distinct logins of `prs`. */
  function AuthorSet(prs: seq<PullRequest>): set<string> {
    set i | 0 <= i < |prs| && Login(prs[i]) != "" :: Login(prs[i])
  }

  /** The logins first met are exactly the authors of `prs`, each once. */
  lemma {:induction false} FirstSeenAuthors(prs: seq<PullRequest>)
    ensures NoDuplicates(FirstSeen(prs))
    ensures forall u :: u in FirstSeen(prs) <==> Authored(prs, u)
    decreases |prs|
  {
    if prs != [] {
      var front := prs[..|prs| - 1];
      FirstSeenAuthors(front);
      forall u ensures Authored(prs, u) <==> Authored(front, u) || (u != "" && Login(prs[|prs| - 1]) == u) {
        if Authored(front, u) {
          var i :| 0 <= i < |front| && Login(front[i]) == u;
          assert prs[i] == front[i];
        }
        if Authored(prs, u) && u != Login(prs[|prs| - 1]) {
          var i :| 0 <= i < |prs| && Login(prs[i]) == u;
          assert i < |front| && front[i] == prs[i];
        }
      }
    }
  }

  /** A login with no record has an empty list. */
  lemma {:induction false} PrsOfAbsent(prs: seq<PullRequest>, u: string)
    requires forall i :: 0 <= i < |prs| ==> Login(prs[i]) != u
    ensures PrsOf(prs, u) == []
    decreases |prs|
  {
    if prs != [] {
      var front := prs[..|prs| - 1];
      assert forall i :: 0 <= i < |front| ==> front[i] == prs[i];
      PrsOfAbsent(front, u);
    }
  }

  /** Each login's accumulator counts and lists, in fetch order, exactly that login's records. */
  lemma {:induction false} GroupedValues(prs: seq<PullRequest>)
    ensures forall u :: u in Grouped(prs) ==> Grouped(prs)[u] == Accumulator(|PrsOf(prs, u)|, PrsOf(prs, u))
    decreases |prs|
  {
    if prs != [] {
      var front := prs[..|prs| - 1];
      var last := prs[|prs| - 1];
      var u := Login(last);
      GroupedValues(front);
      FirstSeenAuthors(front);
      if u != "" && u !in Grouped(front) {
        PrsOfAbsent(front, u);
      }
      forall v | v in Grouped(prs)
        ensures Grouped(prs)[v] == Accumulator(|PrsOf(prs, v)|, PrsOf(prs, v))
      {
        assert PrsOf(prs, v) == PrsOf(front, v) + if u == v then [Summarize(last)] else [];
        var earlier := Grouped(front);
        if u == "" {
          assert Grouped(prs) == earlier && v != "";
        } else {
          assert Grouped(prs) == Bump(earlier, u, Summarize(last));
          if v == u {
            var acc := if u in earlier then earlier[u] else Accumulator(0, []);
            assert acc == Accumulator(|PrsOf(front, u)|, PrsOf(front, u));
          } else {
            assert Grouped(prs)[v] == earlier[v];
          }
        }
      }
    }
  }

  /** The body of the `for` loop for one record: a record with an author creates that
      author's accumulator the first time it is seen (and so enters the insertion order), then
      bumps its count and appends its summary; a record without an author is skipped. */
  method AddRecord(order: seq<string>, contributors: map<string, Accumulator>, pr: PullRequest)
    returns (order': seq<string>, contributors': map<string, Accumulator>)
    ensures var u := Login(pr);
            order' == if u != "" && u !in contributors then order + [u] else order
    ensures var u := Login(pr);
            contributors' == if u == "" then contributors else Bump(contributors, u, Summarize(pr))
  {
    order', contributors' := order, contributors;
    var username := Login(pr);
    if username != "" {
      if username !in contributors' {
        contributors' := contributors'[username := Accumulator(0, [])];
        order' := order' + [username];
      }
      var acc := contributors'[username];
      contributors' := contributors'[username := Accumulator(acc.count + 1, acc.prs + [Summarize(pr)])];
    }
  }

  /** The `for` loop over the fetched records: its dictionary and insertion order are those of
      the whole list. */
  method GroupByContributor(prs: seq<PullRequest>) returns (order: seq<string>, contributors: map<string, Accumulator>)
    ensures order == FirstSeen(prs)
    ensures contributors == Grouped(prs)
  {
    order := [];
    contributors := map[];
    var i := 0;
    while i < |prs|
      invariant 0 <= i <= |prs|
      invariant order == FirstSeen(prs[..i]) && contributors == Grouped(prs[..i])
    {
      assert prs[..i + 1][..i] == prs[..i];
      assert prs[..i + 1][i] == prs[i];
      order, contributors := AddRecord(order, contributors, prs[i]);
      i := i + 1;
    }
    assert prs[..i] == prs;
  }

  // ---------------------------------------------------------------------------------------
  // Count conservation

  /** The total length of the lists of `names`. */
  function SumLengths(names: seq<string>, prs: seq<PullRequest>): nat
    decreases |names|
  {
    if names == [] then 0 else |PrsOf(prs, names[0])| + SumLengths(names[1..], prs)
  }

  lemma {:induction false} SumLengthsAppend(names: seq<string>, u: string, prs: seq<PullRequest>)
    ensures SumLengths(names + [u], prs) == SumLengths(names, prs) + |PrsOf(prs, u)|
    decreases |names|
  {
    if names != [] {
      assert (names + [u])[1..] == names[1..] + [u];
      SumLengthsAppend(names[1..], u, prs);
    }
  }

  /** One more record adds one to the total exactly when its login is among `names`. */
  lemma {:induction false} SumLengthsStep(names: seq<string>, prs: seq<PullRequest>)
    requires |prs| > 0 && NoDuplicates(names)
    requires forall u :: u in names ==> u != ""
    ensures SumLengths(names, prs)
         == SumLengths(names, prs[..|prs| - 1]) + if Login(prs[|prs| - 1]) in names then 1 else 0
    decreases |names|
  {
    if names != [] {
      var rest := names[1..];
      assert NoDuplicates(rest) by {
        forall i, j | 0 <= i < j < |rest| ensures rest[i] != rest[j] { assert rest[i] == names[i + 1] && rest[j] == names[j + 1]; }
      }
      assert names[0] !in rest by {
        forall k | 0 <= k < |rest| ensures rest[k] != names[0] { assert rest[k] == names[k + 1]; }
      }
      assert forall u :: u in rest ==> u in names;
      SumLengthsStep(rest, prs);
      var u := Login(prs[|prs| - 1]);
      assert u in names <==> u == names[0] || u in rest;
    }
  }

  /** Summed over the authors, the list lengths count every record that has an author. */
  lemma {:induction false} SumLengthsFirstSeen(prs: seq<PullRequest>)
    ensures SumLengths(FirstSeen(prs), prs) == CountAuthored(prs)
    decreases |prs|
  {
    if prs != [] {
      var front := prs[..|prs| - 1];
      var last := prs[|prs| - 1];
      var u := Login(last);
      var earlier := FirstSeen(front);
      SumLengthsFirstSeen(front);
      FirstSeenAuthors(front);
      SumLengthsStep(earlier, prs);
      if u != "" && u !in earlier {
        SumLengthsAppend(earlier, u, prs);
        assert forall i :: 0 <= i < |front| ==> Login(front[i]) != u;
        PrsOfAbsent(front, u);
        assert |PrsOf(prs, u)| == 1;
      }
    }
  }

  /** Every summary in a login's list is that of a record with that login. */
  lemma {:induction false} PrsOfFrom(prs: seq<PullRequest>, u: string)
    ensures forall x :: x in PrsOf(prs, u) ==>
              exists j :: 0 <= j < |prs| && Login(prs[j]) == u && x == Summarize(prs[j])
    decreases |prs|
  {
    if prs != [] {
      var front := prs[..|prs| - 1];
      PrsOfFrom(front, u);
      forall x | x in PrsOf(prs, u)
        ensures exists j :: 0 <= j < |prs| && Login(prs[j]) == u && x == Summarize(prs[j])
      {
        if x in PrsOf(front, u) {
          var j :| 0 <= j < |front| && Login(front[j]) == u && x == Summarize(front[j]);
          assert prs[j] == front[j];
        } else {
          var j := |prs| - 1;
          assert Login(prs[j]) == u && x == Summarize(prs[j]);
        }
      }
    }
  }

  // ---------------------------------------------------------------------------------------
  // The grouping as written, on a plain object

  /** The members every plain object inherits from `Object.prototype`. */
  const PrototypeNames: set<string> := {
    "constructor", "hasOwnProperty", "isPrototypeOf", "propertyIsEnumerable", "toLocaleString",
    "toString", "valueOf", "__proto__", "__defineGetter__", "__defineSetter__",
    "__lookupGetter__", "__lookupSetter__" }

  /** The message the runtime gives when `contributors[username].prs.push(...)` runs on an
      inherited member, which has no `prs`. */
  const PushOnUndefined := "Cannot read properties of undefined (reading 'push')"

  /** The grouping loop on the plain object `contributors` as it is: `inherited` holds the
      names the object answers for before any assignment (`PrototypeNames` for `{}`). For a
      login among them `contributors[username]` is that member, so no accumulator is created
      and appending to its `prs` throws, which the route turns into a 500 response. */
  method GroupAsWritten(prs: seq<PullRequest>, inherited: set<string>)
    returns (r: Result<(seq<string>, map<string, Accumulator>), string>)
    requires "" !in inherited
    ensures r.Failure? <==> exists i :: 0 <= i < |prs| && Login(prs[i]) in inherited
    ensures r.Failure? ==> r.error == PushOnUndefined
    ensures r.Success? ==> r.value == (FirstSeen(prs), Grouped(prs))
  {
    var order: seq<string> := [];
    var contributors: map<string, Accumulator> := map[];
    var i := 0;
    while i < |prs|
      invariant 0 <= i <= |prs|
      invariant forall j :: 0 <= j < i ==> Login(prs[j]) !in inherited
      invariant forall u :: u in contributors ==> u !in inherited
      invariant order == FirstSeen(prs[..i]) && contributors == Grouped(prs[..i])
    {
      var username := Login(prs[i]);
      if username != "" && username !in contributors && username in inherited {
        return Failure(PushOnUndefined);
      }
      assert prs[..i + 1][..i] == prs[..i];
      assert prs[..i + 1][i] == prs[i];
      order, contributors := AddRecord(order, contributors, prs[i]);
      i := i + 1;
    }
    assert prs[..i] == prs;
    r := Success((order, contributors));
  }

  /** The grouping as written, run on one record by the login "constructor": it fails with
      the runtime's `push` error. */
  method GroupConstructorLogin() returns (r: Result<(seq<string>, map<string, Accumulator>), string>)
    ensures r.Failure? && r.error == PushOnUndefined
  {
    var prs := [PullRequest(1, "Fix typo", "open", Some(User("constructor", None)), 0, None, "")];
    assert "" !in PrototypeNames;
    assert Login(prs[0]) in PrototypeNames;
    r := GroupAsWritten(prs, PrototypeNames);
  }
}
