/** The page-by-page retrieval shared by both route handlers: request page 1, 2, ... of size
    `PerPage` from the remote listing, stop on a failed response, an empty page, a short page
    or (when a filter is active) a page the filter thinned out.

    The remote listing is a finite sequence of responses; asking for a page past its end gets
    an empty successful page, so every retrieval ends. */
module Pagination {

  import opened Wrappers

  /** Records requested per page (`per_page=100`). */
  const PerPage: nat := 100

  /** One HTTP response of the remote listing: its status, status text and decoded body. */
  datatype PageResponse<T> = PageResponse(status: int, statusText: string, body: seq<T>) {
    /** `Response.ok`: a 2xx status. */
    predicate Ok() { 200 <= status <= 299 }
  }

  /** The outcome of a whole retrieval: every kept record in order, or the first failure. */
  datatype Fetch<T> = Fetched(items: seq<T>) | FetchFailed(status: int, statusText: string)

  /** The response to a request for `page` (numbered from 1). */
  function PageAt<T>(pages: seq<PageResponse<T>>, page: nat): (r: PageResponse<T>)
    requires page >= 1
    ensures page > |pages| ==> r.Ok() && r.body == []
  {
    if page <= |pages| then pages[page - 1] else PageResponse(200, "OK", [])
  }

  /** The records of `s` that satisfy `keep`, in order (`Array.prototype.filter`). */
  function Filter<T>(s: seq<T>, keep: T -> bool): (r: seq<T>)
    ensures |r| <= |s|
    ensures forall i :: 0 <= i < |r| ==> keep(r[i])
    ensures forall x :: x in r ==> x in s
    ensures |r| == |s| <==> forall i :: 0 <= i < |s| ==> keep(s[i])
    decreases |s|
  {
    if s == [] then []
    else
      var rest := Filter(s[1..], keep);
      assert forall i :: 0 <= i < |s[1..]| ==> s[1..][i] == s[i + 1];
      if keep(s[0]) then [s[0]] + rest else rest
  }

  /** Conversely, every record of `s` that satisfies `keep` is kept. */
  lemma {:induction false} FilterKeepsAccepted<T>(s: seq<T>, keep: T -> bool)
    ensures forall i :: 0 <= i < |s| && keep(s[i]) ==> s[i] in Filter(s, keep)
    decreases |s|
  {
    if s != [] {
      FilterKeepsAccepted(s[1..], keep);
      forall i | 0 <= i < |s| && keep(s[i]) ensures s[i] in Filter(s, keep) {
        if i > 0 { assert s[i] == s[1..][i - 1]; }
      }
    }
  }

  /** Filtering works element by element: a concatenation filters to the concatenation of
      the filtered parts, and one record is kept exactly when it satisfies the predicate; with
      `Filter([], keep) == []` this determines `Filter`, order included. */
  lemma {:induction false} FilterAppend<T>(a: seq<T>, b: seq<T>, keep: T -> bool)
    ensures Filter(a + b, keep) == Filter(a, keep) + Filter(b, keep)
    ensures forall x :: Filter([x], keep) == if keep(x) then [x] else []
    decreases |a|
  {
    if a == [] {
      assert a + b == b;
    } else {
      assert (a + b)[0] == a[0];
      assert (a + b)[1..] == a[1..] + b;
      FilterAppend(a[1..], b, keep);
      if keep(a[0]) {
        assert Filter(a + b, keep) == [a[0]] + (Filter(a[1..], keep) + Filter(b, keep));
      }
    }
    forall x ensures Filter([x], keep) == if keep(x) then [x] else [] {
      assert [x][1..] == [];
    }
  }

  /** What a page adds to the result: all of it, or its filtered part when a filter is active. */
  function Kept<T>(body: seq<T>, filter: Option<T -> bool>): seq<T>
  {
    match filter
    case None => body
    case Some(keep) => Filter(body, keep)
  }

  /** A page after which no further page is requested. */
  predicate Ends<T>(p: PageResponse<T>, filter: Option<T -> bool>)
  {
    || !p.Ok()
    || |p.body| == 0
    || (filter.Some? && |Kept(p.body, filter)| < |p.body|)
    || |p.body| < PerPage
  }

  /** `items` in front of a retrieval that succeeded; a failure stays a failure. */
  function Prepend<T>(items: seq<T>, rest: Fetch<T>): Fetch<T>
  {
    match rest
    case Fetched(more) => Fetched(items + more)
    case FetchFailed(_, _) => rest
  }

  lemma PrependTwice<T>(a: seq<T>, b: seq<T>, rest: Fetch<T>)
    ensures Prepend(a, Prepend(b, rest)) == Prepend(a + b, rest)
  {
    if rest.Fetched? {
      assert a + (b + rest.items) == a + b + rest.items;
    }
  }

  /** The retrieval starting at `page`, one page at a time, as the route handlers perform it. */
  function FetchFrom<T>(pages: seq<PageResponse<T>>, page: nat, filter: Option<T -> bool>): Fetch<T>
    requires page >= 1
    decreases |pages| + 1 - page
  {
    var p := PageAt(pages, page);
    if !p.Ok() then FetchFailed(p.status, p.statusText)
    else if |p.body| == 0 then Fetched([])
    else if Ends(p, filter) then Fetched(Kept(p.body, filter))
    else Prepend(Kept(p.body, filter), FetchFrom(pages, page + 1, filter))
  }

  /** One step of a retrieval: the page at hand and the retrieval from the next page on. */
  lemma FetchStep<T>(pages: seq<PageResponse<T>>, page: nat, filter: Option<T -> bool>, acc: seq<T>)
    requires page >= 1
    ensures var p := PageAt(pages, page);
            Prepend(acc, FetchFrom(pages, page, filter))
              == if !p.Ok() then FetchFailed(p.status, p.statusText)
                 else if |p.body| == 0 then Fetched(acc)
                 else if Ends(p, filter) then Fetched(acc + Kept(p.body, filter))
                 else Prepend(acc + Kept(p.body, filter), FetchFrom(pages, page + 1, filter))
  {
    var p := PageAt(pages, page);
    if p.Ok() && |p.body| == 0 {
      assert acc + [] == acc;
    } else if p.Ok() && !Ends(p, filter) {
      PrependTwice(acc, Kept(p.body, filter), FetchFrom(pages, page + 1, filter));
    }
  }

  /** The last page requested when retrieval starts at `page`: the first one that ends it. */
  function FirstEnd<T>(pages: seq<PageResponse<T>>, page: nat, filter: Option<T -> bool>): (k: nat)
    requires page >= 1
    ensures page <= k
    ensures k <= |pages| + 1 || k == page
    ensures Ends(PageAt(pages, k), filter)
    ensures forall j :: page <= j < k ==> !Ends(PageAt(pages, j), filter)
    decreases |pages| + 1 - page
  {
    if Ends(PageAt(pages, page), filter) then page else FirstEnd(pages, page + 1, filter)
  }

  /** The records pages `from` .. `to - 1` add to the result, in page order. */
  function Collected<T>(pages: seq<PageResponse<T>>, from: nat, to: nat, filter: Option<T -> bool>): seq<T>
    requires from >= 1
    decreases if from < to then to - from else 0
  {
    if from >= to then [] else Kept(PageAt(pages, from).body, filter) + Collected(pages, from + 1, to, filter)
  }

  /** A retrieval from a page that ends it: that page's failure, or its kept records. */
  lemma FetchAtEnd<T>(pages: seq<PageResponse<T>>, page: nat, filter: Option<T -> bool>)
    requires page >= 1 && Ends(PageAt(pages, page), filter)
    ensures var p := PageAt(pages, page);
            FetchFrom(pages, page, filter)
              == if !p.Ok() then FetchFailed(p.status, p.statusText) else Fetched(Kept(p.body, filter))
  {
    var p := PageAt(pages, page);
    if p.Ok() && |p.body| == 0 && filter.Some? {
      assert |Filter(p.body, filter.value)| <= 0;
    }
  }

  /** The closed form below, true at the next page, holds at a page that does not end the
      retrieval. */
  lemma ClosedFormPastPage<T>(pages: seq<PageResponse<T>>, page: nat, filter: Option<T -> bool>)
    requires page >= 1 && !Ends(PageAt(pages, page), filter)
    requires var k := FirstEnd(pages, page + 1, filter);
             var last := PageAt(pages, k);
             FetchFrom(pages, page + 1, filter)
               == if !last.Ok() then FetchFailed(last.status, last.statusText)
                  else Fetched(Collected(pages, page + 1, k + 1, filter))
    ensures var k := FirstEnd(pages, page, filter);
            var last := PageAt(pages, k);
            FetchFrom(pages, page, filter)
              == if !last.Ok() then FetchFailed(last.status, last.statusText)
                 else Fetched(Collected(pages, page, k + 1, filter))
  {
    var k := FirstEnd(pages, page, filter);
    assert k == FirstEnd(pages, page + 1, filter);
    var kept := Kept(PageAt(pages, page).body, filter);
    var rest := FetchFrom(pages, page + 1, filter);
    assert FetchFrom(pages, page, filter) == Prepend(kept, rest);
    if rest.Fetched? {
      assert Collected(pages, page, k + 1, filter) == kept + rest.items;
    }
  }

  /** Closed form of a retrieval: pages `page` .. `FirstEnd` are requested; if the last of them
      failed, its status is the outcome, otherwise the kept parts of all of them in order. */
  lemma {:induction false} FetchClosedForm<T>(pages: seq<PageResponse<T>>, page: nat, filter: Option<T -> bool>)
    requires page >= 1
    ensures var k := FirstEnd(pages, page, filter);
            var last := PageAt(pages, k);
            FetchFrom(pages, page, filter)
              == if !last.Ok() then FetchFailed(last.status, last.statusText)
                 else Fetched(Collected(pages, page, k + 1, filter))
    decreases |pages| + 1 - page
  {
    if Ends(PageAt(pages, page), filter) {
      FetchAtEnd(pages, page, filter);
      assert Collected(pages, page + 1, page + 1, filter) == [];
    } else {
      FetchClosedForm(pages, page + 1, filter);
      ClosedFormPastPage(pages, page, filter);
    }
  }

  /** A retrieval fails exactly when the last page it requests is not a 2xx response, and then
      reports that response's status and text; so a failure never carries a 2xx status. */
  lemma FailedOutcome<T>(pages: seq<PageResponse<T>>, page: nat, filter: Option<T -> bool>)
    requires page >= 1
    ensures FetchFrom(pages, page, filter).FetchFailed? <==> !PageAt(pages, FirstEnd(pages, page, filter)).Ok()
    ensures FetchFrom(pages, page, filter).FetchFailed? ==>
              FetchFrom(pages, page, filter).status == PageAt(pages, FirstEnd(pages, page, filter)).status
              && !(200 <= FetchFrom(pages, page, filter).status <= 299)
  {
    FetchClosedForm(pages, page, filter);
  }

  /** The next page is requested only after a successful page of at least `PerPage` records
      that the filter, if any, kept whole. */
  lemma BeforeLastPage<T>(pages: seq<PageResponse<T>>, page: nat, filter: Option<T -> bool>, j: nat)
    requires 1 <= page <= j < FirstEnd(pages, page, filter)
    ensures PageAt(pages, j).Ok() && |PageAt(pages, j).body| >= PerPage
    ensures Kept(PageAt(pages, j).body, filter) == PageAt(pages, j).body
  {
    var body := PageAt(pages, j).body;
    assert !Ends(PageAt(pages, j), filter);
    if filter.Some? {
      FilterWhole(body, filter.value);
    }
  }

  /** A filter that drops nothing returns its input. */
  lemma {:induction false} FilterWhole<T>(s: seq<T>, keep: T -> bool)
    requires |Filter(s, keep)| == |s|
    ensures Filter(s, keep) == s
    decreases |s|
  {
    if s != [] {
      assert keep(s[0]);
      FilterWhole(s[1..], keep);
      assert [s[0]] + s[1..] == s;
    }
  }

  /** A retrieval looks at no page after the one that ends it: a listing that answers pages
      `page` .. `FirstEnd` the same way gives the same outcome, whatever it answers later. */
  lemma {:induction false} FetchIgnoresLaterPages<T>(pages: seq<PageResponse<T>>, other: seq<PageResponse<T>>,
                                                     page: nat, filter: Option<T -> bool>)
    requires page >= 1
    requires forall j :: page <= j <= FirstEnd(pages, page, filter) ==> PageAt(other, j) == PageAt(pages, j)
    ensures FirstEnd(other, page, filter) == FirstEnd(pages, page, filter)
    ensures FetchFrom(other, page, filter) == FetchFrom(pages, page, filter)
    decreases |pages| + 1 - page
  {
    if !Ends(PageAt(pages, page), filter) {
      FetchIgnoresLaterPages(pages, other, page + 1, filter);
    }
  }

  /** With a filter, every collected record satisfies it; every collected record is on one of
      the pages collected from. */
  lemma {:induction false} CollectedFrom<T>(pages: seq<PageResponse<T>>, from: nat, to: nat, filter: Option<T -> bool>)
    requires from >= 1
    ensures filter.Some? ==> forall x :: x in Collected(pages, from, to, filter) ==> filter.value(x)
    ensures forall x :: x in Collected(pages, from, to, filter) ==>
              (exists j :: from <= j < to && x in PageAt(pages, j).body)
    decreases if from < to then to - from else 0
  {
    if from < to {
      CollectedFrom(pages, from + 1, to, filter);
      var here := Kept(PageAt(pages, from).body, filter);
      forall x | x in Collected(pages, from, to, filter)
        ensures (filter.Some? ==> filter.value(x)) && exists j :: from <= j < to && x in PageAt(pages, j).body
      {
        if x in here {
          assert x in PageAt(pages, from).body;
          if filter.Some? {
            var i :| 0 <= i < |here| && here[i] == x;
          }
        } else {
          assert x in Collected(pages, from + 1, to, filter);
        }
      }
    }
  }

  /** Conversely, every record of a collected page that the filter, if any, accepts is
      collected. */
  lemma {:induction false} CollectedHas<T>(pages: seq<PageResponse<T>>, from: nat, to: nat, filter: Option<T -> bool>,
                                           j: nat, x: T)
    requires 1 <= from <= j < to
    requires x in PageAt(pages, j).body
    requires filter.Some? ==> filter.value(x)
    ensures x in Collected(pages, from, to, filter)
    decreases j - from
  {
    if j == from {
      if filter.Some? {
        FilterKeepsAccepted(PageAt(pages, from).body, filter.value);
        var i :| 0 <= i < |PageAt(pages, from).body| && PageAt(pages, from).body[i] == x;
      }
      assert x in Kept(PageAt(pages, from).body, filter);
    } else {
      CollectedHas(pages, from + 1, to, filter, j, x);
    }
  }

  /** Without a filter, three pages of 100, 100 and 37 records give exactly those 237 records
      in order, and the fourth page is never looked at. */
  lemma ThreePages<T>(a: seq<T>, b: seq<T>, c: seq<T>, fourth: PageResponse<T>)
    requires |a| == 100 && |b| == 100 && |c| == 37
    ensures var pages := [PageResponse(200, "OK", a), PageResponse(200, "OK", b), PageResponse(200, "OK", c), fourth];
            FetchFrom(pages, 1, None) == Fetched(a + b + c) && FirstEnd(pages, 1, None) == 3
  {
    var pages := [PageResponse(200, "OK", a), PageResponse(200, "OK", b), PageResponse(200, "OK", c), fourth];
    assert PageAt(pages, 3).body == c;
    assert FetchFrom(pages, 3, None) == Fetched(c);
    assert FetchFrom(pages, 2, None) == Fetched(b + c);
    assert FetchFrom(pages, 1, None) == Fetched(a + (b + c));
    assert a + (b + c) == a + b + c;
  }
}
