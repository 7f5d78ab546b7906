/**
 * Link discovery for one query (`scrape_links_for_query`). The browser is
 * replaced by a `Board`: what the search site shows at each URL.
 */
module LinkCollector {
  import opened Wrappers
  import opened Errors
  import opened ResultCount

  /**
   * The search site as data. `counts[u]` is the text of the result-count
   * indicator on the search page `u`; `listings[u]` is the list of anchor
   * hrefs on the result page `u`. A URL missing from a map is a page on which
   * the awaited selector never appears.
   */
  datatype Board = Board(counts: map<string, string>, listings: map<string, seq<string>>)

  const SearchPrefix: string := "https://www.welcometothejungle.com/fr/jobs?query="
  const RemoteFilter: string := "&refinementList%5Bremote%5D%5B%5D=fulltime"

  /** The search URL of a query: the query is inserted verbatim, the full-time remote filter is fixed. */
  function SearchUrl(query: string): (u: string)
    ensures |u| == |SearchPrefix| + |query| + |RemoteFilter|
    ensures u[..|SearchPrefix|] == SearchPrefix
    ensures u[|SearchPrefix|..|SearchPrefix| + |query|] == query
    ensures u[|SearchPrefix| + |query|..] == RemoteFilter
  {
    SearchPrefix + query + RemoteFilter
  }

  /** Distinct queries search at distinct URLs. */
  lemma SearchUrlInjective(q1: string, q2: string)
    requires SearchUrl(q1) == SearchUrl(q2)
    ensures q1 == q2
  {
    assert |q1| == |q2|;
  }

  /** The URL of result page `n` of the search at `base`. */
  function PageUrl(base: string, n: nat): string {
    base + PageParam + DecimalString(n)
  }

  /** A page URL is the search URL, the page parameter, and digits that read back as the page number. */
  lemma PageUrlShape(base: string, n: nat)
    ensures var r := PageUrl(base, n);
      && |r| > |base| + |PageParam|
      && r[..|base|] == base
      && r[|base|..|base| + |PageParam|] == PageParam
      && AllDigits(r[|base| + |PageParam|..])
      && DecimalValue(r[|base| + |PageParam|..]) == n
  {
    DecimalRoundTrip(n);
    var r := PageUrl(base, n);
    assert r[|base| + |PageParam|..] == DecimalString(n);
  }

  /** The query parameter that selects a result page. */
  const PageParam: string := "&page="

  /** Distinct page numbers give distinct page URLs, so each page is fetched on its own. */
  lemma PageUrlInjective(base: string, m: nat, n: nat)
    requires PageUrl(base, m) == PageUrl(base, n)
    ensures m == n
  {
    var k := |base + PageParam|;
    assert PageUrl(base, m)[k..] == DecimalString(m);
    assert PageUrl(base, n)[k..] == DecimalString(n);
    DecimalStringInjective(m, n);
  }

  /** The URLs of pages 1..n, in ascending page order. */
  function PagesUpTo(base: string, n: nat): (r: seq<string>)
    ensures |r| == n
    ensures forall i :: 0 <= i < n ==> r[i] == PageUrl(base, i + 1)
  {
    if n == 0 then [] else PagesUpTo(base, n - 1) + [PageUrl(base, n)]
  }

  /** `sub in s` for strings: `sub` occurs in `s` at some offset. */
  predicate Contains(s: string, sub: string)
    decreases |s|
  {
    |sub| <= |s| && (s[..|sub|] == sub || Contains(s[1..], sub))
  }

  predicate OccursAt(s: string, sub: string, i: nat) {
    i + |sub| <= |s| && s[i..i + |sub|] == sub
  }

  /** Contains agrees with the definition of a substring by offsets, both ways. */
  lemma {:induction false} ContainsIff(s: string, sub: string)
    ensures Contains(s, sub) <==> exists i: nat :: OccursAt(s, sub, i)
    decreases |s|
  {
    if |sub| <= |s| {
      if s[..|sub|] == sub {
        assert OccursAt(s, sub, 0);
      } else {
        ContainsIff(s[1..], sub);
        if Contains(s[1..], sub) {
          var i: nat :| OccursAt(s[1..], sub, i);
          assert s[1..][i..i + |sub|] == s[i + 1..i + 1 + |sub|];
          assert OccursAt(s, sub, i + 1);
        } else if exists i: nat :: OccursAt(s, sub, i) {
          var i: nat :| OccursAt(s, sub, i);
          assert i != 0;
          assert s[1..][i - 1..i - 1 + |sub|] == s[i..i + |sub|];
          assert OccursAt(s[1..], sub, i - 1);
        }
      }
    }
  }

  /** The detail-link pattern: the href contains both `/fr/companies/` and `/jobs/`. */
  predicate IsDetailLink(href: string) {
    Contains(href, "/fr/companies/") && Contains(href, "/jobs/")
  }

  /** The list comprehension that keeps the detail links of a page, in page order. */
  function DetailLinks(hrefs: seq<string>): (r: seq<string>)
    ensures |r| <= |hrefs|
    ensures forall h :: h in r <==> h in hrefs && IsDetailLink(h)
  {
    if hrefs == [] then []
    else
      var last := hrefs[|hrefs| - 1];
      var front := hrefs[..|hrefs| - 1];
      assert hrefs == front + [last];
      DetailLinks(front) + (if IsDetailLink(last) then [last] else [])
  }

  predicate NoDuplicates(s: seq<string>) {
    forall i, j :: 0 <= i < j < |s| ==> s[i] != s[j]
  }

  /**
   * `list(set(s))`: the distinct elements of `s`. Python does not fix the
   * order of a set; this model keeps first occurrences, and the contracts
   * below speak only of membership and the absence of duplicates.
   */
  function Dedup(s: seq<string>): (r: seq<string>)
    ensures NoDuplicates(r)
    ensures forall x :: x in r <==> x in s
    ensures |r| <= |s|
  {
    if s == [] then []
    else
      var last := s[|s| - 1];
      var front := s[..|s| - 1];
      assert s == front + [last];
      var d := Dedup(front);
      if last in d then d else d + [last]
  }

  /** `extract_total_results(page) or 0` on the search page `base`. */
  function TotalResults(board: Board, base: string): (r: Result<nat, Error>)
    ensures base !in board.counts ==> r == Failure(SelectorTimeout(base))
    ensures base in board.counts ==> r == ParseTotal(board.counts[base])
  {
    if base !in board.counts then Failure(SelectorTimeout(base)) else ParseTotal(board.counts[base])
  }

  predicate Listed(board: Board, base: string, p: nat) {
    PageUrl(base, p) in board.listings
  }

  /** The number of leading pages among 1..n whose result list renders. */
  function ListedPrefix(board: Board, base: string, n: nat): (k: nat)
    ensures k <= n
    ensures forall p :: 1 <= p <= k ==> Listed(board, base, p)
    ensures k < n ==> !Listed(board, base, k + 1)
  {
    ListedFrom(board, base, 1, n)
  }

  function ListedFrom(board: Board, base: string, p: nat, n: nat): (k: nat)
    requires 1 <= p <= n + 1
    requires forall q :: 1 <= q < p ==> Listed(board, base, q)
    ensures p - 1 <= k <= n
    ensures forall q :: 1 <= q <= k ==> Listed(board, base, q)
    ensures k < n ==> !Listed(board, base, k + 1)
    decreases n + 1 - p
  {
    if p > n then n
    else if !Listed(board, base, p) then p - 1
    else ListedFrom(board, base, p + 1, n)
  }

  /** The detail links shown on result page `p`. */
  ghost predicate OnPage(board: Board, base: string, p: nat, h: string) {
    Listed(board, base, p) && h in board.listings[PageUrl(base, p)] && IsDetailLink(h)
  }

  /** Every detail link on result pages 1..n. */
  ghost function Harvest(board: Board, base: string, n: nat): set<string> {
    if n == 0 then {}
    else Harvest(board, base, n - 1) + set h | h in DetailLinks(PageHrefs(board, base, n))
  }

  function PageHrefs(board: Board, base: string, p: nat): seq<string> {
    if Listed(board, base, p) then board.listings[PageUrl(base, p)] else []
  }

  /** A link is harvested from pages 1..n exactly when some page among them shows it. */
  lemma {:induction false} HarvestMembers(board: Board, base: string, n: nat, h: string)
    ensures h in Harvest(board, base, n) <==> exists p :: 1 <= p <= n && OnPage(board, base, p, h)
  {
    if n > 0 {
      HarvestMembers(board, base, n - 1, h);
      var here := h in DetailLinks(PageHrefs(board, base, n));
      assert h in Harvest(board, base, n) <==> h in Harvest(board, base, n - 1) || here;
      assert here <==> OnPage(board, base, n, h);
      if h in Harvest(board, base, n) {
        if !here {
          var p :| 1 <= p <= n - 1 && OnPage(board, base, p, h);
          assert 1 <= p <= n;
        }
      }
      if exists p :: 1 <= p <= n && OnPage(board, base, p, h) {
        var p :| 1 <= p <= n && OnPage(board, base, p, h);
        if p < n {
          assert h in Harvest(board, base, n - 1);
        }
      }
    }
  }

  /** Harvesting one more listed page adds exactly that page's detail links. */
  lemma HarvestStep(board: Board, base: string, p: nat)
    requires p >= 1 && Listed(board, base, p)
    ensures forall h :: h in Harvest(board, base, p) <==>
      h in Harvest(board, base, p - 1) || (h in board.listings[PageUrl(base, p)] && IsDetailLink(h))
  {
  }

  /** What link discovery for a query ends in: the number of pages it visits, or the exception it raises. */
  function PagesToVisit(board: Board, query: string, debug: bool): (r: Result<nat, Error>)
    ensures SearchUrl(query) !in board.counts ==> r == Failure(SelectorTimeout(SearchUrl(query)))
    ensures SearchUrl(query) in board.counts && NoDigits(board.counts[SearchUrl(query)]) ==>
      r == Failure(InvalidLiteral(""))
    ensures r.Success? <==> SearchUrl(query) in board.counts && !NoDigits(board.counts[SearchUrl(query)])
    ensures r.Success? && debug ==> r.value == 1
    ensures r.Success? && !debug ==>
      (r.value == 0 <==> DecimalValue(Digits(board.counts[SearchUrl(query)])) == 0)
  {
    match TotalResults(board, SearchUrl(query))
    case Failure(e) => Failure(e)
    case Success(total) => Success(PageCount(total, debug))
  }

  /** Once the count parses, the pages to visit are `1 if debug else ceil(total / 32)` of the parsed total. */
  lemma PagesToVisitCount(board: Board, query: string, debug: bool)
    requires PagesToVisit(board, query, debug).Success?
    ensures var n := PagesToVisit(board, query, debug).value;
      var total := DecimalValue(Digits(board.counts[SearchUrl(query)]));
      && n == PageCount(total, debug)
      && (!debug ==> total <= n * ResultsPerPage && (n > 0 ==> (n - 1) * ResultsPerPage < total))
  {
  }

  /** A count that raises (missing indicator or no digit) ends discovery after the search page alone. */
  lemma CountFailureVisitsSearchOnly(board: Board, query: string, debug: bool)
    requires PagesToVisit(board, query, debug).Failure?
    ensures Visits(board, query, debug) == [SearchUrl(query)]
    ensures CollectFailure(board, query, debug) == Some(PagesToVisit(board, query, debug).error)
  {
  }

  /** The exception link discovery raises, if any: from the count, or the first page whose list does not render. */
  function CollectFailure(board: Board, query: string, debug: bool): (r: Option<Error>)
    ensures PagesToVisit(board, query, debug).Failure? ==> r == Some(PagesToVisit(board, query, debug).error)
    ensures PagesToVisit(board, query, debug).Success? ==>
      var n := PagesToVisit(board, query, debug).value;
      (r.None? <==> forall p :: 1 <= p <= n ==> Listed(board, SearchUrl(query), p))
  {
    var base := SearchUrl(query);
    match PagesToVisit(board, query, debug)
    case Failure(e) => Some(e)
    case Success(n) =>
      var k := ListedPrefix(board, base, n);
      if k == n then None else Some(SelectorTimeout(PageUrl(base, k + 1)))
  }

  /** The navigations link discovery makes: the search page, then result pages 1, 2, ... up to the last or the first failing one. */
  function Visits(board: Board, query: string, debug: bool): (r: seq<string>)
    ensures |r| >= 1 && r[0] == SearchUrl(query)
  {
    var base := SearchUrl(query);
    match PagesToVisit(board, query, debug)
    case Failure(_) => [base]
    case Success(n) =>
      var k := ListedPrefix(board, base, n);
      [base] + PagesUpTo(base, if k == n then n else k + 1)
  }

  /** `links` is a correct answer for the query: the distinct detail links of all its result pages. */
  ghost predicate Collected(board: Board, query: string, debug: bool, links: seq<string>) {
    && PagesToVisit(board, query, debug).Success?
    && NoDuplicates(links)
    && forall h :: h in links <==> h in Harvest(board, SearchUrl(query), PagesToVisit(board, query, debug).value)
  }

  /** Discovery that stops at unlisted page `p` has visited pages 1..p and raises the timeout of page `p`. */
  lemma StopsAtPage(board: Board, query: string, debug: bool, n: nat, p: nat)
    requires PagesToVisit(board, query, debug) == Success(n)
    requires 1 <= p <= n
    requires forall q :: 1 <= q < p ==> Listed(board, SearchUrl(query), q)
    requires !Listed(board, SearchUrl(query), p)
    ensures Visits(board, query, debug) == [SearchUrl(query)] + PagesUpTo(SearchUrl(query), p)
    ensures CollectFailure(board, query, debug) == Some(SelectorTimeout(PageUrl(SearchUrl(query), p)))
  {
    assert ListedPrefix(board, SearchUrl(query), n) == p - 1;
  }

  /** Discovery over pages that all render has visited every page and raises nothing. */
  lemma VisitsAllPages(board: Board, query: string, debug: bool, n: nat)
    requires PagesToVisit(board, query, debug) == Success(n)
    requires forall q :: 1 <= q <= n ==> Listed(board, SearchUrl(query), q)
    ensures Visits(board, query, debug) == [SearchUrl(query)] + PagesUpTo(SearchUrl(query), n)
    ensures CollectFailure(board, query, debug) == None
  {
    assert ListedPrefix(board, SearchUrl(query), n) == n;
  }

  /** Visiting page `p` after the search page and pages 1..p-1 extends the visits in page order. */
  lemma VisitNext(base: string, p: nat, visited: seq<string>)
    requires p >= 1 && visited == [base] + PagesUpTo(base, p - 1)
    ensures visited + [PageUrl(base, p)] == [base] + PagesUpTo(base, p)
  {
  }

  /** The links gathered from pages 1..p-1 plus the distinct detail links of listed page `p` are the harvest of 1..p. */
  lemma GatherPage(board: Board, base: string, p: nat, all: seq<string>)
    requires p >= 1 && Listed(board, base, p)
    requires forall h :: h in all <==> h in Harvest(board, base, p - 1)
    ensures forall h :: h in all + Dedup(DetailLinks(board.listings[PageUrl(base, p)])) <==> h in Harvest(board, base, p)
  {
    HarvestStep(board, base, p);
  }

  /** Deduplicating the links of every page of a query that discovers `n` pages is a correct answer. */
  lemma GatherComplete(board: Board, query: string, debug: bool, n: nat, all: seq<string>)
    requires PagesToVisit(board, query, debug) == Success(n)
    requires forall h :: h in all <==> h in Harvest(board, SearchUrl(query), n)
    ensures Collected(board, query, debug, Dedup(all))
  {
  }

  /**
   * `scrape_links_for_query`: visit the search page, count the results, then
   * visit result pages 1..N in ascending order, keeping the distinct detail
   * links. Any failure propagates as the exception raised.
   */
  method ScrapeLinks(board: Board, query: string, debug: bool) returns (r: Result<seq<string>, Error>, visited: seq<string>)
    ensures visited == Visits(board, query, debug)
    ensures r.Failure? <==> CollectFailure(board, query, debug).Some?
    ensures r.Failure? ==> r.error == CollectFailure(board, query, debug).value
    ensures r.Success? ==> Collected(board, query, debug, r.value)
  {
    var base := SearchUrl(query);
    visited := [base];
    var counted := TotalResults(board, base);
    if counted.Failure? {
      return Failure(counted.error), visited;
    }
    var pages := PageCount(counted.value, debug);
    assert PagesToVisit(board, query, debug) == Success(pages);
    var all: seq<string> := [];
    var p := 1;
    while p <= pages
      invariant 1 <= p <= pages + 1
      invariant forall q :: 1 <= q < p ==> Listed(board, base, q)
      invariant visited == [base] + PagesUpTo(base, p - 1)
      invariant forall h :: h in all <==> h in Harvest(board, base, p - 1)
    {
      var url := PageUrl(base, p);
      VisitNext(base, p, visited);
      visited := visited + [url];
      if url !in board.listings {
        StopsAtPage(board, query, debug, pages, p);
        return Failure(SelectorTimeout(url)), visited;
      }
      var pageLinks := Dedup(DetailLinks(board.listings[url]));
      GatherPage(board, base, p, all);
      all := all + pageLinks;
      p := p + 1;
    }
    VisitsAllPages(board, query, debug, pages);
    GatherComplete(board, query, debug, pages, all);
    r := Success(Dedup(all));
  }

  /**
   * A correct answer holds exactly the hrefs, over result pages 1..N, that
   * contain both `/fr/companies/` and `/jobs/`.
   */
  lemma CollectedMembers(board: Board, query: string, debug: bool, links: seq<string>, h: string)
    requires Collected(board, query, debug, links)
    ensures var n := PagesToVisit(board, query, debug).value;
      h in links <==> exists p :: 1 <= p <= n && OnPage(board, SearchUrl(query), p, h)
    ensures h in links ==> Contains(h, "/fr/companies/") && Contains(h, "/jobs/")
  {
    HarvestMembers(board, SearchUrl(query), PagesToVisit(board, query, debug).value, h);
  }

  /** In debug mode a query whose count parses visits the search page and result page 1, whatever the count. */
  lemma DebugVisitsOnePage(board: Board, query: string)
    requires TotalResults(board, SearchUrl(query)).Success?
    ensures Visits(board, query, true) == [SearchUrl(query), PageUrl(SearchUrl(query), 1)]
  {
  }

  /** With zero results outside debug mode no result page is visited and no link is found. */
  lemma ZeroResultsVisitNoPage(board: Board, query: string, links: seq<string>)
    requires TotalResults(board, SearchUrl(query)) == Success(0)
    requires Collected(board, query, false, links)
    ensures Visits(board, query, false) == [SearchUrl(query)]
    ensures forall h :: h !in links
  {
    assert PagesToVisit(board, query, false) == Success(0);
  }
}
