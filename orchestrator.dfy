/**
 * The run loop of `main`: for each query in order, discover its links, then
 * extract each link in turn and keep every record that comes back.
 */
module Orchestrator {
  import opened Wrappers
  import opened Errors
  import opened LinkCollector
  import opened JobDetails

  /** `main` calls `scrape_job_details(page, link)` with its default budget of three attempts. */
  const DetailRetries: nat := 3

  /** The records kept from `links`: the non-`None` extraction results, in link order. */
  function Kept(links: seq<string>, site: DetailSite): seq<JobRecord> {
    if links == [] then []
    else
      Kept(links[..|links| - 1], site) + Extracted(links[|links| - 1], site)
  }

  /** `if job_details: all_job_details.append(job_details)` for one link: its record, if any. */
  function Extracted(link: string, site: DetailSite): (r: seq<JobRecord>)
    ensures |r| <= 1
    ensures |r| == 1 <==> DetailOutcome(link, DetailRetries, site).Some?
    ensures |r| == 1 ==> Yields(link, site, r[0])
  {
    match DetailOutcome(link, DetailRetries, site)
    case Some(rec) => [rec]
    case None => []
  }

  /** The records of every query's links, query after query. */
  function Gathered(found: seq<seq<string>>, site: DetailSite): seq<JobRecord> {
    if found == [] then [] else Gathered(found[..|found| - 1], site) + Kept(found[|found| - 1], site)
  }

  /** The exception of the first query whose link discovery fails, if any. */
  function FirstFailure(board: Board, queries: seq<string>, debug: bool): (r: Option<Error>)
    ensures r.None? <==> forall i :: 0 <= i < |queries| ==> CollectFailure(board, queries[i], debug).None?
  {
    if queries == [] then None
    else
      var front := queries[..|queries| - 1];
      assert forall i :: 0 <= i < |front| ==> front[i] == queries[i];
      match FirstFailure(board, front, debug)
      case Some(e) => Some(e)
      case None => CollectFailure(board, queries[|queries| - 1], debug)
  }

  /** Once some prefix of the queries fails, the whole list fails with the same exception. */
  lemma {:induction false} FirstFailureOfPrefix(board: Board, queries: seq<string>, debug: bool, m: nat)
    requires m <= |queries|
    requires FirstFailure(board, queries[..m], debug).Some?
    ensures FirstFailure(board, queries, debug) == FirstFailure(board, queries[..m], debug)
    decreases |queries| - m
  {
    if m < |queries| {
      assert queries[..m + 1][..m] == queries[..m];
      FirstFailureOfPrefix(board, queries, debug, m + 1);
    } else {
      assert queries[..m] == queries;
    }
  }

  /** Each query's discovery returned the corresponding entry of `found`. */
  ghost predicate AllCollected(board: Board, queries: seq<string>, debug: bool, found: seq<seq<string>>) {
    |found| == |queries| && forall i :: 0 <= i < |queries| ==> Collected(board, queries[i], debug, found[i])
  }

  /** One more successful query extends the collected links and the gathered records. */
  lemma QueryStep(board: Board, queries: seq<string>, debug: bool, found: seq<seq<string>>, links: seq<string>, site: DetailSite, i: nat)
    requires i < |queries|
    requires FirstFailure(board, queries[..i], debug) == None
    requires AllCollected(board, queries[..i], debug, found)
    requires CollectFailure(board, queries[i], debug) == None
    requires Collected(board, queries[i], debug, links)
    ensures FirstFailure(board, queries[..i + 1], debug) == None
    ensures AllCollected(board, queries[..i + 1], debug, found + [links])
    ensures Gathered(found + [links], site) == Gathered(found, site) + Kept(links, site)
  {
    var qs := queries[..i + 1];
    var fs := found + [links];
    assert qs[..i] == queries[..i];
    GatheredSnoc(found, links, site);
    forall j | 0 <= j < i + 1
      ensures Collected(board, qs[j], debug, fs[j])
    {
      if j < i {
        assert qs[j] == queries[..i][j] && fs[j] == found[j];
      } else {
        assert qs[j] == queries[i] && fs[j] == links;
      }
    }
  }

  /** Every query collected: the run raises nothing and `found` answers each query in turn. */
  lemma QueriesDone(board: Board, queries: seq<string>, debug: bool, found: seq<seq<string>>)
    requires FirstFailure(board, queries[..|queries|], debug) == None
    requires AllCollected(board, queries[..|queries|], debug, found)
    ensures FirstFailure(board, queries, debug) == None
    ensures AllCollected(board, queries, debug, found)
  {
    assert queries[..|queries|] == queries;
  }

  /** A failing query ends the run with the first failure of the whole list. */
  lemma QueryFails(board: Board, queries: seq<string>, debug: bool, i: nat)
    requires i < |queries|
    requires FirstFailure(board, queries[..i], debug) == None
    requires CollectFailure(board, queries[i], debug).Some?
    ensures FirstFailure(board, queries, debug) == CollectFailure(board, queries[i], debug)
  {
    assert queries[..i + 1][..i] == queries[..i];
    FirstFailureOfPrefix(board, queries, debug, i + 1);
  }

  /**
   * The loop of `main` from the first query to writing the table. An
   * exception from link discovery ends the run with no table written.
   * `found` holds the links each query's discovery returned.
   */
  method ScrapeAll(board: Board, queries: seq<string>, debug: bool, site: DetailSite)
    returns (r: Result<seq<JobRecord>, Error>, found: seq<seq<string>>)
    ensures r.Failure? <==> FirstFailure(board, queries, debug).Some?
    ensures r.Failure? ==> r.error == FirstFailure(board, queries, debug).value
    ensures r.Success? ==> |found| == |queries|
    ensures r.Success? ==> forall i :: 0 <= i < |queries| ==> Collected(board, queries[i], debug, found[i])
    ensures r.Success? ==> r.value == Gathered(found, site)
  {
    var records: seq<JobRecord> := [];
    found := [];
    var i := 0;
    while i < |queries|
      invariant 0 <= i <= |queries|
      invariant FirstFailure(board, queries[..i], debug) == None
      invariant AllCollected(board, queries[..i], debug, found)
      invariant records == Gathered(found, site)
    {
      var links, visited := ScrapeLinks(board, queries[i], debug);
      if links.Failure? {
        QueryFails(board, queries, debug, i);
        return Failure(links.error), found;
      }
      var kept := ScrapeDetailsOf(links.value, site);
      QueryStep(board, queries, debug, found, links.value, site, i);
      records := records + kept;
      found := found + [links.value];
      i := i + 1;
    }
    QueriesDone(board, queries, debug, found);
    r := Success(records);
  }

  /** The inner loop of `main`: extract each link in order and append every record that comes back. */
  method ScrapeDetailsOf(links: seq<string>, site: DetailSite) returns (records: seq<JobRecord>)
    ensures records == Kept(links, site)
  {
    records := [];
    var j := 0;
    while j < |links|
      invariant 0 <= j <= |links|
      invariant records == Kept(links[..j], site)
    {
      var record, log := ScrapeJobDetails(links[j], DetailRetries, site);
      assert links[..j + 1][..j] == links[..j];
      if record.Some? {
        records := records + [record.value];
      }
      j := j + 1;
    }
    assert links[..j] == links;
  }

  /** The extraction of `link` returned `rec`. */
  predicate Yields(link: string, site: DetailSite, rec: JobRecord) {
    DetailOutcome(link, DetailRetries, site) == Some(rec)
  }

  /** A record is kept from `links` exactly when the extraction of one of the links returned it. */
  lemma {:induction false} KeptMembers(links: seq<string>, site: DetailSite, rec: JobRecord)
    ensures rec in Kept(links, site) <==> exists link :: link in links && Yields(link, site, rec)
  {
    if links != [] {
      var front, last := links[..|links| - 1], links[|links| - 1];
      assert links == front + [last];
      KeptSnoc(front, last, site);
      KeptMembers(front, site, rec);
      ExtractedMembers(last, site, rec);
      if rec in Kept(links, site) {
        if rec in Kept(front, site) {
          var link :| link in front && Yields(link, site, rec);
          assert link in links;
        } else {
          assert last in links && Yields(last, site, rec);
        }
      }
      if exists link :: link in links && Yields(link, site, rec) {
        var link :| link in links && Yields(link, site, rec);
        if link != last {
          assert link in front;
        }
      }
    }
  }

  /** The record of one link is the one its extraction returned. */
  lemma ExtractedMembers(link: string, site: DetailSite, rec: JobRecord)
    ensures rec in Extracted(link, site) <==> Yields(link, site, rec)
  {
  }

  /** Every kept record carries the URL of the link it was extracted from. */
  lemma KeptCarriesLink(links: seq<string>, site: DetailSite, rec: JobRecord)
    requires rec in Kept(links, site)
    ensures rec.url in links && Yields(rec.url, site, rec)
  {
    KeptMembers(links, site, rec);
    var link :| link in links && Yields(link, site, rec);
    RecordComesFromKeptPage(link, DetailRetries, site);
  }

  /** Kept respects concatenation: the records of `a + b` are those of `a` followed by those of `b`. */
  lemma {:induction false} KeptAppend(a: seq<string>, b: seq<string>, site: DetailSite)
    ensures Kept(a + b, site) == Kept(a, site) + Kept(b, site)
  {
    if b == [] {
      assert a + b == a;
    } else {
      var front, last := b[..|b| - 1], b[|b| - 1];
      assert b == front + [last];
      assert a + b == (a + front) + [last];
      KeptSnoc(a + front, last, site);
      KeptSnoc(front, last, site);
      KeptAppend(a, front, site);
    }
  }

  /** A link contributes at most one record, so there are no more records than links. */
  lemma {:induction false} KeptLength(links: seq<string>, site: DetailSite)
    ensures |Kept(links, site)| <= |links|
  {
    if links != [] {
      KeptLength(links[..|links| - 1], site);
    }
  }

  /** One more link appends its own records. */
  lemma KeptSnoc(links: seq<string>, link: string, site: DetailSite)
    ensures Kept(links + [link], site) == Kept(links, site) + Extracted(link, site)
  {
    assert (links + [link])[..|links|] == links;
  }

  /** Every record of a run is the extraction result of a link that one of the queries discovered. */
  lemma {:induction false} GatheredFromFoundLinks(found: seq<seq<string>>, site: DetailSite, rec: JobRecord)
    requires rec in Gathered(found, site)
    ensures exists i :: 0 <= i < |found| && rec.url in found[i]
    ensures DetailOutcome(rec.url, DetailRetries, site) == Some(rec)
  {
    var front := found[..|found| - 1];
    var last := found[|found| - 1];
    if rec in Gathered(front, site) {
      GatheredFromFoundLinks(front, site, rec);
      var i :| 0 <= i < |front| && rec.url in front[i];
      assert found[i] == front[i];
    } else {
      KeptCarriesLink(last, site, rec);
      assert rec.url in found[|found| - 1];
    }
  }

  /** Discovered links are never shared between queries: one link found by two queries is extracted twice. */
  lemma SameLinkTwice(link: string, site: DetailSite, rec: JobRecord)
    requires DetailOutcome(link, DetailRetries, site) == Some(rec)
    ensures Gathered([[link], [link]], site) == [rec, rec]
  {
    KeptSnoc([], link, site);
    assert [] + [link] == [link];
    GatheredSnoc([], [link], site);
    assert [] + [[link]] == [[link]];
    GatheredSnoc([[link]], [link], site);
    assert [[link]] + [[link]] == [[link], [link]];
  }

  /** One more query's links append their records. */
  lemma GatheredSnoc(found: seq<seq<string>>, links: seq<string>, site: DetailSite)
    ensures Gathered(found + [links], site) == Gathered(found, site) + Kept(links, site)
  {
    assert (found + [links])[..|found|] == found;
  }
}
