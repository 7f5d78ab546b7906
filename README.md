# wttj_scraping: a Dafny model of the link-discovery and detail-extraction core

The scraper takes a list of search queries for the Welcome to the Jungle job
board. For each query it reads the result count and visits every result page.
It collects the distinct job-detail links, then visits each link with up to
three attempts. Each failed attempt leaves a stack trace and a screenshot.
Every record that survives the "about us" discard rule is appended to one
table.

This project models that decision logic. The browser is replaced by plain
data:

- a `Board` gives the count text of each search page and the hrefs of each
  result page. A URL missing from the board is a page whose awaited selector
  never appears.
- a `DetailSite` gives the outcome of the i-th attempt at a detail URL: a
  status with the fields the selectors found, or an exception.

File writes, screenshots, navigations and sleeps become entries of an effect
log, so they can be counted.

Modules, one per component of `main.py`:

- `Naming`: `sanitize_filename` and the slug of a URL.
- `ResultCount`: the digit parse of `extract_total_results`, the decimal
  rendering of page numbers, and the page count.
- `LinkCollector`: `scrape_links_for_query`, a method with a page loop.
- `JobDetails`: the record, the discard rule and the retry loop of
  `scrape_job_details`.
- `Orchestrator`: the nested loops of `main`.
- `Wrappers` and `Errors`: shared Option/Result types and the exceptions.

Two behaviours of the code are worth stating outright:

- a count text with no digit makes `int("")` raise a ValueError (main.py:144),
  which ends the run. It does not yield 0; the `or 0` at main.py:110 never
  takes effect.
- outside debug mode, 0 results give 0 pages (main.py:111), so no result page
  is visited.

## Model

| member | source | states |
|---|---|---|
| Naming.Sanitize | main.py:17-18 | same length; whitelisted characters kept in place, every other character becomes `_`; the output is all whitelisted |
| Naming.SanitizeKeepsSafe | main.py:17-18 | a name made only of whitelisted characters is unchanged |
| Naming.SanitizeIdempotent | main.py:17-18 | sanitizing twice equals sanitizing once |
| Naming.AfterLast | main.py:82 | `split("/")[-1]`: a suffix with no separator, which is the whole text or comes right after a separator |
| Naming.AfterLastUnique | main.py:82 | those properties determine the last segment uniquely |
| Naming.BeforeFirst | main.py:82 | `split("?")[0]`: a prefix with no separator, which is the whole text or stops right at a separator |
| Naming.BeforeFirstUnique | main.py:82 | those properties determine the cut uniquely |
| Naming.Slug | main.py:82 | the slug contains neither `/` nor `?` |
| Naming.SlugOfDetailUrl | main.py:82 | for a URL ending in `/<name>?<query>`, the slug is `<name>` |
| Naming.FileBase | main.py:82 | the artifact base name is all whitelisted, has no `/`, and is as long as the slug |
| ResultCount.Digits | main.py:144 | the kept characters are all digits; none are kept exactly when the text has no digit |
| ResultCount.DigitsAppend | main.py:144 | the digit filter distributes over concatenation |
| ResultCount.DecimalString | main.py:118 | the page number renders as digits, with no leading zero unless it is 0 |
| ResultCount.DecimalRoundTrip | main.py:118 | reading a rendered number back gives the number |
| ResultCount.DecimalStringInjective | main.py:118 | distinct numbers render differently |
| ResultCount.ParseTotal | main.py:137-145 | raises `InvalidLiteral("")` exactly when the text has no digit; otherwise gives the decimal value of its digits |
| ResultCount.ParseRenderedTotal | main.py:144 | a number rendered between texts without digits parses back to that number |
| ResultCount.IgnoresNonDigit | main.py:144 | inserting a non-digit character anywhere does not change the parse |
| ResultCount.ParseGroupedTotal | main.py:144 | "1 234 offres" parses to 1234 |
| ResultCount.ParseWordsOnly | main.py:144 | a text without digits raises rather than giving 0 |
| ResultCount.PageCount | main.py:111 | 1 in debug mode; otherwise the least page count whose pages of 32 hold all results (the ceiling) |
| ResultCount.NoPagesIffNoResults | main.py:111 | outside debug mode there are 0 pages exactly when there are 0 results |
| ResultCount.PageCountExamples | main.py:111 | 0, 32, 33 and 65 results give 0, 1, 2 and 3 pages; debug mode always gives 1 |
| LinkCollector.SearchUrl | main.py:105 | the URL is the fixed search prefix, the query verbatim, then the fixed full-time remote filter |
| LinkCollector.SearchUrlInjective | main.py:105 | distinct queries search at distinct URLs |
| LinkCollector.PageUrlShape | main.py:118 | a page URL is the search URL, `&page=`, and digits that read back as the page number |
| LinkCollector.PageUrlInjective | main.py:118 | distinct page numbers give distinct page URLs |
| LinkCollector.PagesUpTo | main.py:116-118 | the page URLs for pages 1..n, in ascending order |
| LinkCollector.ContainsIff | main.py:129 | the substring test agrees with an occurrence at some offset, both ways |
| LinkCollector.DetailLinks | main.py:128-130 | keeps exactly the hrefs that contain both `/fr/companies/` and `/jobs/` |
| LinkCollector.Dedup | main.py:131 | `list(set(...))`: same members, no duplicates |
| LinkCollector.TotalResults | main.py:110 | a missing count indicator raises a selector timeout; otherwise the digit parse of its text |
| LinkCollector.ListedPrefix | main.py:116-123 | the number of leading result pages whose list renders, and the first that does not |
| LinkCollector.HarvestMembers | main.py:125-133 | a link is harvested exactly when some page among 1..n shows it and it matches the pattern |
| LinkCollector.HarvestStep | main.py:125-131 | one more page adds exactly that page's matching hrefs |
| LinkCollector.PagesToVisit | main.py:110-111 | a missing count indicator raises its selector timeout, a count without digits raises `InvalidLiteral("")`; otherwise 1 page in debug mode, and outside it 0 pages exactly when the count reads 0 |
| LinkCollector.PagesToVisitCount | main.py:110-111 | once the count parses, the pages to visit are 1 in debug mode and otherwise the ceiling of the parsed total over 32 |
| LinkCollector.CountFailureVisitsSearchOnly | main.py:108-110 | a count that raises ends discovery after visiting the search page alone, with that exception |
| LinkCollector.CollectFailure | main.py:108-123 | no exception exactly when the count parses and every page 1..N renders its list |
| LinkCollector.Visits | main.py:108-119 | the search page is visited first |
| LinkCollector.StopsAtPage | main.py:116-123 | a page whose list does not render ends discovery after visiting pages 1..p, raising that page's timeout |
| LinkCollector.VisitsAllPages | main.py:116-123 | when every page renders, pages 1..N are all visited in order and nothing is raised |
| LinkCollector.ScrapeLinks | main.py:104-133 | the navigations made; raises exactly the exception of the count or of the first failing page; otherwise returns the distinct detail links of pages 1..N |
| LinkCollector.CollectedMembers | main.py:125-133 | the returned links are exactly the matching hrefs over the visited pages |
| LinkCollector.DebugVisitsOnePage | main.py:111-119 | debug mode visits the search page and result page 1 only, whatever the count |
| LinkCollector.ZeroResultsVisitNoPage | main.py:110-116 | 0 results outside debug mode: no result page is visited and no link is found |
| JobDetails.Lower | main.py:74 | ASCII `lower`, character by character, with length kept |
| JobDetails.LowerIffCaseVariant | main.py:74 | lowering gives a text without capitals exactly when the input is a case variant of it |
| JobDetails.SentinelDiscardedInAnyCase | main.py:72-76 | "Qui sommes-nous ?" in any letter case is discarded |
| JobDetails.ApplyDiscardRule | main.py:41-78 | `None` exactly when the company name is absent, empty or the sentinel; otherwise the record of the six fields with `url` set to the input URL |
| JobDetails.FailedAttemptShape | main.py:79-100 | a raising attempt navigates once, first, and ends in a sleep exactly when another attempt follows |
| JobDetails.ArtifactPaths | main.py:82-96 | the trace file lies directly in `error_logs/` and ends in `_stacktrace.log`; the screenshot lies directly in `screenshots/` and ends in `.png` |
| JobDetails.Settle | main.py:31-35 | a record comes back only from a status of 200 with a kept company name, and it carries the URL |
| JobDetails.FirstSettled | main.py:29-35 | the first attempt that does not raise, with every earlier attempt raising |
| JobDetails.DetailOutcome | main.py:28-100 | a returned record carries the input URL and a kept company name; a budget of 0 returns `None` |
| JobDetails.DetailLog | main.py:28-100 | at most four effects per attempt in the budget |
| JobDetails.SettledAtAttempt | main.py:29-35 | when attempt `k` is the first that does not raise, its answer decides the result, after `k` full failure blocks and one navigation |
| JobDetails.BudgetExhausted | main.py:29-100 | when every attempt raises: `None`, and the last failure block has no sleep |
| JobDetails.ScrapeJobDetails | main.py:28-100 | the result and the effects of the retry loop equal the closed-form outcome and log |
| JobDetails.FailedAttemptTally | main.py:79-100 | a raising attempt makes one navigation, one trace, one screenshot, and one sleep unless it is the last |
| JobDetails.FailuresTally | main.py:79-100 | n non-final failures make n effects of each kind |
| JobDetails.NonOkSkipsAtOnce | main.py:31-35 | a non-200 first answer returns `None` after one navigation: no artifact, no sleep |
| JobDetails.AllAttemptsRaise | main.py:29-100 | all attempts raising: `None`, with `retries` navigations, traces and screenshots and `retries - 1` sleeps |
| JobDetails.RetryAccounting | main.py:29-100 | in every case: at most `retries` navigations; traces = screenshots = raising attempts made; one sleep per raising attempt except after the last of the budget |
| JobDetails.SleepsBetweenAttempts | main.py:98-100 | every sleep is followed by the next navigation; none ends the log |
| JobDetails.ArtifactsKeyedBySlug | main.py:82-96 | every trace and screenshot path is named from the sanitized slug; every navigation is to the input URL |
| JobDetails.RecordComesFromKeptPage | main.py:68-78 | a record comes from the first settled attempt, with status 200 and a kept company name |
| Orchestrator.KeptLength | main.py:183-186 | no more records than links |
| Orchestrator.Extracted | main.py:184-186 | a link contributes at most one record: the one its extraction returned |
| Orchestrator.FirstFailure | main.py:180-182 | no exception exactly when every query's link discovery succeeds |
| Orchestrator.FirstFailureOfPrefix | main.py:180-182 | the first failing query's exception ends the whole run |
| Orchestrator.ScrapeDetailsOf | main.py:183-186 | the inner loop appends the non-`None` results of the links, in link order |
| Orchestrator.ScrapeAll | main.py:169-186 | fails exactly with the first failing query's exception; otherwise each query's links are a correct collection and the records are their kept results, query after query |
| Orchestrator.KeptMembers | main.py:183-186 | a record is kept exactly when the extraction of one of the links returned it |
| Orchestrator.KeptCarriesLink | main.py:184-186 | a kept record's URL is one of the links |
| Orchestrator.KeptAppend | main.py:183-186 | the records of `a + b` are those of `a` followed by those of `b` |
| Orchestrator.GatheredFromFoundLinks | main.py:180-186 | every record of a run comes from a link that some query discovered |
| Orchestrator.SameLinkTwice | main.py:180-186 | links are not deduplicated across queries: a link found twice yields its record twice |

## Left out

- Playwright calls (`goto`, `wait_for_selector`, `query_selector`, `inner_text`, `eval_on_selector_all`, `screenshot`, browser launch): foreign code. They become the `Board` and `DetailSite` data.
- A failing `goto` of the search page itself is not modelled separately. A missing count indicator stands for any failure before the count is read.
- A failing `goto` of a result page (main.py:119) is not modelled separately either. It can only be expressed as that page's URL missing from the board's listings, so the model raises `SelectorTimeout` for that URL instead of the navigation's own exception.
- A `DetailSite` answers by URL and attempt number. A link visited by two queries meets the same outcomes both times.
- An exception inside the `except` handler (a failing screenshot or trace write) is not modelled. In the source it would escape `scrape_job_details` and end the run.
- A `goto` that returns no response makes `response.status` raise. The model folds this into a raising attempt.
- Wall-clock timeouts and `time.sleep`: timing, not logic. Sleeps are logged with their 2-second duration and counted.
- File and directory I/O: creating directories, the trace text from `traceback.format_exc`, and CSV writing with `csv.DictWriter`. Quoting is the library's concern. The trace and screenshot writes are log entries naming their paths.
- `argparse` and the `print` progress output.
- ResultCount.Digits: ASCII digits only. Python's `str.isdigit` also accepts other Unicode digits, which the model drops.
- JobDetails.Lower: ASCII letters only. Python's `str.lower` also lowers non-ASCII capitals, which the model leaves unchanged.
- LinkCollector.Dedup: Python gives no order for `set(...)` output. The model keeps first occurrences, and the contracts state membership and absence of duplicates only.
