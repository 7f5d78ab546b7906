/**
 * Detail extraction with retries (`scrape_job_details`). The browser is
 * replaced by a `DetailSite`: what the i-th attempt at a URL meets. File
 * writes, screenshots and sleeps become entries of an effect log.
 */
module JobDetails {
  import opened Wrappers
  import Naming

  /** What the six field selectors of a rendered detail page find; `None` when the element is absent. */
  datatype Fields = Fields(
    companyName: Option<string>,
    remote: Option<string>,
    description: Option<string>,
    location: Option<string>,
    salary: Option<string>,
    experience: Option<string>)

  /** `job_details`: one row of the output table, the six fields and the page's URL. */
  datatype JobRecord = JobRecord(
    companyName: Option<string>,
    remote: Option<string>,
    description: Option<string>,
    location: Option<string>,
    salary: Option<string>,
    experience: Option<string>,
    url: string)

  /** What one attempt at a detail page meets. */
  datatype Attempt =
    /** The navigation answered with `status`; for a 200 the metadata block rendered and `page` is what the selectors read. */
    | Loaded(status: int, page: Fields)
    /** The navigation, the wait for the metadata block or a DOM query raised. */
    | Raised

  /** `site(url, i)`: the outcome of attempt number `i` (from 0) at `url`. */
  type DetailSite = (string, nat) -> Attempt

  /** The boilerplate company name of the site's "about us" blocks, in lower case. */
  const Sentinel: string := "qui sommes-nous ?"

  predicate IsUpper(c: char) {
    'A' <= c <= 'Z'
  }

  /** ASCII `lower` of one character. */
  function LowerChar(c: char): (d: char)
    ensures !IsUpper(d)
  {
    if IsUpper(c) then (c as int + 32) as char else c
  }

  /** ASCII `upper` of one character. */
  function UpperChar(c: char): char {
    if 'a' <= c <= 'z' then (c as int - 32) as char else c
  }

  /** `str.lower`, restricted to ASCII letters. */
  function Lower(s: string): (r: string)
    ensures |r| == |s|
    ensures forall i :: 0 <= i < |s| ==> r[i] == LowerChar(s[i])
  {
    if s == [] then [] else Lower(s[..|s| - 1]) + [LowerChar(s[|s| - 1])]
  }

  /** `s` spells `t` with any mix of letter cases, `t` itself having no upper-case letter. */
  predicate IsCaseVariant(s: string, t: string) {
    |s| == |t| && forall i :: 0 <= i < |s| ==> s[i] == t[i] || s[i] == UpperChar(t[i])
  }

  /** For a text without capitals, lowering `s` gives it exactly when `s` is one of its case variants. */
  lemma LowerIffCaseVariant(s: string, t: string)
    requires forall i :: 0 <= i < |t| ==> !IsUpper(t[i])
    ensures Lower(s) == t <==> IsCaseVariant(s, t)
  {
    if Lower(s) == t {
      forall i | 0 <= i < |s|
        ensures s[i] == t[i] || s[i] == UpperChar(t[i])
      {
        assert LowerChar(s[i]) == t[i];
      }
    }
    if IsCaseVariant(s, t) {
      forall i | 0 <= i < |s|
        ensures Lower(s)[i] == t[i]
      {
        assert LowerChar(s[i]) == t[i];
      }
    }
  }

  /** The discard rule: no company name, an empty one, or the "about us" boilerplate. */
  predicate Discarded(companyName: Option<string>) {
    companyName.None? || companyName.value == [] || Lower(companyName.value) == Sentinel
  }

  /** "Qui sommes-nous ?" in any letter case is discarded. */
  lemma SentinelDiscardedInAnyCase(name: string)
    requires IsCaseVariant(name, Sentinel)
    ensures Discarded(Some(name))
  {
    LowerIffCaseVariant(name, Sentinel);
  }

  /** The record built from a page whose status was 200, or `None` when the discard rule drops it. */
  function ApplyDiscardRule(url: string, page: Fields): (r: Option<JobRecord>)
    ensures r.None? <==> Discarded(page.companyName)
    ensures r.Some? ==> r.value.url == url && r.value.companyName == page.companyName
    ensures r.Some? ==> r.value.remote == page.remote && r.value.description == page.description
    ensures r.Some? ==> r.value.location == page.location && r.value.salary == page.salary
    ensures r.Some? ==> r.value.experience == page.experience
  {
    if Discarded(page.companyName) then None
    else Some(JobRecord(page.companyName, page.remote, page.description, page.location,
                        page.salary, page.experience, url))
  }

  /** The result of an attempt that did not raise: a non-200 status skips the page. */
  function Settle(url: string, a: Attempt): (r: Option<JobRecord>)
    ensures r.Some? <==> a.Loaded? && a.status == 200 && !Discarded(a.page.companyName)
    ensures r.Some? ==> r.value.url == url
  {
    match a
    case Raised => None
    case Loaded(status, page) => if status != 200 then None else ApplyDiscardRule(url, page)
  }

  /** The seconds `time.sleep` waits between two attempts. */
  const BackoffSeconds: nat := 2

  /** The side effects of an attempt. */
  datatype Effect =
    | Navigate(url: string)
    | WriteTrace(path: string)
    | WriteScreenshot(path: string)
    | Sleep(seconds: nat)
  {
    function Kind(): EffectKind {
      match this
      case Navigate(_) => NavigateKind
      case WriteTrace(_) => TraceKind
      case WriteScreenshot(_) => ScreenshotKind
      case Sleep(_) => SleepKind
    }
  }

  datatype EffectKind = NavigateKind | TraceKind | ScreenshotKind | SleepKind

  /** The stack-trace file of a failed attempt at `url`. */
  function TracePath(url: string): string {
    TraceDir + Naming.FileBase(url) + TraceSuffix
  }

  const TraceDir: string := "error_logs/"
  const TraceSuffix: string := "_stacktrace.log"

  /** The screenshot file of a failed attempt at `url`. */
  function ScreenshotPath(url: string): string {
    ScreenshotDir + Naming.FileBase(url) + ScreenshotSuffix
  }

  const ScreenshotDir: string := "screenshots/"
  const ScreenshotSuffix: string := ".png"

  /** A file `dir + name + suffix` whose name and suffix have no `/` stays directly inside `dir`. */
  lemma InsideDir(dir: string, name: string, suffix: string)
    requires '/' !in name && '/' !in suffix
    ensures var r := dir + name + suffix;
      && r[..|dir|] == dir
      && r[|r| - |suffix|..] == suffix
      && forall i :: |dir| <= i < |r| ==> r[i] != '/'
  {
    var r := dir + name + suffix;
    forall i | |dir| <= i < |r|
      ensures r[i] != '/'
    {
      if i < |dir| + |name| {
        assert r[i] == name[i - |dir|];
      } else {
        assert r[i] == suffix[i - |dir| - |name|];
      }
    }
    assert r[|r| - |suffix|..] == suffix;
  }

  /**
   * Both artifacts of a failed attempt lie directly in their directory, carry
   * their fixed suffix, and differ between URLs only through the file base.
   */
  lemma ArtifactPaths(url: string)
    ensures var t := TracePath(url);
      && t[..|TraceDir|] == TraceDir
      && t[|t| - |TraceSuffix|..] == TraceSuffix
      && forall i :: |TraceDir| <= i < |t| ==> t[i] != '/'
    ensures var s := ScreenshotPath(url);
      && s[..|ScreenshotDir|] == ScreenshotDir
      && s[|s| - |ScreenshotSuffix|..] == ScreenshotSuffix
      && forall i :: |ScreenshotDir| <= i < |s| ==> s[i] != '/'
  {
    InsideDir(TraceDir, Naming.FileBase(url), TraceSuffix);
    InsideDir(ScreenshotDir, Naming.FileBase(url), ScreenshotSuffix);
  }

  /** The effects of an attempt that raised: the navigation, the two artifacts, and the back-off unless it was the last. */
  function FailedAttempt(url: string, last: bool): seq<Effect> {
    [Navigate(url), WriteTrace(TracePath(url)), WriteScreenshot(ScreenshotPath(url))]
      + (if last then [] else [Sleep(BackoffSeconds)])
  }
  /** A failed attempt navigates once, first, and ends in a sleep exactly when another attempt follows. */
  lemma FailedAttemptShape(url: string, last: bool)
    ensures var r := FailedAttempt(url, last);
      && |r| == (if last then 3 else 4)
      && r[0] == Navigate(url)
      && (forall i :: 0 < i < |r| ==> !r[i].Navigate?)
      && (r[|r| - 1].Sleep? <==> !last)
  {
  }


  /** The effects of `n` raising attempts that each leave another attempt to come. */
  function Failures(url: string, n: nat): (r: seq<Effect>)
    ensures |r| == 4 * n
  {
    if n == 0 then [] else Failures(url, n - 1) + FailedAttempt(url, false)
  }

  /** The first attempt in `i..retries` that does not raise, or `retries`. */
  function SettledFrom(url: string, site: DetailSite, i: nat, retries: nat): (k: nat)
    requires i <= retries
    ensures i <= k <= retries
    ensures forall j :: i <= j < k ==> site(url, j).Raised?
    ensures k < retries ==> !site(url, k).Raised?
    decreases retries - i
  {
    if i == retries || !site(url, i).Raised? then i else SettledFrom(url, site, i + 1, retries)
  }

  /** The number of attempts that raise before one settles, within the budget. */
  function FirstSettled(url: string, site: DetailSite, retries: nat): (k: nat)
    ensures k <= retries
    ensures forall j :: 0 <= j < k ==> site(url, j).Raised?
    ensures k < retries ==> !site(url, k).Raised?
  {
    SettledFrom(url, site, 0, retries)
  }

  /** What `scrape_job_details(page, url, retries)` returns. */
  function DetailOutcome(url: string, retries: nat, site: DetailSite): (r: Option<JobRecord>)
    ensures r.Some? ==> r.value.url == url && !Discarded(r.value.companyName)
    ensures retries == 0 ==> r.None?
  {
    var k := FirstSettled(url, site, retries);
    if k == retries then None else Settle(url, site(url, k))
  }

  /** The effects `scrape_job_details(page, url, retries)` has, in order. */
  function DetailLog(url: string, retries: nat, site: DetailSite): (log: seq<Effect>)
    ensures |log| <= 4 * retries
  {
    var k := FirstSettled(url, site, retries);
    if retries == 0 then []
    else if k == retries then Failures(url, retries - 1) + FailedAttempt(url, true)
    else Failures(url, k) + [Navigate(url)]
  }

  /** The attempts before `k` raise and attempt `k` (if within the budget) does not: `k` is the first settled. */
  lemma FirstSettledIs(url: string, site: DetailSite, retries: nat, k: nat)
    requires k <= retries
    requires forall j :: 0 <= j < k ==> site(url, j).Raised?
    requires k < retries ==> !site(url, k).Raised?
    ensures FirstSettled(url, site, retries) == k
  {
  }

  /** Attempt `k` is the first that does not raise: its answer decides the result after `k` failures. */
  lemma SettledAtAttempt(url: string, retries: nat, site: DetailSite, k: nat)
    requires k < retries
    requires forall j :: 0 <= j < k ==> site(url, j).Raised?
    requires !site(url, k).Raised?
    ensures DetailOutcome(url, retries, site) == Settle(url, site(url, k))
    ensures DetailLog(url, retries, site) == Failures(url, k) + [Navigate(url)]
  {
    FirstSettledIs(url, site, retries, k);
  }

  /** Every attempt of the budget raised: no record, and the last failure does not sleep. */
  lemma BudgetExhausted(url: string, retries: nat, site: DetailSite)
    requires retries > 0
    requires forall j :: 0 <= j < retries ==> site(url, j).Raised?
    ensures DetailOutcome(url, retries, site) == None
    ensures DetailLog(url, retries, site) == Failures(url, retries - 1) + FailedAttempt(url, true)
  {
    FirstSettledIs(url, site, retries, retries);
  }

  /** The log of a raising attempt, entry by entry, is the failure block: without the sleep when it is the last. */
  lemma RaisingAttemptLog(url: string, n: nat)
    ensures Failures(url, n) + [Navigate(url)] + [WriteTrace(TracePath(url)), WriteScreenshot(ScreenshotPath(url))]
      == Failures(url, n) + FailedAttempt(url, true)
    ensures Failures(url, n) + [Navigate(url)] + [WriteTrace(TracePath(url)), WriteScreenshot(ScreenshotPath(url))] + [Sleep(BackoffSeconds)]
      == Failures(url, n + 1)
  {
  }

  /**
   * `scrape_job_details`: up to `retries` attempts. A non-200 status or a
   * page that renders ends the loop at once; a raising attempt writes its two
   * artifacts and, unless it was the last, sleeps before the next attempt.
   */
  method ScrapeJobDetails(url: string, retries: nat, site: DetailSite) returns (r: Option<JobRecord>, log: seq<Effect>)
    ensures r == DetailOutcome(url, retries, site)
    ensures log == DetailLog(url, retries, site)
  {
    log := [];
    var attempt := 0;
    while attempt < retries
      invariant attempt <= retries
      invariant retries == 0 || attempt < retries
      invariant forall j :: 0 <= j < attempt ==> site(url, j).Raised?
      invariant log == Failures(url, attempt)
    {
      var answer := site(url, attempt);
      RaisingAttemptLog(url, attempt);
      log := log + [Navigate(url)];
      if answer.Loaded? {
        SettledAtAttempt(url, retries, site, attempt);
        if answer.status != 200 {
          return None, log;
        }
        return ApplyDiscardRule(url, answer.page), log;
      }
      log := log + [WriteTrace(TracePath(url)), WriteScreenshot(ScreenshotPath(url))];
      if attempt + 1 == retries {
        BudgetExhausted(url, retries, site);
        return None, log;
      }
      log := log + [Sleep(BackoffSeconds)];
      attempt := attempt + 1;
    }
    r := None;
  }

  /** The number of effects of kind `kind` in `log`. */
  function Tally(log: seq<Effect>, kind: EffectKind): nat {
    if log == [] then 0
    else Tally(log[..|log| - 1], kind) + (if log[|log| - 1].Kind() == kind then 1 else 0)
  }

  lemma {:induction false} TallyAppend(a: seq<Effect>, b: seq<Effect>, kind: EffectKind)
    ensures Tally(a + b, kind) == Tally(a, kind) + Tally(b, kind)
  {
    if b == [] {
      assert a + b == a;
    } else {
      assert (a + b)[..|a + b| - 1] == a + b[..|b| - 1];
      TallyAppend(a, b[..|b| - 1], kind);
    }
  }

  /** One failed attempt: one navigation, one trace, one screenshot, and a sleep unless it was the last. */
  lemma FailedAttemptTally(url: string, last: bool)
    ensures Tally(FailedAttempt(url, last), NavigateKind) == 1
    ensures Tally(FailedAttempt(url, last), TraceKind) == 1
    ensures Tally(FailedAttempt(url, last), ScreenshotKind) == 1
    ensures Tally(FailedAttempt(url, last), SleepKind) == if last then 0 else 1
  {
    var nav, trace, shot := Navigate(url), WriteTrace(TracePath(url)), WriteScreenshot(ScreenshotPath(url));
    var tail: seq<Effect> := if last then [] else [Sleep(BackoffSeconds)];
    assert FailedAttempt(url, last) == [nav] + [trace] + [shot] + tail;
    forall kind: EffectKind
      ensures Tally(FailedAttempt(url, last), kind)
        == Tally([nav], kind) + Tally([trace], kind) + Tally([shot], kind) + Tally(tail, kind)
    {
      TallyAppend([nav] + [trace] + [shot], tail, kind);
      TallyAppend([nav] + [trace], [shot], kind);
      TallyAppend([nav], [trace], kind);
    }
    TallySingle(nav);
    TallySingle(trace);
    TallySingle(shot);
    if !last {
      TallySingle(Sleep(BackoffSeconds));
    }
  }

  lemma TallySingle(e: Effect)
    ensures forall kind :: Tally([e], kind) == if e.Kind() == kind then 1 else 0
  {
    assert [e][..0] == [];
  }

  /** `n` non-final failures make `n` effects of every kind. */
  lemma {:induction false} FailuresTally(url: string, n: nat, kind: EffectKind)
    ensures Tally(Failures(url, n), kind) == n
  {
    if n > 0 {
      FailuresTally(url, n - 1, kind);
      TallyAppend(Failures(url, n - 1), FailedAttempt(url, false), kind);
      FailedAttemptTally(url, false);
    }
  }

  /** A non-200 first answer returns `None` after one navigation: no artifact, no sleep, no retry. */
  lemma NonOkSkipsAtOnce(url: string, retries: nat, site: DetailSite)
    requires retries > 0 && site(url, 0).Loaded? && site(url, 0).status != 200
    ensures DetailOutcome(url, retries, site) == None
    ensures DetailLog(url, retries, site) == [Navigate(url)]
  {
    assert FirstSettled(url, site, retries) == 0;
  }

  /**
   * When every attempt raises, the result is `None` after `retries`
   * navigations, `retries` traces and screenshots, and `retries - 1` sleeps.
   */
  lemma AllAttemptsRaise(url: string, retries: nat, site: DetailSite)
    requires retries > 0
    requires forall j :: 0 <= j < retries ==> site(url, j).Raised?
    ensures DetailOutcome(url, retries, site) == None
    ensures Tally(DetailLog(url, retries, site), NavigateKind) == retries
    ensures Tally(DetailLog(url, retries, site), TraceKind) == retries
    ensures Tally(DetailLog(url, retries, site), ScreenshotKind) == retries
    ensures Tally(DetailLog(url, retries, site), SleepKind) == retries - 1
  {
    var log := DetailLog(url, retries, site);
    assert log == Failures(url, retries - 1) + FailedAttempt(url, true);
    FailedAttemptTally(url, true);
    forall kind: EffectKind
      ensures Tally(log, kind) == retries - 1 + Tally(FailedAttempt(url, true), kind)
    {
      FailuresTally(url, retries - 1, kind);
      TallyAppend(Failures(url, retries - 1), FailedAttempt(url, true), kind);
    }
  }

  /**
   * In general: attempt `k` = FirstSettled is the last one made; every
   * raising attempt before it wrote exactly one trace and one screenshot;
   * at most `retries` navigations happen and one fewer sleeps than raises
   * when the budget runs out.
   */
  lemma RetryAccounting(url: string, retries: nat, site: DetailSite)
    requires retries > 0
    ensures var k := FirstSettled(url, site, retries);
      var log := DetailLog(url, retries, site);
      && Tally(log, NavigateKind) == (if k < retries then k + 1 else retries)
      && Tally(log, NavigateKind) <= retries
      && Tally(log, TraceKind) == k
      && Tally(log, ScreenshotKind) == k
      && Tally(log, SleepKind) == (if k < retries then k else retries - 1)
  {
    var k := FirstSettled(url, site, retries);
    if k == retries {
      AllAttemptsRaise(url, retries, site);
    } else {
      var log := DetailLog(url, retries, site);
      assert log == Failures(url, k) + [Navigate(url)];
      forall kind: EffectKind
        ensures Tally(log, kind) == k + Tally([Navigate(url)], kind)
      {
        FailuresTally(url, k, kind);
        TallyAppend(Failures(url, k), [Navigate(url)], kind);
      }
      TallySingle(Navigate(url));
    }
  }

  /** Every sleep in `log` is immediately followed by a navigation to `url`. */
  predicate SleepsThenNavigate(log: seq<Effect>, url: string) {
    forall i :: 0 <= i < |log| && log[i].Sleep? ==> i + 1 < |log| && log[i + 1] == Navigate(url)
  }

  /** Failures put in front of a log that starts with a navigation keep every sleep followed by one. */
  lemma {:induction false} FailuresThenNavigate(url: string, n: nat, rest: seq<Effect>)
    requires |rest| > 0 && rest[0] == Navigate(url) && SleepsThenNavigate(rest, url)
    ensures SleepsThenNavigate(Failures(url, n) + rest, url)
  {
    if n > 0 {
      var block := FailedAttempt(url, false);
      var more := block + rest;
      assert block == [Navigate(url), WriteTrace(TracePath(url)), WriteScreenshot(ScreenshotPath(url)), Sleep(BackoffSeconds)];
      forall i | 0 <= i < |more| && more[i].Sleep?
        ensures i + 1 < |more| && more[i + 1] == Navigate(url)
      {
        if 4 <= i {
          assert more[i] == rest[i - 4];
          assert more[i + 1] == rest[i - 3];
        } else {
          assert more[i] == block[i];
          assert i == 3;
          assert more[i + 1] == rest[0];
        }
      }
      assert more[0] == Navigate(url);
      FailuresThenNavigate(url, n - 1, more);
      assert Failures(url, n) + rest == Failures(url, n - 1) + more;
    }
  }

  /** Every sleep comes between two attempts: it is followed by the next navigation, never at the end. */
  lemma SleepsBetweenAttempts(url: string, retries: nat, site: DetailSite)
    ensures var log := DetailLog(url, retries, site);
      forall i :: 0 <= i < |log| && log[i].Sleep? ==> i + 1 < |log| && log[i + 1] == Navigate(url)
  {
    var k := FirstSettled(url, site, retries);
    if retries > 0 {
      var last := if k == retries then FailedAttempt(url, true) else [Navigate(url)];
      assert SleepsThenNavigate(last, url);
      FailuresThenNavigate(url, if k == retries then retries - 1 else k, last);
    }
  }

  /** An effect at most names `url` or one of its two artifact paths. */
  predicate NamedFor(e: Effect, url: string) {
    && (e.WriteTrace? ==> e.path == TracePath(url))
    && (e.WriteScreenshot? ==> e.path == ScreenshotPath(url))
    && (e.Navigate? ==> e.url == url)
  }

  /** Every effect of `n` non-final failures names `url` or its artifact paths. */
  lemma {:induction false} FailuresNamedFor(url: string, n: nat)
    ensures forall e :: e in Failures(url, n) ==> NamedFor(e, url)
  {
    if n > 0 {
      FailuresNamedFor(url, n - 1);
      assert Failures(url, n) == Failures(url, n - 1) + FailedAttempt(url, false);
    }
  }

  /** Every artifact of a failed attempt is named from the sanitized slug of the URL. */
  lemma ArtifactsKeyedBySlug(url: string, retries: nat, site: DetailSite)
    ensures var log := DetailLog(url, retries, site);
      forall i :: 0 <= i < |log| ==>
        (log[i].WriteTrace? ==> log[i].path == "error_logs/" + Naming.FileBase(url) + "_stacktrace.log") &&
        (log[i].WriteScreenshot? ==> log[i].path == "screenshots/" + Naming.FileBase(url) + ".png") &&
        (log[i].Navigate? ==> log[i].url == url)
  {
    var log := DetailLog(url, retries, site);
    LogNamedFor(url, retries, site);
    forall i | 0 <= i < |log|
      ensures NamedFor(log[i], url)
    {
      assert log[i] in log;
    }
  }

  /** Every effect of the log names `url` or one of its artifact paths. */
  lemma LogNamedFor(url: string, retries: nat, site: DetailSite)
    ensures forall e :: e in DetailLog(url, retries, site) ==> NamedFor(e, url)
  {
    var k := FirstSettled(url, site, retries);
    if retries > 0 {
      var n := if k == retries then retries - 1 else k;
      FailuresNamedFor(url, n);
      var last := if k == retries then FailedAttempt(url, true) else [Navigate(url)];
      assert forall e :: e in last ==> NamedFor(e, url);
      assert DetailLog(url, retries, site) == Failures(url, n) + last;
    }
  }

  /** A record comes back only from a settled attempt with status 200 whose company name survives the discard rule. */
  lemma RecordComesFromKeptPage(url: string, retries: nat, site: DetailSite)
    requires DetailOutcome(url, retries, site).Some?
    ensures var k := FirstSettled(url, site, retries);
      && k < retries
      && site(url, k).Loaded? && site(url, k).status == 200
      && !Discarded(site(url, k).page.companyName)
      && DetailOutcome(url, retries, site).value.url == url
  {
  }
}
