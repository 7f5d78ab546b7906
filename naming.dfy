/**
 * File names for diagnostic artifacts: `sanitize_filename` and the slug taken
 * from a failing detail URL (its last path segment without the query string).
 */
module Naming {

  /** The characters of the whitelist `[a-zA-Z0-9_\-\.]`. */
  predicate IsSafeChar(c: char) {
    ('a' <= c <= 'z') || ('A' <= c <= 'Z') || ('0' <= c <= '9') || c == '_' || c == '-' || c == '.'
  }

  predicate IsSafeName(s: string) {
    forall i :: 0 <= i < |s| ==> IsSafeChar(s[i])
  }

  /** `sanitize_filename`: replace every character outside the whitelist by `_`. */
  function Sanitize(s: string): (r: string)
    ensures |r| == |s|
    ensures forall i :: 0 <= i < |s| && IsSafeChar(s[i]) ==> r[i] == s[i]
    ensures forall i :: 0 <= i < |s| && !IsSafeChar(s[i]) ==> r[i] == '_'
    ensures IsSafeName(r)
  {
    if s == [] then []
    else
      var last := s[|s| - 1];
      Sanitize(s[..|s| - 1]) + [if IsSafeChar(last) then last else '_']
  }

  /** A name made only of whitelisted characters comes back unchanged. */
  lemma {:induction false} SanitizeKeepsSafe(s: string)
    requires IsSafeName(s)
    ensures Sanitize(s) == s
  {
    var r := Sanitize(s);
    assert forall i :: 0 <= i < |s| ==> r[i] == s[i];
  }

  /** Sanitizing twice is the same as sanitizing once. */
  lemma SanitizeIdempotent(s: string)
    ensures Sanitize(Sanitize(s)) == Sanitize(s)
  {
    SanitizeKeepsSafe(Sanitize(s));
  }

  /** `s.split(sep)[-1]`: the text after the last `sep`, or all of `s` when there is none. */
  function AfterLast(s: string, sep: char): (r: string)
    ensures |r| <= |s| && r == s[|s| - |r|..]
    ensures sep !in r
    ensures |r| == |s| || s[|s| - |r| - 1] == sep
  {
    if s == [] then []
    else if s[|s| - 1] == sep then []
    else
      var rest := AfterLast(s[..|s| - 1], sep);
      assert s[..|s| - 1][|s| - 1 - |rest|..] + [s[|s| - 1]] == s[|s| - 1 - |rest|..];
      rest + [s[|s| - 1]]
  }

  /** `s.split(sep)[0]`: the text before the first `sep`, or all of `s` when there is none. */
  function BeforeFirst(s: string, sep: char): (r: string)
    ensures |r| <= |s| && r == s[..|r|]
    ensures sep !in r
    ensures |r| == |s| || s[|r|] == sep
  {
    if s == [] then []
    else if s[0] == sep then []
    else [s[0]] + BeforeFirst(s[1..], sep)
  }

  /**
   * The three properties of AfterLast pin its result down: any suffix of `s`
   * without `sep` that is all of `s` or is preceded by `sep` is that result.
   */
  lemma AfterLastUnique(s: string, sep: char, t: string)
    requires |t| <= |s| && t == s[|s| - |t|..]
    requires sep !in t
    requires |t| == |s| || s[|s| - |t| - 1] == sep
    ensures t == AfterLast(s, sep)
  {
  }

  /** Likewise for BeforeFirst: a prefix without `sep` ending at `sep` or at the end is its result. */
  lemma BeforeFirstUnique(s: string, sep: char, t: string)
    requires |t| <= |s| && t == s[..|t|]
    requires sep !in t
    requires |t| == |s| || s[|t|] == sep
    ensures t == BeforeFirst(s, sep)
  {
  }

  /** The slug of a URL: `url.split("/")[-1].split("?")[0]`. */
  function Slug(url: string): (r: string)
    ensures '/' !in r && '?' !in r
    ensures |r| <= |url|
  {
    BeforeFirst(AfterLast(url, '/'), '?')
  }

  /** `filename_base`: the sanitized slug that names both artifacts of a failed attempt. */
  function FileBase(url: string): (r: string)
    ensures IsSafeName(r) && '/' !in r
    ensures |r| == |Slug(url)|
  {
    var r := Sanitize(Slug(url));
    assert forall i :: 0 <= i < |r| ==> r[i] != '/';
    r
  }

  /** A URL ending in `/<name>?<query>`, with no `/` after the last one and no `?` in `<name>`, has slug `<name>`. */
  lemma SlugOfDetailUrl(prefix: string, name: string, query: string)
    requires '/' !in name && '?' !in name && '/' !in query
    ensures Slug(prefix + "/" + name + "?" + query) == name
  {
    var url := prefix + "/" + name + "?" + query;
    var suffix := name + "?" + query;
    assert url[|url| - |suffix|..] == suffix;
    assert url[|url| - |suffix| - 1] == '/';
    assert forall j :: 0 <= j < |suffix| ==> suffix[j] != '/' by {
      forall j | 0 <= j < |suffix|
        ensures suffix[j] != '/'
      {
        if j < |name| { assert suffix[j] == name[j]; }
        else if j > |name| { assert suffix[j] == query[j - |name| - 1]; }
      }
    }
    AfterLastUnique(url, '/', suffix);
    assert suffix[..|name|] == name;
    assert suffix[|name|] == '?';
    BeforeFirstUnique(suffix, '?', name);
  }
}
