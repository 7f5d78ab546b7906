/**
 * The result counter and the page count: `extract_total_results` keeps the
 * digit characters of the count indicator's text and reads them as a decimal
 * number; `scrape_links_for_query` turns that total into a number of result
 * pages of `RESULTS_PER_PAGE` entries each.
 */
module ResultCount {
  import opened Wrappers
  import opened Errors

  /** `RESULTS_PER_PAGE`: the search site shows 32 results per page. */
  const ResultsPerPage: nat := 32

  /** An ASCII decimal digit (the model's reading of `str.isdigit`). */
  predicate IsDigit(c: char) {
    '0' <= c <= '9'
  }

  predicate AllDigits(s: string) {
    forall i :: 0 <= i < |s| ==> IsDigit(s[i])
  }

  predicate NoDigits(s: string) {
    forall i :: 0 <= i < |s| ==> !IsDigit(s[i])
  }

  function DigitValue(c: char): (d: nat)
    requires IsDigit(c)
    ensures d < 10
  {
    (c as int - '0' as int) as nat
  }

  function DigitChar(d: nat): (c: char)
    requires d < 10
    ensures IsDigit(c) && DigitValue(c) == d
  {
    ('0' as int + d) as char
  }

  /** `"".join(filter(str.isdigit, text))`: the digits of `text`, in order. */
  function Digits(text: string): (r: string)
    ensures AllDigits(r)
    ensures |r| <= |text|
    ensures r == [] <==> NoDigits(text)
  {
    if text == [] then []
    else
      var last := text[|text| - 1];
      var front := text[..|text| - 1];
      assert forall i :: 0 <= i < |front| ==> front[i] == text[i];
      Digits(front) + (if IsDigit(last) then [last] else [])
  }

  /** Keeping the digits of a concatenation keeps the digits of each part. */
  lemma {:induction false} DigitsAppend(a: string, b: string)
    ensures Digits(a + b) == Digits(a) + Digits(b)
  {
    if b == [] {
      assert a + b == a;
    } else {
      var ab := a + b;
      var front, last := b[..|b| - 1], b[|b| - 1];
      var tail := if IsDigit(last) then [last] else [];
      assert ab[..|ab| - 1] == a + front;
      assert ab[|ab| - 1] == last;
      assert Digits(ab) == Digits(a + front) + tail;
      assert Digits(b) == Digits(front) + tail;
      DigitsAppend(a, front);
    }
  }

  /** A text that is already all digits is its own digit string. */
  lemma {:induction false} DigitsOfDigits(s: string)
    requires AllDigits(s)
    ensures Digits(s) == s
  {
    if s != [] {
      DigitsOfDigits(s[..|s| - 1]);
    }
  }

  /** The value of a decimal numeral, most significant digit first (what `int` computes). */
  function DecimalValue(ds: string): nat
    requires AllDigits(ds)
  {
    if ds == [] then 0
    else DecimalValue(ds[..|ds| - 1]) * 10 + DigitValue(ds[|ds| - 1])
  }

  /** The decimal numeral of `n` without leading zeros, as `f"{n}"` renders it. */
  function DecimalString(n: nat): (r: string)
    ensures AllDigits(r) && |r| >= 1
    ensures r[0] == '0' ==> n == 0
  {
    if n < 10 then [DigitChar(n)]
    else DecimalString(n / 10) + [DigitChar(n % 10)]
  }

  /** Reading back a rendered number gives the number. */
  lemma {:induction false} DecimalRoundTrip(n: nat)
    ensures DecimalValue(DecimalString(n)) == n
  {
    var s := DecimalString(n);
    if n >= 10 {
      assert s[..|s| - 1] == DecimalString(n / 10);
      DecimalRoundTrip(n / 10);
    } else {
      assert s[..|s| - 1] == [];
    }
  }

  /** Two numbers with the same rendering are equal. */
  lemma DecimalStringInjective(m: nat, n: nat)
    requires DecimalString(m) == DecimalString(n)
    ensures m == n
  {
    DecimalRoundTrip(m);
    DecimalRoundTrip(n);
  }

  /**
   * `extract_total_results` after the wait: the decimal value of the digits of
   * `text`; with no digit at all `int("")` raises a ValueError.
   */
  function ParseTotal(text: string): (r: Result<nat, Error>)
    ensures r.Failure? <==> NoDigits(text)
    ensures r.Failure? ==> r.error == InvalidLiteral("")
    ensures r.Success? ==> r.value == DecimalValue(Digits(text))
  {
    var ds := Digits(text);
    if ds == [] then Failure(InvalidLiteral("")) else Success(DecimalValue(ds))
  }

  /** A count rendered among characters that are not digits (a label, spaces) parses to that count. */
  lemma ParseRenderedTotal(prefix: string, n: nat, suffix: string)
    requires NoDigits(prefix) && NoDigits(suffix)
    ensures ParseTotal(prefix + DecimalString(n) + suffix) == Success(n)
  {
    var s := DecimalString(n);
    DigitsAppend(prefix + s, suffix);
    DigitsAppend(prefix, s);
    DigitsOfDigits(s);
    assert Digits(prefix) == [] && Digits(suffix) == [];
    assert Digits(prefix + s + suffix) == s;
    DecimalRoundTrip(n);
  }

  /** Non-digit characters anywhere in the text do not change the parsed total. */
  lemma IgnoresNonDigit(a: string, c: char, b: string)
    requires !IsDigit(c)
    ensures ParseTotal(a + [c] + b) == ParseTotal(a + b)
  {
    DigitsAppend(a + [c], b);
    DigitsAppend(a, [c]);
    DigitsAppend(a, b);
    assert Digits([c]) == [] by {
      assert [c][..0] == [];
    }
    assert Digits(a + [c] + b) == Digits(a + b);
  }

  /** A thousands separator in the count text is dropped. */
  lemma ParseGroupedTotal()
    ensures ParseTotal("1 234 offres") == Success(1234)
  {
    GroupedTextShape();
    IgnoresNonDigit("1", ' ', "234 offres");
    ParseRenderedTotal("", 1234, " offres");
  }

  /** The grouped count text is the rendered count with a space inserted after its first digit. */
  lemma GroupedTextShape()
    ensures "1" + [' '] + "234 offres" == "1 234 offres"
    ensures "" + DecimalString(1234) + " offres" == "1" + "234 offres"
  {
    assert DecimalString(1234) == "1234";
  }

  /** A count text without any digit raises instead of giving 0. */
  lemma ParseWordsOnly()
    ensures ParseTotal("Aucune offre") == Failure(InvalidLiteral(""))
  {
  }

  /**
   * `1 if debug else -(-total_results // RESULTS_PER_PAGE)`. Python's `//`
   * floors; Dafny's `/` is Euclidean, and the two agree for a positive divisor.
   */
  function PageCount(total: nat, debug: bool): (pages: nat)
    ensures debug ==> pages == 1
    ensures !debug ==> total <= pages * ResultsPerPage
    ensures !debug && pages > 0 ==> (pages - 1) * ResultsPerPage < total
  {
    if debug then 1
    else
      var q: int := -(total as int) / (ResultsPerPage as int);
      assert q <= 0;
      -q
  }

  /** Outside debug mode no page is visited exactly when there are no results. */
  lemma NoPagesIffNoResults(total: nat)
    ensures PageCount(total, false) == 0 <==> total == 0
  {
  }

  /** Page counts for 0, 32, 33 and 65 results, and in debug mode. */
  lemma PageCountExamples()
    ensures PageCount(0, false) == 0
    ensures PageCount(32, false) == 1
    ensures PageCount(33, false) == 2
    ensures PageCount(65, false) == 3
    ensures PageCount(0, true) == 1 && PageCount(1000, true) == 1
  {
  }
}
