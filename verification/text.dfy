/** Small string utilities with the meaning Python gives them in `ingest_file`:
    prefix tests, `split("/")[-1]`, `str(int)` and the response preview. */
module Text {

  /** `s.startswith(prefix)` */
  predicate StartsWith(s: string, prefix: string) {
    |prefix| <= |s| && s[..|prefix|] == prefix
  }

  /** `s.endswith(suffix)` */
  predicate EndsWith(s: string, suffix: string) {
    |suffix| <= |s| && s[|s| - |suffix|..] == suffix
  }

  /** `s.split(sep)[-1]` for a one-character separator: the text after the last
      `sep`, or the whole of `s` when `sep` does not occur. */
  function AfterLast(s: string, sep: char): (r: string)
    ensures |r| <= |s| && r == s[|s| - |r|..]
    ensures sep !in r
    ensures |r| < |s| ==> s[|s| - |r| - 1] == sep
    ensures sep !in s ==> r == s
  {
    if |s| == 0 then s
    else if s[|s| - 1] == sep then []
    else
      var init := s[..|s| - 1];
      assert s == init + [s[|s| - 1]];
      AfterLast(init, sep) + [s[|s| - 1]]
  }

  // ---------------------------------------------------------------------------
  // Decimal rendering, as Python's `str(n)` for a non-negative integer

  predicate IsDigit(c: char) {
    '0' <= c <= '9'
  }

  predicate AllDigits(s: string) {
    forall i :: 0 <= i < |s| ==> IsDigit(s[i])
  }

  function DigitChar(d: nat): (c: char)
    requires d < 10
    ensures IsDigit(c)
  {
    "0123456789"[d]
  }

  function DigitValue(c: char): (d: nat)
    requires IsDigit(c)
    ensures d < 10
  {
    (c as int - '0' as int) as nat
  }

  /** `str(n)`: the shortest decimal spelling of `n` (no leading zero unless `n` is 0). */
  function Decimal(n: nat): (s: string)
    ensures |s| >= 1 && AllDigits(s)
    ensures s[0] == '0' ==> n == 0 && s == "0"
    decreases n
  {
    if n < 10 then [DigitChar(n)]
    else Decimal(n / 10) + [DigitChar(n % 10)]
  }

  /** Reads a run of decimal digits back as a number. */
  function ParseDecimal(s: string): nat
    requires AllDigits(s)
  {
    if |s| == 0 then 0
    else ParseDecimal(s[..|s| - 1]) * 10 + DigitValue(s[|s| - 1])
  }

  lemma {:induction false} DecimalRoundTrip(n: nat)
    ensures ParseDecimal(Decimal(n)) == n
    decreases n
  {
    if n >= 10 {
      var s := Decimal(n);
      assert s[..|s| - 1] == Decimal(n / 10);
      DecimalRoundTrip(n / 10);
    }
  }

  /** Length of the longest suffix of `s` made of digits only. */
  function TrailingDigits(s: string): (k: nat)
    ensures k <= |s| && AllDigits(s[|s| - k..])
    ensures k < |s| ==> !IsDigit(s[|s| - k - 1])
  {
    if |s| == 0 || !IsDigit(s[|s| - 1]) then 0
    else
      var init := s[..|s| - 1];
      var k' := TrailingDigits(init);
      assert s[|s| - (k' + 1)..] == init[|init| - k'..] + [s[|s| - 1]];
      k' + 1
  }

  /** A digit run that follows a non-digit is exactly the trailing digit run. */
  lemma {:induction false} TrailingDigitsOfAppend(x: string, d: string)
    requires |x| > 0 && !IsDigit(x[|x| - 1])
    requires AllDigits(d)
    ensures TrailingDigits(x + d) == |d|
    decreases |d|
  {
    if |d| > 0 {
      var d' := d[..|d| - 1];
      assert (x + d)[..|x + d| - 1] == x + d';
      TrailingDigitsOfAppend(x, d');
    } else {
      assert x + d == x;
    }
  }

  // ---------------------------------------------------------------------------
  // Response preview (main.py line 126)

  /** Number of characters of content echoed back in a response. */
  const PreviewLimit: nat := 100

  /** Marker appended to a preview that was cut short. */
  const Ellipsis: string := "..."

  function Min(a: nat, b: nat): nat {
    if a <= b then a else b
  }

  /** `content[:100] + "..." if len(content) > 100 else content` */
  function Preview(content: string): (p: string)
    ensures |p| <= PreviewLimit + |Ellipsis|
    ensures StartsWith(p, content[..Min(|content|, PreviewLimit)])
    ensures |content| <= PreviewLimit ==> p == content
    ensures |content| > PreviewLimit ==> EndsWith(p, Ellipsis) && |p| == PreviewLimit + |Ellipsis|
  {
    if |content| > PreviewLimit then content[..PreviewLimit] + Ellipsis else content
  }

  /** Short contents are recoverable from their preview; long ones are identified
      by their first hundred characters only. */
  lemma PreviewDeterminesShortContent(a: string, b: string)
    requires Preview(a) == Preview(b)
    ensures |a| <= PreviewLimit <==> |b| <= PreviewLimit
    ensures |a| <= PreviewLimit ==> a == b
    ensures |a| > PreviewLimit ==> a[..PreviewLimit] == b[..PreviewLimit]
  {
  }
}
