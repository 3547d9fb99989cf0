/** Trimming of the fixed-point result text. The number is first rendered by
    the locale (outside this model) as a string with twelve decimals; the
    text after the first decimal separator then loses its trailing '0's,
    and the separator goes too when no decimal is left. The window class
    does only that; the conversion handler also prints an exact zero as "0". */
module Trim {
  import opened Text

  predicate IsZeroDigit(c: char) {
    c == '0'
  }

  /** The trimming block of `perform_conversion` (window class). */
  function TrimFraction(raw: string, sep: char): (r: string)
    ensures sep !in raw ==> r == raw
    // trimming only ever cuts a tail, and never into the integer part
    ensures sep in raw ==> IndexOf(raw, sep) <= |r| <= |raw| && r == raw[..|r|]
    // what is cut is '0's and, with them, the first separator
    ensures sep in raw ==> forall k :: |r| <= k < |raw| ==> raw[k] == '0' || k == IndexOf(raw, sep)
    // the first separator is kept only with a digit after it that is not '0'
    ensures sep in raw ==> |r| != IndexOf(raw, sep) + 1
    ensures sep in raw && |r| > IndexOf(raw, sep) ==> r[|r| - 1] != '0'
    // with a single separator, the result never ends in it
    ensures sep in raw && sep !in raw[IndexOf(raw, sep) + 1..] && |r| > 0 ==> r[|r| - 1] != sep
  {
    if sep in raw then
      var parts := SplitOnce(raw, sep);
      var cleaned := RStrip(parts[1], IsZeroDigit);
      if |cleaned| > 0 then parts[0] + [sep] + cleaned else parts[0]
    else raw
  }

  /** Trimming is idempotent: a trimmed text has nothing left to trim. */
  lemma TrimFractionIdempotent(raw: string, sep: char)
    ensures TrimFraction(TrimFraction(raw, sep), sep) == TrimFraction(raw, sep)
  {
    if sep in raw {
      var parts := SplitOnce(raw, sep);
      var cleaned := RStrip(parts[1], IsZeroDigit);
      if |cleaned| > 0 {
        assert cleaned + Zeros(0) == cleaned;
        TrimKeepsSignificant(parts[0], sep, cleaned, 0);
      }
    }
  }

  /** The zero/trim block of `on_convert_clicked` (conversion handler):
      `rounded` is the converted value after `round(result, 12)` and
      `rendered` its locale rendering with twelve decimals. */
  function FormatFixed(rounded: real, rendered: string, sep: char): (r: string)
    ensures rounded == 0.0 ==> r == "0"
    ensures rounded != 0.0 ==> r == TrimFraction(rendered, sep)
  {
    if rounded == 0.0 then "0"
    else if sep in rendered then
      var parts := SplitOnce(rendered, sep);
      if |parts| > 1 then
        var decimalPart := RStrip(parts[1], IsZeroDigit);
        if |decimalPart| > 0 then parts[0] + [sep] + decimalPart else parts[0]
      else rendered
    else rendered
  }

  /** `n` zero digits. */
  function Zeros(n: nat): (z: string)
    ensures |z| == n && forall k :: 0 <= k < n ==> z[k] == '0'
  {
    seq(n, _ => '0')
  }

  /** The zeros after the last significant decimal go, and nothing else. */
  lemma TrimKeepsSignificant(whole: string, sep: char, digits: string, n: nat)
    requires sep !in whole
    requires |digits| > 0 && digits[|digits| - 1] != '0'
    ensures TrimFraction(whole + [sep] + digits + Zeros(n), sep) == whole + [sep] + digits
  {
    var raw := whole + [sep] + digits + Zeros(n);
    var f := digits + Zeros(n);
    assert raw == whole + [sep] + f;
    var parts := SplitOnce(raw, sep);
    SplitAtFirst(whole, sep, f);
    var c := RStrip(f, IsZeroDigit);
    assert f[|digits| - 1] == digits[|digits| - 1];
    assert c == digits;
  }

  /** A fraction of zeros only goes, separator and all. */
  lemma TrimDropsZeroFraction(whole: string, sep: char, n: nat)
    requires sep !in whole
    ensures TrimFraction(whole + [sep] + Zeros(n), sep) == whole
  {
    SplitAtFirst(whole, sep, Zeros(n));
    assert RStrip(Zeros(n), IsZeroDigit) == [];
  }

  /** Splitting at the first separator recovers the two sides. */
  lemma SplitAtFirst(whole: string, sep: char, rest: string)
    requires sep !in whole
    ensures SplitOnce(whole + [sep] + rest, sep) == [whole, rest]
  {
    var s := whole + [sep] + rest;
    assert s[|whole|] == sep;
    assert s[..|whole|] == whole;
    assert IndexOf(s, sep) == |whole|;
    assert s[|whole| + 1..] == rest;
  }

  /** An all-zero fraction collapses to the integer part. */
  lemma AllZeroFractionCollapses(raw: string)
    requires raw == "0,000000000000"
    ensures TrimFraction(raw, ',') == "0"
  {
    assert raw == "0" + [','] + Zeros(12);
    TrimDropsZeroFraction("0", ',', 12);
  }

  /** Trailing zeros go, the significant decimals stay. */
  lemma TrailingZerosDropped(raw: string)
    requires raw == "1234.500000000000"
    ensures TrimFraction(raw, '.') == "1234.5"
  {
    assert raw == "1234" + ['.'] + "5" + Zeros(11);
    TrimKeepsSignificant("1234", '.', "5", 11);
  }
}
