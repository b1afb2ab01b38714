/**
 * The string handling the authentication code relies on: the parts of Go's
 * `strings` package it calls (SplitN with n = 2, Split, ToLower), decimal
 * numerals as `strconv` writes and reads them, and the percent-escaping used
 * by the token format of module Jwt.
 */
module Text {
  import opened Wrappers

  /** Index of the first `c` in `s`, if any. */
  function IndexOf(s: string, c: char): (r: Option<nat>)
    ensures r.None? <==> c !in s
    ensures r.Some? ==> r.value < |s| && s[r.value] == c && c !in s[..r.value]
  {
    if |s| == 0 then None
    else if s[0] == c then Some(0)
    else
      match IndexOf(s[1..], c)
      case None =>
        assert s == [s[0]] + s[1..];
        None
      case Some(i) =>
        assert s[..i + 1] == [s[0]] + s[1..][..i];
        Some(i + 1)
  }

  /** Number of occurrences of `c` in `s` (Go's strings.Count for one rune). */
  function Count(s: string, c: char): nat
  {
    if |s| == 0 then 0 else (if s[0] == c then 1 else 0) + Count(s[1..], c)
  }

  lemma {:induction false} CountAppend(a: string, b: string, c: char)
    ensures Count(a + b, c) == Count(a, c) + Count(b, c)
  {
    if |a| == 0 {
      assert a + b == b;
    } else {
      assert (a + b)[1..] == a[1..] + b;
      CountAppend(a[1..], b, c);
    }
  }

  lemma {:induction false} CountZero(s: string, c: char)
    ensures Count(s, c) == 0 <==> c !in s
  {
    if |s| > 0 {
      CountZero(s[1..], c);
      assert s == [s[0]] + s[1..];
    }
  }

  /**
   * Go's strings.SplitN(s, sep, 2): the whole string when `sep` does not
   * occur, otherwise the text before the first `sep` and everything after it.
   */
  function SplitFirst(s: string, sep: char): (parts: seq<string>)
    ensures |parts| == 1 || |parts| == 2
    ensures |parts| == 2 <==> sep in s
    ensures |parts| == 1 ==> parts[0] == s
    ensures |parts| == 2 ==> sep !in parts[0] && parts[0] + [sep] + parts[1] == s
  {
    match IndexOf(s, sep)
    case None => [s]
    case Some(i) =>
      assert s == s[..i] + [sep] + s[i + 1..];
      [s[..i], s[i + 1..]]
  }

  /** Go's strings.Split(s, sep): the pieces between every two occurrences of `sep`. */
  function Split(s: string, sep: char): (parts: seq<string>)
    ensures |parts| == Count(s, sep) + 1
    ensures forall k :: 0 <= k < |parts| ==> sep !in parts[k]
    decreases |s|
  {
    match IndexOf(s, sep)
    case None =>
      CountZero(s, sep);
      [s]
    case Some(i) =>
      assert s == s[..i] + ([sep] + s[i + 1..]);
      CountAppend(s[..i], [sep] + s[i + 1..], sep);
      CountAppend([sep], s[i + 1..], sep);
      CountZero(s[..i], sep);
      [s[..i]] + Split(s[i + 1..], sep)
  }

  /** Split takes the text before the first `sep` as its first piece and splits the rest on. */
  lemma SplitAfterFirst(x: string, y: string, sep: char)
    requires sep !in x
    ensures Split(x + [sep] + y, sep) == [x] + Split(y, sep)
  {
    var s := x + [sep] + y;
    assert s[..|x|] == x && s[|x|] == sep;
    assert IndexOf(s, sep) == Some(|x|);
    assert s[|x| + 1..] == y;
  }

  /** Go's strings.Join(parts, sep), the inverse of Split. */
  function Join(parts: seq<string>, sep: char): string
    requires |parts| > 0
  {
    if |parts| == 1 then parts[0] else parts[0] + [sep] + Join(parts[1..], sep)
  }

  /** Splitting on every `sep` loses nothing: joining the pieces gives back the input. */
  lemma {:induction false} JoinSplit(s: string, sep: char)
    ensures Join(Split(s, sep), sep) == s
    decreases |s|
  {
    match IndexOf(s, sep)
    case None =>
    case Some(i) =>
      JoinSplit(s[i + 1..], sep);
      assert s == s[..i] + [sep] + s[i + 1..];
  }

  /** Splitting a string with exactly one `sep` gives the same two pieces as SplitFirst. */
  lemma SplitOneSeparator(s: string, sep: char)
    requires Count(s, sep) == 1
    ensures Split(s, sep) == SplitFirst(s, sep)
  {
    var i := IndexOf(s, sep).value;
    assert s == s[..i] + ([sep] + s[i + 1..]);
    CountAppend(s[..i], [sep] + s[i + 1..], sep);
    CountAppend([sep], s[i + 1..], sep);
    CountZero(s[i + 1..], sep);
    assert IndexOf(s[i + 1..], sep).None?;
  }

  /** unicode.ToLower restricted to ASCII letters; no other rune lowers to a letter of "bearer". */
  function LowerChar(c: char): char
  {
    if 'A' <= c <= 'Z' then (c as int + 32) as char else c
  }

  /** Go's strings.ToLower, as far as comparisons with ASCII words are concerned. */
  function Lower(s: string): (r: string)
    ensures |r| == |s|
  {
    seq(|s|, k requires 0 <= k < |s| => LowerChar(s[k]))
  }

  predicate IsDigit(c: char)
  {
    '0' <= c <= '9'
  }

  predicate AllDigits(s: string)
  {
    forall k :: 0 <= k < |s| ==> IsDigit(s[k])
  }

  function DigitChar(d: nat): (c: char)
    requires d < 10
    ensures IsDigit(c)
  {
    ('0' as int + d) as char
  }

  function DigitValue(c: char): (d: nat)
    requires IsDigit(c)
    ensures d < 10
  {
    c as int - '0' as int
  }

  /** The decimal numeral of `n` (strconv.FormatUint with base 10): never empty, digits only. */
  function DecimalText(n: nat): (s: string)
    ensures |s| > 0 && AllDigits(s)
    decreases n
  {
    if n < 10 then [DigitChar(n)] else DecimalText(n / 10) + [DigitChar(n % 10)]
  }

  /** The value of a decimal numeral (strconv.ParseUint with base 10, without the 64-bit bound). */
  function DecimalValue(s: string): nat
    requires AllDigits(s)
    decreases |s|
  {
    if |s| == 0 then 0
    else DecimalValue(s[..|s| - 1]) * 10 + DigitValue(s[|s| - 1])
  }

  /** Reading back a numeral gives the number written. */
  lemma {:induction false} DecimalRoundTrip(n: nat)
    ensures DecimalValue(DecimalText(n)) == n
    decreases n
  {
    var s := DecimalText(n);
    if n >= 10 {
      DecimalRoundTrip(n / 10);
      assert s[..|s| - 1] == DecimalText(n / 10);
    }
  }

  /** Percent-escape of one character: the space, the dot and the percent sign are written as `%XX`. */
  function EscapeChar(c: char): string
  {
    if c == ' ' then "%20"
    else if c == '.' then "%2E"
    else if c == '%' then "%25"
    else [c]
  }

  /** Percent-escapes `s`; the result holds neither a space nor a dot. */
  function Escape(s: string): (r: string)
    ensures ' ' !in r && '.' !in r
  {
    if |s| == 0 then "" else EscapeChar(s[0]) + Escape(s[1..])
  }

  function Unescape(s: string): string
    decreases |s|
  {
    if |s| == 0 then ""
    else if |s| >= 3 && s[..3] == "%20" then " " + Unescape(s[3..])
    else if |s| >= 3 && s[..3] == "%2E" then "." + Unescape(s[3..])
    else if |s| >= 3 && s[..3] == "%25" then "%" + Unescape(s[3..])
    else [s[0]] + Unescape(s[1..])
  }

  /** Unescape undoes Escape. */
  lemma {:induction false} UnescapeEscape(s: string)
    ensures Unescape(Escape(s)) == s
  {
    if |s| > 0 {
      var rest := Escape(s[1..]);
      var e := EscapeChar(s[0]) + rest;
      assert Escape(s) == e;
      UnescapeEscape(s[1..]);
      if s[0] == ' ' {
        assert e[..3] == "%20" && e[3..] == rest;
        assert Unescape(e) == " " + Unescape(rest);
      } else if s[0] == '.' {
        assert e[..3] == "%2E" && e[3..] == rest;
        assert Unescape(e) == "." + Unescape(rest);
      } else if s[0] == '%' {
        assert e[..3] == "%25" && e[3..] == rest;
        assert Unescape(e) == "%" + Unescape(rest);
      } else {
        assert e[0] == s[0] && e[1..] == rest;
        assert |e| >= 3 ==> e[..3][0] != '%';
        assert Unescape(e) == [s[0]] + Unescape(rest);
      }
      assert s == [s[0]] + s[1..];
    }
  }

  lemma EscapeInjective(a: string, b: string)
    requires Escape(a) == Escape(b)
    ensures a == b
  {
    UnescapeEscape(a);
    UnescapeEscape(b);
  }
}
