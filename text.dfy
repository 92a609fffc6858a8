/**
 * The few JavaScript string primitives the application relies on:
 * `String.prototype.trim`, `toLowerCase`, `length` (UTF-16 code units,
 * which is what zod's `min`/`max` count) and the rendering of an integer
 * by a template literal.
 */
module Text {
  import opened Wrappers

  /** The WhiteSpace and LineTerminator code points of ECMAScript: what `trim` strips. */
  const JsWhitespace: set<char> := {
    '\t', '\n', '\U{000B}', '\U{000C}', '\r', ' ', '\U{00A0}', '\U{1680}',
    '\U{2000}', '\U{2001}', '\U{2002}', '\U{2003}', '\U{2004}', '\U{2005}',
    '\U{2006}', '\U{2007}', '\U{2008}', '\U{2009}', '\U{200A}',
    '\U{2028}', '\U{2029}', '\U{202F}', '\U{205F}', '\U{3000}', '\U{FEFF}' }

  predicate IsJsWhitespace(c: char) {
    c in JsWhitespace
  }

  predicate AllWhitespace(s: string) {
    forall k :: 0 <= k < |s| ==> IsJsWhitespace(s[k])
  }

  /** The number of whitespace characters `s` starts with. */
  function LeadingBlanks(s: string): (n: nat)
    ensures n <= |s|
    ensures forall k :: 0 <= k < n ==> IsJsWhitespace(s[k])
    ensures n < |s| ==> !IsJsWhitespace(s[n])
  {
    if s != [] && IsJsWhitespace(s[0]) then
      var n := 1 + LeadingBlanks(s[1..]);
      assert forall k :: 1 <= k < n ==> s[k] == s[1..][k - 1];
      n
    else 0
  }

  /** Where the content of `s[lo..hi]` ends once the trailing whitespace is dropped. */
  function ContentEnd(s: string, lo: nat, hi: nat): (m: nat)
    requires lo <= hi <= |s|
    ensures lo <= m <= hi
    ensures forall k :: m <= k < hi ==> IsJsWhitespace(s[k])
    ensures m > lo ==> !IsJsWhitespace(s[m - 1])
    decreases hi
  {
    if hi > lo && IsJsWhitespace(s[hi - 1]) then ContentEnd(s, lo, hi - 1) else hi
  }

  /**
   * `s.trim()`: the contiguous middle of `s` left once the whitespace on both
   * ends is gone. Everything outside it is whitespace, it neither starts nor
   * ends with whitespace, and it is empty exactly when `s` is blank.
   */
  function Trim(s: string): (r: string)
    ensures var a := LeadingBlanks(s);
      && a + |r| <= |s| && r == s[a..a + |r|]
      && forall k :: 0 <= k < |s| && !(a <= k < a + |r|) ==> IsJsWhitespace(s[k])
    ensures r != [] ==> !IsJsWhitespace(r[0]) && !IsJsWhitespace(r[|r| - 1])
    ensures r == [] <==> AllWhitespace(s)
  {
    var a := LeadingBlanks(s);
    var b := ContentEnd(s, a, |s|);
    s[a..b]
  }

  /** Trimming a string that neither starts nor ends with whitespace leaves it as it is. */
  lemma {:induction false} TrimmedIsFixed(s: string)
    requires s != [] ==> !IsJsWhitespace(s[0]) && !IsJsWhitespace(s[|s| - 1])
    ensures Trim(s) == s
  {
    assert LeadingBlanks(s) == 0;
    assert ContentEnd(s, 0, |s|) == |s|;
  }

  /** `trim` is idempotent. */
  lemma TrimIdempotent(s: string)
    ensures Trim(Trim(s)) == Trim(s)
  {
    TrimmedIsFixed(Trim(s));
  }

  /** `toLowerCase` on the Basic Latin letters; every other character is kept. */
  function LowerChar(c: char): (d: char)
    ensures ('A' <= c <= 'Z') <==> ('a' <= d <= 'z' && d != c)
    ensures IsJsWhitespace(d) == IsJsWhitespace(c)
  {
    if 'A' <= c <= 'Z' then (c as int + 32) as char else c
  }

  predicate HasNoUpperAscii(s: string) {
    forall k :: 0 <= k < |s| ==> !('A' <= s[k] <= 'Z')
  }

  /** `s.toLowerCase()`, restricted to Basic Latin: the result has no capital A to Z. */
  function ToLower(s: string): (r: string)
    ensures |r| == |s| && HasNoUpperAscii(r)
    ensures forall k :: 0 <= k < |s| ==> r[k] == LowerChar(s[k])
  {
    seq(|s|, k requires 0 <= k < |s| => LowerChar(s[k]))
  }

  /** A string without capitals is its own lower case; hence `ToLower` is idempotent. */
  lemma LowerOfLowercase(s: string)
    requires HasNoUpperAscii(s)
    ensures ToLower(s) == s
  {
  }

  /**
   * `s.length` in JavaScript: the number of UTF-16 code units. A character
   * outside the Basic Multilingual Plane takes two.
   */
  function Utf16Length(s: string): (n: nat)
    ensures |s| <= n <= 2 * |s|
  {
    if s == [] then 0 else (if s[0] as int > 0xFFFF then 2 else 1) + Utf16Length(s[1..])
  }

  /** zod's `z.string().min(1)`: at least one UTF-16 code unit. Only the length counts, so blanks pass. */
  predicate NonEmpty(s: string) {
    Utf16Length(s) >= 1
  }

  /** `min(1)` holds exactly of the strings that are not empty. */
  lemma NonEmptyIsNotEmpty(s: string)
    ensures NonEmpty(s) <==> s != []
  {
  }

  // ----- integers rendered by a template literal -----

  predicate IsDigit(c: char) { '0' <= c <= '9' }

  predicate AllDigits(s: string) {
    forall k :: 0 <= k < |s| ==> IsDigit(s[k])
  }

  function DigitChar(d: nat): (c: char)
    requires d < 10
    ensures IsDigit(c) && c as int - '0' as int == d
  {
    ('0' as int + d) as char
  }

  /** `${n}` for a natural number below 10^21 (where JavaScript writes plain digits): its decimal digits, without a leading zero. */
  function NatToString(n: nat): (r: string)
    ensures r != [] && AllDigits(r)
    ensures |r| > 1 ==> r[0] != '0'
    ensures r[0] == '0' <==> n == 0
  {
    if n < 10 then [DigitChar(n)] else NatToString(n / 10) + [DigitChar(n % 10)]
  }

  /** The value of a string of decimal digits. */
  function DigitsValue(s: string): nat
    requires AllDigits(s)
  {
    if s == [] then 0 else DigitsValue(s[..|s| - 1]) * 10 + (s[|s| - 1] as int - '0' as int)
  }

  /** Reading back the decimal digits of `n` gives `n`. */
  lemma {:induction false} NatToStringRoundTrip(n: nat)
    ensures DigitsValue(NatToString(n)) == n
  {
    if n >= 10 {
      NatToStringRoundTrip(n / 10);
      var r := NatToString(n);
      assert r[..|r| - 1] == NatToString(n / 10);
    }
  }

  /** A number from 10 to 99 is rendered as exactly its two digits. */
  lemma TwoDigitRendering(n: nat)
    requires 10 <= n <= 99
    ensures NatToString(n) == [DigitChar(n / 10), DigitChar(n % 10)]
  {
  }

  /**
   * A decimal integer as a template literal writes one of magnitude below
   * 10^21: an optional minus sign, then digits with no leading zero, and no `-0`.
   */
  predicate CanonicalInt(s: string) {
    if s != [] && s[0] == '-' then |s| > 1 && AllDigits(s[1..]) && s[1] != '0'
    else s != [] && AllDigits(s) && (|s| > 1 ==> s[0] != '0')
  }

  /** `${i}` for an integer of magnitude below 10^21: a minus sign before the digits of a negative number. */
  function IntToString(i: int): (r: string)
    ensures CanonicalInt(r)
    ensures r[0] == '-' <==> i < 0
  {
    if i < 0 then "-" + NatToString(-i) else NatToString(i)
  }

  /** Reads a decimal integer with an optional leading minus sign. */
  function IntOfString(s: string): Option<int> {
    if |s| > 1 && s[0] == '-' && AllDigits(s[1..]) then Some(-(DigitsValue(s[1..]) as int))
    else if s != [] && AllDigits(s) then Some(DigitsValue(s))
    else None
  }

  /** The rendering of an integer reads back as that integer. */
  lemma IntToStringRoundTrip(i: int)
    ensures IntOfString(IntToString(i)) == Some(i)
  {
    if i < 0 {
      NatToStringRoundTrip(-i);
      assert IntToString(i)[1..] == NatToString(-i);
    } else {
      NatToStringRoundTrip(i);
    }
  }

  // ----- splitting -----

  /** Splits at the first `sep`: the part before it, which has none, and the part after it. */
  function SplitAtFirst(s: string, sep: char): (r: Option<(string, string)>)
    ensures r.None? <==> sep !in s
    ensures r.Some? ==> s == r.value.0 + [sep] + r.value.1 && sep !in r.value.0
  {
    if s == [] then None
    else if s[0] == sep then Some(([], s[1..]))
    else
      match SplitAtFirst(s[1..], sep)
      case None => None
      case Some((a, b)) => Some(([s[0]] + a, b))
  }

  /** Joining a `sep`-free part to any rest with `sep` splits back into the two. */
  lemma {:induction false} SplitJoined(w: string, sep: char, t: string)
    requires sep !in w
    ensures SplitAtFirst(w + [sep] + t, sep) == Some((w, t))
  {
    if w != [] {
      assert (w + [sep] + t)[1..] == w[1..] + [sep] + t;
      SplitJoined(w[1..], sep, t);
      assert [w[0]] + w[1..] == w;
    }
  }
}
