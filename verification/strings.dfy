/** String helpers with JavaScript meaning: `trim`, `split(sep).pop()` and
    the decimal rendering a template literal gives a non-negative integer. */
module Strings {

  /** The characters `String.prototype.trim` and `parseInt` skip: the white
      space and line terminators of sections 12.2 and 12.3 of ECMA-262, that
      is tab, vertical tab, form feed, the byte-order mark, the Unicode space
      separators (category Zs) and the four line terminators. */
  predicate IsSpace(c: char) {
    || c == '\t' || c == '\U{000B}' || c == '\U{000C}' || c == '\U{FEFF}'
    || c == ' ' || c == '\U{00A0}' || c == '\U{1680}' || ('\U{2000}' <= c <= '\U{200A}')
    || c == '\U{202F}' || c == '\U{205F}' || c == '\U{3000}'
    || c == '\n' || c == '\r' || c == '\U{2028}' || c == '\U{2029}'
  }

  predicate AllSpace(s: string) {
    forall i :: 0 <= i < |s| ==> IsSpace(s[i])
  }

  function TrimStart(s: string): (r: string)
    ensures |r| <= |s| && r == s[|s| - |r|..]
    ensures r == [] || !IsSpace(r[0])
    ensures AllSpace(s[..|s| - |r|])
  {
    if s == [] || !IsSpace(s[0]) then s
    else
      var r := TrimStart(s[1..]);
      assert s[..|s| - |r|] == [s[0]] + s[1..][..|s[1..]| - |r|];
      r
  }

  function TrimEnd(s: string): (r: string)
    ensures |r| <= |s| && r == s[..|r|]
    ensures r == [] || !IsSpace(r[|r| - 1])
    ensures AllSpace(s[|r|..])
  {
    if s == [] || !IsSpace(s[|s| - 1]) then s
    else
      var r := TrimEnd(s[..|s| - 1]);
      assert s[|r|..] == s[..|s| - 1][|r|..] + [s[|s| - 1]];
      r
  }

  /** `s.trim()`: leading and trailing white space removed. */
  function Trim(s: string): (r: string)
    ensures r == [] || (!IsSpace(r[0]) && !IsSpace(r[|r| - 1]))
    ensures exists i, j :: 0 <= i <= j <= |s| && r == s[i..j] && AllSpace(s[..i]) && AllSpace(s[j..])
  {
    var t := TrimStart(s);
    var r := TrimEnd(t);
    var i := |s| - |t|;
    var j := i + |r|;
    assert r == s[i..j];
    assert s[j..] == t[|r|..];
    r
  }

  /** `!s.trim()`: the text is empty or white space only. */
  predicate IsBlank(s: string) {
    Trim(s) == []
  }

  /** A string is blank exactly when every character is white space. */
  lemma BlankIffAllSpace(s: string)
    ensures IsBlank(s) <==> AllSpace(s)
  {
    var t := TrimStart(s);
    if IsBlank(s) {
      assert t[|TrimEnd(t)|..] == t;
      assert t == [];
      assert s[..|s| - |t|] == s;
    }
  }

  /** `s.split(sep).pop()`: the text after the last separator, or all of
      `s` when it holds none. */
  function LastSegment(s: string, sep: char): (r: string)
    ensures |r| <= |s| && r == s[|s| - |r|..]
    ensures sep !in r
    ensures |r| < |s| ==> s[|s| - |r| - 1] == sep
  {
    if s == [] then []
    else if s[|s| - 1] == sep then []
    else LastSegment(s[..|s| - 1], sep) + [s[|s| - 1]]
  }

  /** The segment after the last separator is exactly what follows the
      final separator; without one it is the whole string. */
  lemma LastSegmentAfterSeparator(prefix: string, sep: char, ext: string)
    requires sep !in ext
    ensures LastSegment(prefix + [sep] + ext, sep) == ext
    ensures LastSegment(ext, sep) == ext
  {
    LastSegmentOfSuffixFree(prefix + [sep], sep, ext);
    LastSegmentOfSuffixFree([], sep, ext);
  }

  lemma {:induction false} LastSegmentOfSuffixFree(prefix: string, sep: char, ext: string)
    requires prefix == [] || prefix[|prefix| - 1] == sep
    requires sep !in ext
    ensures LastSegment(prefix + ext, sep) == ext
  {
    if ext == [] {
      assert prefix + ext == prefix;
    } else {
      var init := ext[..|ext| - 1];
      var last := ext[|ext| - 1];
      assert prefix + ext == (prefix + init) + [last];
      forall j | 0 <= j < |init|
        ensures init[j] != sep
      {
        assert init[j] == ext[j];
      }
      LastSegmentOfSuffixFree(prefix, sep, init);
      assert init + [last] == ext;
    }
  }

  predicate IsDigit(c: char) {
    '0' <= c <= '9'
  }

  function DigitChar(d: nat): (c: char)
    requires d < 10
    ensures IsDigit(c)
  {
    ('0' as int + d) as char
  }

  /** The decimal text of a non-negative integer, as `${n}` renders it. */
  function NatToString(n: nat): (s: string)
    ensures |s| >= 1
    ensures forall i :: 0 <= i < |s| ==> IsDigit(s[i])
    ensures |s| > 1 ==> s[0] != '0'
  {
    if n < 10 then [DigitChar(n)]
    else NatToString(n / 10) + [DigitChar(n % 10)]
  }

  /** The value of a string of decimal digits. */
  function DecimalValue(s: string): nat
    requires forall i :: 0 <= i < |s| ==> IsDigit(s[i])
  {
    if s == [] then 0
    else
      assert IsDigit(s[|s| - 1]);
      DecimalValue(s[..|s| - 1]) * 10 + (s[|s| - 1] as int - '0' as int)
  }

  /** Rendering then reading back gives the same number, so distinct
      timestamps and indices give distinct path components. */
  lemma {:induction false} DecimalRoundTrip(n: nat)
    ensures DecimalValue(NatToString(n)) == n
  {
    if n >= 10 {
      var s := NatToString(n);
      assert s[..|s| - 1] == NatToString(n / 10);
      DecimalRoundTrip(n / 10);
    }
  }

  lemma NatToStringInjective(a: nat, b: nat)
    requires NatToString(a) == NatToString(b)
    ensures a == b
  {
    DecimalRoundTrip(a);
    DecimalRoundTrip(b);
  }

  /** Equal strings with an equal prefix have equal remainders. */
  lemma DropPrefix(p: string, s: string, t: string)
    requires p + s == p + t
    ensures s == t
  {
    assert s == (p + s)[|p|..];
    assert t == (p + t)[|p|..];
  }

  /** The length of the run of digits a string starts with. */
  function LeadingDigits(x: string): (n: nat)
    ensures n <= |x|
    ensures forall i :: 0 <= i < n ==> IsDigit(x[i])
    ensures n < |x| ==> !IsDigit(x[n])
  {
    if x == [] || !IsDigit(x[0]) then 0 else 1 + LeadingDigits(x[1..])
  }

  lemma {:induction false} LeadingDigitsOfStamp(d: string, sep: char, s: string)
    requires forall i :: 0 <= i < |d| ==> IsDigit(d[i])
    requires !IsDigit(sep)
    ensures LeadingDigits(d + [sep] + s) == |d|
  {
    if d == [] {
      assert d + [sep] + s == [sep] + s;
    } else {
      assert (d + [sep] + s)[1..] == d[1..] + [sep] + s;
      LeadingDigitsOfStamp(d[1..], sep, s);
    }
  }

  /** A number followed by a non-digit separator is read back
      unambiguously: equal texts `<a><sep>…` and `<b><sep>…` carry equal
      numbers. */
  lemma StampInjective(a: nat, b: nat, sep: char, s: string, t: string)
    requires !IsDigit(sep)
    requires NatToString(a) + [sep] + s == NatToString(b) + [sep] + t
    ensures a == b
  {
    var sa := NatToString(a);
    var sb := NatToString(b);
    LeadingDigitsOfStamp(sa, sep, s);
    LeadingDigitsOfStamp(sb, sep, t);
    assert sa == (sa + [sep] + s)[..|sa|];
    assert sb == (sb + [sep] + t)[..|sb|];
    NatToStringInjective(a, b);
  }

  /** Regrouping a six-part concatenation around its second and third
      parts. */
  lemma Regroup(a: string, b: string, c: string, d: string, e: string, f: string)
    ensures a + b + c + d + e + f == a + (b + c + (d + e + f))
  {
  }

  /** A string begins with the first part of a left-nested concatenation
      of six parts. */
  lemma PrefixOfSix(u: string, a: string, b: string, c: string, d: string, e: string)
    ensures |u + a + b + c + d + e| >= |u| && (u + a + b + c + d + e)[..|u|] == u
  {
    var s := u + a + b + c + d + e;
    assert forall i :: 0 <= i < |u| ==> s[i] == u[i];
  }

  lemma PrefixOf(pre: string, s: string)
    ensures (pre + s)[..|pre|] == pre
  {
  }
}
