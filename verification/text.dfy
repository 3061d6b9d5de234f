/**
 * Strings as JavaScript sees them: the character classes of its regular
 * expressions, decimal numbers written and read back, prefix matching,
 * leftmost search, and the few `String.prototype` methods the program uses
 * (`includes`, `replace` with a one-character pattern, `split`, `trim`).
 */
module Text {
  import opened Wrappers

  /** `\d`: an ASCII decimal digit. */
  predicate IsDigit(c: char) {
    '0' <= c <= '9'
  }

  predicate AllDigits(s: string) {
    forall i :: 0 <= i < |s| ==> IsDigit(s[i])
  }

  /** `\s`: the WhiteSpace and LineTerminator characters of ECMAScript, also what `trim` removes. */
  predicate IsSpace(c: char) {
    || c == ' ' || c == '\t' || c == '\n' || c == '\r'
    || c == '\U{000B}' || c == '\U{000C}' || c == '\U{00A0}' || c == '\U{1680}'
    || ('\U{2000}' <= c <= '\U{200A}')
    || c == '\U{2028}' || c == '\U{2029}' || c == '\U{202F}' || c == '\U{205F}'
    || c == '\U{3000}' || c == '\U{FEFF}'
  }

  /** A LineTerminator: the characters that `.` in a regular expression does not match. */
  predicate IsLineTerminator(c: char) {
    c == '\n' || c == '\r' || c == '\U{2028}' || c == '\U{2029}'
  }

  function DigitValue(c: char): nat
    requires IsDigit(c)
  {
    c as int - '0' as int
  }

  function DigitChar(d: nat): (c: char)
    requires d < 10
    ensures IsDigit(c) && DigitValue(c) == d
  {
    ('0' as int + d) as char
  }

  /** `parseInt` of a run of decimal digits (exact: no 2^53 precision limit). */
  function DigitsValue(s: string): nat
    requires AllDigits(s)
  {
    if |s| == 0 then 0 else DigitsValue(s[..|s| - 1]) * 10 + DigitValue(s[|s| - 1])
  }

  /** A digit string as `toString` writes one: non-empty, no leading zero except "0" itself. */
  predicate Canonical(s: string) {
    1 <= |s| && AllDigits(s) && (s[0] == '0' ==> |s| == 1)
  }

  /** `String(n)` for a non-negative integer. */
  function NatToString(n: nat): (r: string)
    ensures Canonical(r)
    ensures DigitsValue(r) == n
  {
    if n < 10 then
      [DigitChar(n)]
    else
      var p := NatToString(n / 10);
      var r := p + [DigitChar(n % 10)];
      assert r[..|r| - 1] == p;
      r
  }

  /** `String(i)` for any integer. */
  function IntToString(i: int): (r: string)
    ensures i >= 0 ==> Canonical(r) && DigitsValue(r) == i
    ensures i < 0 ==> |r| >= 2 && r[0] == '-' && Canonical(r[1..]) && DigitsValue(r[1..]) == -i
  {
    if i < 0 then
      var r := "-" + NatToString(-i);
      assert r[1..] == NatToString(-i);
      r
    else
      NatToString(i)
  }

  lemma {:induction false} LeadingDigitPositive(s: string)
    requires 1 <= |s| && AllDigits(s) && s[0] != '0'
    ensures DigitsValue(s) > 0
    decreases |s|
  {
    if |s| > 1 {
      LeadingDigitPositive(s[..|s| - 1]);
    }
  }

  /** Reading back what `NatToString` wrote: a canonical digit string is the text of its own value. */
  lemma {:induction false} NatToStringOfValue(s: string)
    requires Canonical(s)
    ensures NatToString(DigitsValue(s)) == s
    decreases |s|
  {
    if |s| > 1 {
      var p := s[..|s| - 1];
      LeadingDigitPositive(p);
      NatToStringOfValue(p);
      var n := DigitsValue(s);
      assert n / 10 == DigitsValue(p) && n % 10 == DigitValue(s[|s| - 1]);
      assert s == p + [s[|s| - 1]];
    }
  }

  /** Writing numbers is injective: distinct numbers have distinct texts. */
  lemma NatToStringInjective(m: nat, n: nat)
    requires NatToString(m) == NatToString(n)
    ensures m == n
  {
  }

  function Pow10(k: nat): (r: nat)
    ensures r >= 1
  {
    if k == 0 then 1 else 10 * Pow10(k - 1)
  }

  /** `parseFloat` of `\d+\.\d+`, as the exact rational the text denotes. */
  function DecimalValue(whole: string, fraction: string): real
    requires AllDigits(whole) && AllDigits(fraction)
  {
    DigitsValue(whole) as real + DigitsValue(fraction) as real / Pow10(|fraction|) as real
  }

  predicate StartsWith(t: string, lit: string) {
    |lit| <= |t| && t[..|lit|] == lit
  }

  predicate EndsWith(t: string, suffix: string) {
    |suffix| <= |t| && t[|t| - |suffix|..] == suffix
  }

  /** `c.repeat(n)`. */
  function Repeat(c: char, n: nat): (r: string)
    ensures |r| == n && forall i :: 0 <= i < n ==> r[i] == c
  {
    if n == 0 then "" else Repeat(c, n - 1) + [c]
  }

  /** Consumes the literal `lit` from the front of `t`, giving what follows it. */
  function Lit(t: string, lit: string): (r: Option<string>)
    ensures r.Some? <==> StartsWith(t, lit)
    ensures r.Some? ==> t == lit + r.value
  {
    if StartsWith(t, lit) then Some(t[|lit|..]) else None
  }

  lemma LitOfConcat(lit: string, rest: string)
    ensures Lit(lit + rest, lit) == Some(rest)
  {
    assert (lit + rest)[..|lit|] == lit;
  }

  /** The longest prefix of `t` whose characters all satisfy `p`, and what follows it. */
  function Span(t: string, p: char -> bool): (r: (string, string))
    ensures r.0 + r.1 == t
    ensures forall i :: 0 <= i < |r.0| ==> p(r.0[i])
    ensures |r.1| > 0 ==> !p(r.1[0])
    decreases |t|
  {
    if |t| > 0 && p(t[0]) then
      var r := Span(t[1..], p);
      var d := [t[0]] + r.0;
      assert d + r.1 == [t[0]] + (r.0 + r.1);
      assert t == [t[0]] + t[1..];
      assert forall i :: 1 <= i < |d| ==> d[i] == r.0[i - 1];
      (d, r.1)
    else
      ("", t)
  }

  /** A span is determined by its parts: a run of `p` characters followed by a non-`p` character (or nothing). */
  lemma {:induction false} SpanOf(d: string, rest: string, p: char -> bool)
    requires forall i :: 0 <= i < |d| ==> p(d[i])
    requires |rest| > 0 ==> !p(rest[0])
    ensures Span(d + rest, p) == (d, rest)
    decreases |d|
  {
    if |d| > 0 {
      assert (d + rest)[1..] == d[1..] + rest;
      SpanOf(d[1..], rest, p);
      assert d == [d[0]] + d[1..];
    } else {
      assert d + rest == rest;
    }
  }

  /** `X+`: at least one character satisfying `p`, as many as there are. */
  function Plus(t: string, p: char -> bool): (r: Option<(string, string)>)
    ensures r.Some? ==> |r.value.0| >= 1 && r.value.0 + r.value.1 == t
    ensures r.Some? ==> forall i :: 0 <= i < |r.value.0| ==> p(r.value.0[i])
    ensures r.Some? ==> |r.value.1| > 0 ==> !p(r.value.1[0])
    ensures r.None? <==> |t| == 0 || !p(t[0])
  {
    var r := Span(t, p);
    if |r.0| == 0 then None else Some(r)
  }

  lemma PlusOf(d: string, rest: string, p: char -> bool)
    requires |d| >= 1 && forall i :: 0 <= i < |d| ==> p(d[i])
    requires |rest| > 0 ==> !p(rest[0])
    ensures Plus(d + rest, p) == Some((d, rest))
  {
    SpanOf(d, rest, p);
  }

  /**
   * An unanchored search: the leftmost position of `s` at which the anchored
   * matcher `at` succeeds, with what it matched. Positions run from 0 to |s|
   * inclusive, as a regular expression's `lastIndex` does.
   */
  function Search<T>(s: string, at: string -> Option<T>): (r: Option<(nat, T)>)
    ensures r.Some? ==> r.value.0 <= |s| && at(s[r.value.0..]) == Some(r.value.1)
    ensures r.Some? ==> forall j :: 0 <= j < r.value.0 ==> at(s[j..]).None?
    ensures r.None? ==> forall j :: 0 <= j <= |s| ==> at(s[j..]).None?
    decreases |s|
  {
    match at(s)
    case Some(v) => Some((0, v))
    case None =>
      if |s| == 0 then None
      else
        assert forall j :: 1 <= j <= |s| ==> s[1..][j - 1..] == s[j..];
        match Search(s[1..], at)
        case Some((k, v)) => Some((k + 1, v))
        case None => None
  }

  /** `j` is the first position where the matcher `at` succeeds. */
  predicate FirstAt<T>(s: string, at: string -> Option<T>, j: int) {
    && 0 <= j <= |s| && at(s[j..]).Some?
    && forall k :: 0 <= k < j ==> at(s[k..]).None?
  }

  /** The search finds the first position where the matcher succeeds, and what it matched there. */
  lemma SearchFindsFirst<T>(s: string, at: string -> Option<T>, j: int)
    requires FirstAt(s, at, j)
    ensures Search(s, at) == Some((j as nat, at(s[j..]).value))
  {
    var r := Search(s, at);
    assert r.Some? && r.value.0 == j;
  }

  /** `String.prototype.includes`. */
  function Includes(s: string, lit: string): (r: bool)
    ensures r <==> exists i :: 0 <= i <= |s| && StartsWith(s[i..], lit)
  {
    var r := Search(s, t => Lit(t, lit));
    if r.Some? then
      assert StartsWith(s[r.value.0..], lit);
      true
    else
      false
  }

  /** A string that contains `lit` contains every character of `lit`. */
  lemma IncludesHasChars(s: string, lit: string, c: char)
    requires Includes(s, lit) && c in lit
    ensures c in s
  {
    var i :| 0 <= i <= |s| && StartsWith(s[i..], lit);
    var k :| 0 <= k < |lit| && lit[k] == c;
    assert s[i + k] == s[i..][..|lit|][k];
  }

  /** The first index of `c` in `s`. */
  function IndexOf(s: string, c: char): (r: Option<nat>)
    ensures r.Some? ==> r.value < |s| && s[r.value] == c && c !in s[..r.value]
    ensures r.None? <==> c !in s
    decreases |s|
  {
    if |s| == 0 then None
    else if s[0] == c then Some(0)
    else match IndexOf(s[1..], c)
      case Some(i) =>
        assert s[..i + 1] == [s[0]] + s[1..][..i];
        Some(i + 1)
      case None => None
  }

  /** `s.replace(c, "")` with a one-character string pattern: only the first occurrence goes. */
  function RemoveFirst(s: string, c: char): (r: string)
    ensures c !in s ==> r == s
    ensures c in s ==> exists i :: 0 <= i < |s| && s[i] == c && c !in s[..i] && r == s[..i] + s[i + 1..]
    ensures c in s ==> |r| == |s| - 1
  {
    match IndexOf(s, c)
    case None => s
    case Some(i) => s[..i] + s[i + 1..]
  }

  /** `parts.join(sep)`. */
  function Join(parts: seq<string>, sep: char): string
    decreases |parts|
  {
    if |parts| == 0 then ""
    else if |parts| == 1 then parts[0]
    else parts[0] + [sep] + Join(parts[1..], sep)
  }

  /** `s.split(sep)` with a one-character separator: every piece, empty ones included. */
  function Split(s: string, sep: char): (r: seq<string>)
    ensures |r| >= 1
    ensures forall k :: 0 <= k < |r| ==> sep !in r[k]
    ensures Join(r, sep) == s
    decreases |s|
  {
    match IndexOf(s, sep)
    case None => [s]
    case Some(i) =>
      var rest := Split(s[i + 1..], sep);
      var r := [s[..i]] + rest;
      assert r[1..] == rest;
      assert s == s[..i] + [sep] + s[i + 1..];
      r
  }

  /** The first separator of a joined text is the one after its first piece. */
  lemma IndexOfJoined(p0: string, sep: char, tail: string)
    requires sep !in p0
    ensures IndexOf(p0 + [sep] + tail, sep) == Some(|p0|)
  {
    var s := p0 + [sep] + tail;
    assert s[|p0|] == sep;
    assert s[..|p0|] == p0;
  }

  /** Splitting undoes joining, for pieces free of the separator. */
  lemma {:induction false} SplitJoin(parts: seq<string>, sep: char)
    requires |parts| >= 1
    requires forall k :: 0 <= k < |parts| ==> sep !in parts[k]
    ensures Split(Join(parts, sep), sep) == parts
    decreases |parts|
  {
    if |parts| > 1 {
      var p0 := parts[0];
      var tail := Join(parts[1..], sep);
      var s := p0 + [sep] + tail;
      assert Join(parts, sep) == s;
      IndexOfJoined(p0, sep, tail);
      assert s[..|p0|] == p0 && s[|p0| + 1..] == tail;
      SplitJoin(parts[1..], sep);
      assert Split(s, sep) == [p0] + Split(tail, sep);
      assert parts == [p0] + parts[1..];
    }
  }

  predicate AllSpace(s: string) {
    forall i :: 0 <= i < |s| ==> IsSpace(s[i])
  }

  /** The index of the first non-`\s` character of `s` at or after `i` (|s| if none). */
  function SkipSpaces(s: string, i: nat): (j: nat)
    requires i <= |s|
    ensures i <= j <= |s|
    ensures forall k :: i <= k < j ==> IsSpace(s[k])
    ensures j < |s| ==> !IsSpace(s[j])
    decreases |s| - i
  {
    if i < |s| && IsSpace(s[i]) then SkipSpaces(s, i + 1) else i
  }

  /** The index just after the last non-`\s` character of `s` before `j`, no lower than `lo`. */
  function BackSpaces(s: string, lo: nat, j: nat): (i: nat)
    requires lo <= j <= |s|
    ensures lo <= i <= j
    ensures forall k :: i <= k < j ==> IsSpace(s[k])
    ensures i > lo ==> !IsSpace(s[i - 1])
    decreases j
  {
    if j > lo && IsSpace(s[j - 1]) then BackSpaces(s, lo, j - 1) else j
  }

  /** `String.prototype.trim`: the part of `s` left after removing leading and trailing `\s`. */
  function Trim(s: string): (r: string)
    ensures var a := SkipSpaces(s, 0);
      && a + |r| <= |s| && r == s[a..a + |r|]
      && (forall k :: 0 <= k < a ==> IsSpace(s[k]))
      && (forall k :: a + |r| <= k < |s| ==> IsSpace(s[k]))
    ensures |r| == 0 <==> AllSpace(s)
    ensures |r| > 0 ==> !IsSpace(r[0]) && !IsSpace(r[|r| - 1])
  {
    var a := SkipSpaces(s, 0);
    var b := BackSpaces(s, a, |s|);
    assert a < |s| ==> a < b;
    s[a..b]
  }
}
